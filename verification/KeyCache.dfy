/**
  * The decrypt cache in front of a key manager.
  *
  * The inner manager is described by what it decrypts each ciphertext to; whether it answers a given
  * call, and which new ciphertext it makes up for a plaintext, are inputs. SHA-256 is a parameter,
  * assumed free of collisions.
  */
module KeyCaches {
  import opened Options

  type Bytes = seq<nat>

  datatype Secrets = Secrets(digest: Bytes -> Bytes, plain: Bytes -> Option<Bytes>)

  type Cached = map<Bytes, Bytes>

  datatype Result = Ok(bytes: Bytes) | Failed

  ghost predicate CollisionFree(s: Secrets) {
    forall c: Bytes, d: Bytes :: s.digest(c) == s.digest(d) ==> c == d
  }

  /** Every cached plaintext is what the inner manager decrypts that ciphertext to. */
  ghost predicate Sound(s: Secrets, cache: Cached) {
    forall c: Bytes :: s.digest(c) in cache ==> s.plain(c) == Some(cache[s.digest(c)])
  }

  /** What the inner manager would answer to a decrypt at this moment. */
  function InnerDecrypt(s: Secrets, ciphertext: Bytes, available: bool): Result {
    if available && s.plain(ciphertext).Some? then Ok(s.plain(ciphertext).value) else Failed
  }

  datatype Op =
    | Encrypt(plaintext: Bytes, made: Option<Bytes>)  // the ciphertext the inner manager makes, if it answers
    | Decrypt(ciphertext: Bytes, available: bool)
    | Forget(key: Bytes)                              // expiry or eviction

  /** The inner manager's law: what it encrypts it can decrypt. */
  ghost predicate Honest(s: Secrets, op: Op) {
    op.Encrypt? && op.made.Some? ==> s.plain(op.made.value) == Some(op.plaintext)
  }

  /** The cache, and the calls that reached the inner manager. */
  datatype State = State(cache: Cached, encrypts: seq<Bytes>, decrypts: seq<Bytes>)

  function Step(s: Secrets, st: State, op: Op): (State, Result) {
    match op
    case Encrypt(p, made) =>
      var called := st.(encrypts := st.encrypts + [p]);
      if made.None? then (called, Failed)
      else (called.(cache := st.cache[s.digest(made.value) := p]), Ok(made.value))
    case Decrypt(c, available) =>
      if s.digest(c) in st.cache then (st, Ok(st.cache[s.digest(c)]))
      else
        var called := st.(decrypts := st.decrypts + [c]);
        var result := InnerDecrypt(s, c, available);
        (if result.Ok? then called.(cache := st.cache[s.digest(c) := result.bytes]) else called, result)
    case Forget(key) => (st.(cache := st.cache - {key}), Failed)
  }

  /** Whether or not the inner manager is available, it is not asked: the cache answers. */
  ghost predicate AnsweredFromCache(s: Secrets, st: State, ciphertext: Bytes, plaintext: Bytes) {
    forall available :: Step(s, st, Decrypt(ciphertext, available)) == (st, Ok(plaintext))
  }

  lemma EncryptKeepsSound(s: Secrets, st: State, plaintext: Bytes, made: Option<Bytes>)
    ensures CollisionFree(s) && Sound(s, st.cache) && Honest(s, Encrypt(plaintext, made)) ==>
              Sound(s, Step(s, st, Encrypt(plaintext, made)).0.cache)
  {
    if CollisionFree(s) && Sound(s, st.cache) && Honest(s, Encrypt(plaintext, made)) {
      StepKeepsSound(s, st, Encrypt(plaintext, made));
    }
  }

  lemma DecryptKeepsSound(s: Secrets, st: State, ciphertext: Bytes, available: bool)
    ensures CollisionFree(s) && Sound(s, st.cache) ==>
              Sound(s, Step(s, st, Decrypt(ciphertext, available)).0.cache)
  {
    if CollisionFree(s) && Sound(s, st.cache) {
      StepKeepsSound(s, st, Decrypt(ciphertext, available));
    }
  }

  class CachingKeyManager {
    const secrets: Secrets
    var state: State

    constructor (secrets: Secrets)
      ensures this.secrets == secrets && state == State(map[], [], [])
    {
      this.secrets, state := secrets, State(map[], [], []);
    }

    method EncryptBytes(plaintext: Bytes, made: Option<Bytes>) returns (result: Result)
      modifies this
      ensures (state, result) == Step(secrets, old(state), Encrypt(plaintext, made))
      ensures result == match made case Some(ciphertext) => Ok(ciphertext) case None => Failed
      ensures result.Ok? ==> AnsweredFromCache(secrets, state, result.bytes, plaintext)
      ensures result.Failed? ==> state.cache == old(state.cache)
      ensures CollisionFree(secrets) && Sound(secrets, old(state.cache)) && Honest(secrets, Encrypt(plaintext, made)) ==>
                Sound(secrets, state.cache)
    {
      EncryptKeepsSound(secrets, state, plaintext, made);
      state := state.(encrypts := state.encrypts + [plaintext]);
      if made.None? {
        return Failed;
      }
      var key := secrets.digest(made.value);
      state := state.(cache := state.cache[key := plaintext]);
      result := Ok(made.value);
    }

    method DecryptBytes(ciphertext: Bytes, available: bool) returns (result: Result)
      modifies this
      ensures (state, result) == Step(secrets, old(state), Decrypt(ciphertext, available))
      ensures result.Ok? ==> AnsweredFromCache(secrets, state, ciphertext, result.bytes)
      ensures result.Failed? ==> state.cache == old(state.cache) && InnerDecrypt(secrets, ciphertext, available).Failed?
      ensures CollisionFree(secrets) && Sound(secrets, old(state.cache)) ==>
        Sound(secrets, state.cache) && (result.Ok? ==> secrets.plain(ciphertext) == Some(result.bytes))
    {
      DecryptKeepsSound(secrets, state, ciphertext, available);
      var key := secrets.digest(ciphertext);
      if key in state.cache {
        return Ok(state.cache[key]);
      }
      state := state.(decrypts := state.decrypts + [ciphertext]);
      result := InnerDecrypt(secrets, ciphertext, available);
      if result.Ok? {
        state := state.(cache := state.cache[key := result.bytes]);
      }
    }
  }

  // ---------------------------------------------------------------- whole runs

  function Exec(s: Secrets, st: State, ops: seq<Op>): State
    decreases |ops|
  {
    if ops == [] then st else Exec(s, Step(s, st, ops[0]).0, ops[1..])
  }

  ghost predicate AllHonest(s: Secrets, ops: seq<Op>) {
    forall i :: 0 <= i < |ops| ==> Honest(s, ops[i])
  }

  lemma StepKeepsSound(s: Secrets, st: State, op: Op)
    requires CollisionFree(s) && Sound(s, st.cache) && Honest(s, op)
    ensures Sound(s, Step(s, st, op).0.cache)
  {
    var cache' := Step(s, st, op).0.cache;
    forall c: Bytes | s.digest(c) in cache' ensures s.plain(c) == Some(cache'[s.digest(c)]) {
      if op.Encrypt? && op.made.Some? && s.digest(c) == s.digest(op.made.value) {
        assert c == op.made.value;
      } else if op.Decrypt? && s.digest(c) == s.digest(op.ciphertext) {
        assert c == op.ciphertext;
      }
    }
  }

  lemma {:induction false} ExecKeepsSound(s: Secrets, st: State, ops: seq<Op>)
    requires CollisionFree(s) && Sound(s, st.cache) && AllHonest(s, ops)
    ensures Sound(s, Exec(s, st, ops).cache)
    decreases |ops|
  {
    if ops != [] {
      StepKeepsSound(s, st, ops[0]);
      assert forall i :: 0 <= i < |ops[1..]| ==> ops[1..][i] == ops[i + 1];
      ExecKeepsSound(s, Step(s, st, ops[0]).0, ops[1..]);
    }
  }

  /** After any run of encrypts, decrypts, expiries and evictions, a decrypt through the cache answers
    * exactly what the inner manager holds for that ciphertext, or fails; it fails only if the inner
    * manager would fail too, and then leaves the cache as it was. */
  lemma CacheRefinesInner(s: Secrets, ops: seq<Op>, ciphertext: Bytes, available: bool)
    requires CollisionFree(s) && AllHonest(s, ops)
    ensures var st := Exec(s, State(map[], [], []), ops);
      var (st', result) := Step(s, st, Decrypt(ciphertext, available));
      && (result.Ok? ==> s.plain(ciphertext) == Some(result.bytes))
      && (InnerDecrypt(s, ciphertext, available).Ok? ==> result == InnerDecrypt(s, ciphertext, available))
      && (result.Failed? ==> st'.cache == st.cache)
      && st'.encrypts == st.encrypts
      && st'.decrypts == (if s.digest(ciphertext) in st.cache then st.decrypts else st.decrypts + [ciphertext])
  {
    ExecKeepsSound(s, State(map[], [], []), ops);
  }

  ghost predicate NeverForgotten(ops: seq<Op>, key: Bytes) {
    forall i :: 0 <= i < |ops| ==> ops[i] != Forget(key)
  }

  lemma {:induction false} CachedUntilForgotten(s: Secrets, st: State, key: Bytes, ops: seq<Op>)
    requires key in st.cache && NeverForgotten(ops, key)
    ensures key in Exec(s, st, ops).cache
    decreases |ops|
  {
    if ops != [] {
      assert ops[0] != Forget(key);
      assert forall i :: 0 <= i < |ops[1..]| ==> ops[1..][i] == ops[i + 1];
      CachedUntilForgotten(s, Step(s, st, ops[0]).0, key, ops[1..]);
    }
  }

  /** What an encrypt or a decrypt has cached is answered from the cache, without asking the inner manager
    * and whether or not it is available, until that entry expires or is evicted. */
  lemma ServedUntilForgotten(s: Secrets, st: State, op: Op, ciphertext: Bytes, between: seq<Op>, available: bool)
    requires CollisionFree(s) && Sound(s, st.cache) && Honest(s, op) && AllHonest(s, between)
    requires op == Decrypt(ciphertext, available) || (op.Encrypt? && op.made == Some(ciphertext))
    requires Step(s, st, op).1.Ok? && NeverForgotten(between, s.digest(ciphertext))
    ensures s.plain(ciphertext).Some?
    ensures var later := Exec(s, Step(s, st, op).0, between);
      AnsweredFromCache(s, later, ciphertext, s.plain(ciphertext).value)
  {
    var cached := Step(s, st, op).0;
    StepKeepsSound(s, st, op);
    CachedUntilForgotten(s, cached, s.digest(ciphertext), between);
    ExecKeepsSound(s, cached, between);
  }

  /** What was encrypted decrypts to itself in every later state, whenever decryption succeeds. */
  lemma EncryptThenDecrypt(s: Secrets, before: seq<Op>, plaintext: Bytes, made: Bytes, between: seq<Op>, available: bool)
    requires CollisionFree(s) && AllHonest(s, before) && AllHonest(s, between)
    requires Honest(s, Encrypt(plaintext, Some(made)))
    ensures var st := Exec(s, State(map[], [], []), before);
      var st' := Exec(s, Step(s, st, Encrypt(plaintext, Some(made))).0, between);
      var result := Step(s, st', Decrypt(made, available)).1;
      && Step(s, st, Encrypt(plaintext, Some(made))).1 == Ok(made)
      && (available ==> result.Ok?) && (result.Ok? ==> result.bytes == plaintext)
  {
    var st := Exec(s, State(map[], [], []), before);
    ExecKeepsSound(s, State(map[], [], []), before);
    StepKeepsSound(s, st, Encrypt(plaintext, Some(made)));
    ExecKeepsSound(s, Step(s, st, Encrypt(plaintext, Some(made))).0, between);
  }

  /** The plaintexts the run asks to encrypt, in order. */
  function Encryptions(ops: seq<Op>): seq<Bytes>
    decreases |ops|
  {
    if ops == [] then []
    else (if ops[0].Encrypt? then [ops[0].plaintext] else []) + Encryptions(ops[1..])
  }

  /** Every encrypt reaches the inner manager exactly once, in order, and nothing else does. */
  lemma {:induction false} EncryptsReachInnerOnce(s: Secrets, st: State, ops: seq<Op>)
    ensures Exec(s, st, ops).encrypts == st.encrypts + Encryptions(ops)
    decreases |ops|
  {
    if ops != [] {
      EncryptsReachInnerOnce(s, Step(s, st, ops[0]).0, ops[1..]);
    }
  }
}
