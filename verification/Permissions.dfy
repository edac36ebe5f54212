/**
  * Policy permissions and their two evaluators: the NIP-46 handler's early-exit loop and the HTTP
  * handler's `all`. JSON parsing of an envelope is a parameter.
  */
module Permissions {
  import opened Options
  import Patterns

  type PublicKey = string

  /** An unsigned event: its kind, its content and the public keys its tags name. */
  datatype Event = Event(kind: nat, content: string, tagged: seq<PublicKey>)

  type Parser = string -> Option<Event>

  const COMMERCE_ENVELOPE_KIND: nat := 1327
  const SEAL_KIND: nat := 13
  const RELAY_AUTH_KIND: nat := 22242

  datatype Permission =
    | AllowedKinds(kinds: Option<seq<nat>>)
    | CommerceEnvelope(merchant: PublicKey)
    | ContentFilter(words: Option<seq<string>>)
    | DecryptOnly
    | EncryptToSelf
    | FullAccess

  datatype Request =
    | Sign(event: Event)
    | Encrypt(plaintext: string, sender: PublicKey, recipient: PublicKey)
    | Decrypt(ciphertext: string, sender: PublicKey, recipient: PublicKey)

  predicate Contains(text: string, word: string) {
    Patterns.Find(text, word).Some?
  }

  predicate Clean(text: string, words: Option<seq<string>>) {
    words.Some? ==> forall i :: 0 <= i < |words.value| ==> !Contains(text, words.value[i])
  }

  /** The text is an unsigned commerce envelope that names the merchant. */
  predicate IsEnvelopeFor(parse: Parser, text: string, merchant: PublicKey) {
    && parse(text).Some?
    && parse(text).value.kind == COMMERCE_ENVELOPE_KIND
    && merchant in parse(text).value.tagged
  }

  predicate Allows(parse: Parser, p: Permission, request: Request) {
    match request
    case Sign(event) => (
      match p
      case AllowedKinds(kinds) => kinds.None? || event.kind in kinds.value
      case CommerceEnvelope(_) => event.kind == SEAL_KIND
      case ContentFilter(words) => Clean(event.content, words)
      case DecryptOnly => event.kind == RELAY_AUTH_KIND
      case EncryptToSelf => true
      case FullAccess => true)
    case Encrypt(text, sender, recipient) => (
      match p
      case AllowedKinds(_) => true
      case CommerceEnvelope(merchant) =>
        (recipient == merchant || recipient == sender) && IsEnvelopeFor(parse, text, merchant)
      case ContentFilter(words) => Clean(text, words)
      case DecryptOnly => false
      case EncryptToSelf => sender == recipient
      case FullAccess => true)
    case Decrypt(_, sender, recipient) =>
      p.EncryptToSelf? ==> sender == recipient
  }

  /** The verdict both evaluators are meant to reach: every permission allows the request. */
  ghost predicate Permitted(parse: Parser, permissions: seq<Permission>, request: Request) {
    forall p :: p in permissions ==> Allows(parse, p, request)
  }

  /** The permission the NIP-46 handler blames: the first that refuses. */
  function FirstBlocker(parse: Parser, permissions: seq<Permission>, request: Request): Option<Permission>
    decreases |permissions|
  {
    if permissions == [] then None
    else if !Allows(parse, permissions[0], request) then Some(permissions[0])
    else FirstBlocker(parse, permissions[1..], request)
  }

  /** The HTTP handler's verdict: an empty list is full access, otherwise all must allow. */
  predicate HttpAllows(parse: Parser, permissions: seq<Permission>, request: Request) {
    permissions == [] || forall i :: 0 <= i < |permissions| ==> Allows(parse, permissions[i], request)
  }

  method ValidateForSigner(parse: Parser, permissions: seq<Permission>, request: Request)
    returns (blocker: Option<Permission>)
    ensures blocker == FirstBlocker(parse, permissions, request)
  {
    for i := 0 to |permissions|
      invariant FirstBlocker(parse, permissions, request) == FirstBlocker(parse, permissions[i..], request)
    {
      assert permissions[i..][0] == permissions[i] && permissions[i..][1..] == permissions[i + 1..];
      if !Allows(parse, permissions[i], request) {
        return Some(permissions[i]);
      }
    }
    return None;
  }

  lemma {:induction false} SignerVerdict(parse: Parser, permissions: seq<Permission>, request: Request)
    ensures FirstBlocker(parse, permissions, request).None? <==> Permitted(parse, permissions, request)
    decreases |permissions|
  {
    if permissions != [] {
      SignerVerdict(parse, permissions[1..], request);
      assert permissions == [permissions[0]] + permissions[1..];
    }
  }

  /** The word stands somewhere in the text. */
  ghost predicate StandsIn(word: string, text: string) {
    exists before, after :: text == before + word + after
  }

  lemma ContainsIff(text: string, word: string)
    ensures Contains(text, word) <==> StandsIn(word, text)
  {
    var at := Patterns.Find(text, word);
    if at.Some? {
      var i := at.value;
      assert text == text[..i] + text[i..i + |word|] + text[i + |word|..];
      assert text == text[..i] + word + text[i + |word|..];
    }
    forall before, after | text == before + word + after ensures at.Some? {
      assert text[|before|..] == word + after;
      assert Patterns.OccursAt(text, word, |before|);
    }
  }

  ghost predicate NoWordStandsIn(words: seq<string>, text: string) {
    forall i :: 0 <= i < |words| ==> !StandsIn(words[i], text)
  }

  lemma CleanIff(text: string, words: seq<string>)
    ensures Clean(text, Some(words)) <==> NoWordStandsIn(words, text)
  {
    forall i | 0 <= i < |words| ensures Contains(text, words[i]) <==> StandsIn(words[i], text) {
      ContainsIff(text, words[i]);
    }
  }

  /** What a list lets sign, spelled out: only listed kinds, only seals for a merchant, no filtered word,
    * and with decryption only nothing but relay authentication. */
  lemma {:induction false} SignsIff(parse: Parser, permissions: seq<Permission>, event: Event)
    ensures FirstBlocker(parse, permissions, Sign(event)).None? <==>
      && (forall kinds :: AllowedKinds(Some(kinds)) in permissions ==> event.kind in kinds)
      && (forall merchant :: CommerceEnvelope(merchant) in permissions ==> event.kind == 13)
      && (forall words :: ContentFilter(Some(words)) in permissions ==> NoWordStandsIn(words, event.content))
      && (DecryptOnly in permissions ==> event.kind == 22242)
  {
    SignerVerdict(parse, permissions, Sign(event));
    forall words: seq<string> ensures Clean(event.content, Some(words)) <==> NoWordStandsIn(words, event.content) {
      CleanIff(event.content, words);
    }
    forall p | p in permissions ensures Allows(parse, p, Sign(event)) <==>
      && (p.AllowedKinds? && p.kinds.Some? ==> event.kind in p.kinds.value)
      && (p.CommerceEnvelope? ==> event.kind == 13)
      && (p.ContentFilter? && p.words.Some? ==> NoWordStandsIn(p.words.value, event.content))
      && (p.DecryptOnly? ==> event.kind == 22242)
    {}
  }

  /** What a list lets encrypt, spelled out. */
  lemma {:induction false} EncryptsIff(parse: Parser, permissions: seq<Permission>, text: string,
                                       sender: PublicKey, recipient: PublicKey)
    ensures FirstBlocker(parse, permissions, Encrypt(text, sender, recipient)).None? <==>
      && (forall merchant :: CommerceEnvelope(merchant) in permissions ==>
            (recipient == merchant || recipient == sender) && IsEnvelopeFor(parse, text, merchant))
      && (forall words :: ContentFilter(Some(words)) in permissions ==> NoWordStandsIn(words, text))
      && DecryptOnly !in permissions
      && (EncryptToSelf in permissions ==> sender == recipient)
  {
    var request := Encrypt(text, sender, recipient);
    SignerVerdict(parse, permissions, request);
    forall words: seq<string>
      ensures Allows(parse, ContentFilter(Some(words)), request) <==> NoWordStandsIn(words, text)
    {
      CleanIff(text, words);
    }
    forall merchant: PublicKey
      ensures Allows(parse, CommerceEnvelope(merchant), request) <==>
              (recipient == merchant || recipient == sender) && IsEnvelopeFor(parse, text, merchant)
    {}
    assert !Allows(parse, DecryptOnly, request);
    assert Allows(parse, EncryptToSelf, request) <==> sender == recipient;
  }

  /** Decryption is up to one permission alone: to self, or anything. */
  lemma {:induction false} DecryptsIff(parse: Parser, permissions: seq<Permission>, text: string,
                                       sender: PublicKey, recipient: PublicKey)
    ensures FirstBlocker(parse, permissions, Decrypt(text, sender, recipient)).None? <==>
            (EncryptToSelf in permissions ==> sender == recipient)
  {
    SignerVerdict(parse, permissions, Decrypt(text, sender, recipient));
    assert Allows(parse, EncryptToSelf, Decrypt(text, sender, recipient)) <==> sender == recipient;
  }

  /** On every list and request the early-exit loop and the `all` form give the same verdict. */
  lemma {:induction false} EvaluatorsAgree(parse: Parser, permissions: seq<Permission>, request: Request)
    ensures FirstBlocker(parse, permissions, request).None? <==> HttpAllows(parse, permissions, request)
    ensures HttpAllows(parse, permissions, request) <==> Permitted(parse, permissions, request)
  {
    SignerVerdict(parse, permissions, request);
  }

  /** Both verdicts are the same for every order of the permissions. */
  lemma {:induction false} OrderDoesNotMatter(parse: Parser, p: seq<Permission>, q: seq<Permission>,
                                              request: Request)
    requires multiset(p) == multiset(q)
    ensures FirstBlocker(parse, p, request).None? <==> FirstBlocker(parse, q, request).None?
    ensures HttpAllows(parse, p, request) <==> HttpAllows(parse, q, request)
  {
    EvaluatorsAgree(parse, p, request);
    EvaluatorsAgree(parse, q, request);
    assert forall x :: x in p <==> x in multiset(p);
    assert forall x :: x in q <==> x in multiset(q);
  }

  /** More permissions never allow more: a blocker stays one, and both verdicts on two lists together are
    * the conjunction of the verdicts on each. */
  lemma {:induction false} PermissionsOnlyRestrict(parse: Parser, p: seq<Permission>, q: seq<Permission>,
                                                   request: Request)
    ensures FirstBlocker(parse, p + q, request)
         == if FirstBlocker(parse, p, request).Some? then FirstBlocker(parse, p, request)
            else FirstBlocker(parse, q, request)
    ensures HttpAllows(parse, p + q, request) <==> HttpAllows(parse, p, request) && HttpAllows(parse, q, request)
    decreases |p|
  {
    if p == [] {
      assert p + q == q;
    } else {
      assert (p + q)[0] == p[0] && (p + q)[1..] == p[1..] + q;
      PermissionsOnlyRestrict(parse, p[1..], q, request);
    }
    EvaluatorsAgree(parse, p + q, request);
    EvaluatorsAgree(parse, p, request);
    EvaluatorsAgree(parse, q, request);
  }

  /** A corollary: any list with a commerce envelope signs only seals, and encrypts only commerce envelopes naming
    * the merchant, to the merchant or to the sender, whatever else the list holds. */
  lemma {:induction false} CommerceConfines(parse: Parser, permissions: seq<Permission>, merchant: PublicKey,
                                            request: Request)
    requires CommerceEnvelope(merchant) in permissions && FirstBlocker(parse, permissions, request).None?
    ensures request.Sign? ==> request.event.kind == 13
    ensures request.Encrypt? ==>
      && request.recipient in {merchant, request.sender}
      && parse(request.plaintext).Some?
      && parse(request.plaintext).value.kind == 1327
      && merchant in parse(request.plaintext).value.tagged
  {
    SignerVerdict(parse, permissions, request);
    assert Allows(parse, CommerceEnvelope(merchant), request);
  }

  /** Another: two merchants on one list leave only envelopes that name both, addressed to oneself. */
  lemma {:induction false} TwoMerchantsOnlyToSelf(parse: Parser, permissions: seq<Permission>, m: PublicKey, n: PublicKey,
                                                  request: Request)
    requires m != n && CommerceEnvelope(m) in permissions && CommerceEnvelope(n) in permissions
    requires request.Encrypt? && FirstBlocker(parse, permissions, request).None?
    ensures request.recipient == request.sender
    ensures parse(request.plaintext).Some? && {m, n} <= (set k | k in parse(request.plaintext).value.tagged)
  {
    CommerceConfines(parse, permissions, m, request);
    CommerceConfines(parse, permissions, n, request);
    var tagged := parse(request.plaintext).value.tagged;
    assert m in tagged && n in tagged;
  }
}
