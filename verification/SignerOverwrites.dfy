/** A run in which a connect replaces the bound client of a revoked row. */
module SignerOverwrites {
  import opened Options
  import opened Signers
  import opened SignerRuns

  ghost predicate Reachable(s: State) {
    exists steps :: Run(Initial, steps, s)
  }

  lemma {:induction false} RunExtends(s: State, steps: seq<Step>, t: State, step: Step)
    requires Run(s, steps, t) && Enabled(t, step)
    ensures Run(s, steps + [step], Next(t, step))
    decreases |steps|
  {
    if steps == [] {
      assert [step][1..] == [];
    } else {
      assert (steps + [step])[0] == steps[0] && (steps + [step])[1..] == steps[1..] + [step];
      RunExtends(Next(s, steps[0]), steps[1..], t, step);
    }
  }

  lemma Follow(s: State, step: Step, t: State)
    requires Reachable(s) && Enabled(s, step) && t == Next(s, step)
    ensures Reachable(t)
  {
    var steps :| Run(Initial, steps, s);
    RunExtends(Initial, steps, s, step);
  }

  /** A row as it is issued. */
  predicate Unused(row: Row) {
    row.client.None? && row.revokedAt.None? && row.expiresAt.None?
  }

  function ActiveHandler(bunker: Key, row: Row): Handler {
    OauthHandler(bunker, row, Active, None)
  }

  /** One OAuth row, with what the cache holds and which requests have taken a handler. */
  function Only(bunker: Key, row: Row, cache: HandlerCache, loading: map<nat, Handler>, requests: map<nat, Request>)
    : State
  {
    State(map[bunker := row], map[], cache, loading, requests, {bunker}, {})
  }

  function Asks(client: Key, h: Handler): map<nat, Request> {
    map[0 := Request(client, Connect(Some(true)), h)]
  }

  lemma Issues(bunker: Key, row: Row)
    requires Unused(row)
    ensures Reachable(Only(bunker, row, map[], map[], map[]))
  {
    assert Run(Initial, [], Initial);
    assert {} + {bunker} == {bunker};
    Follow(Initial, IssueOauth(bunker, row), Only(bunker, row, map[], map[], map[]));
  }

  lemma Loads(bunker: Key, row: Row, h: Handler)
    requires Unused(row) && h == ActiveHandler(bunker, row)
    ensures Reachable(Only(bunker, row, map[], map[0 := h], map[]))
  {
    Issues(bunker, row);
    var s := Only(bunker, row, map[], map[], map[]);
    assert LoadOnDemand(s.oauth, s.teams, bunker, 0) == Some(h);
    Follow(s, BeginLoad(0, bunker, 0), Only(bunker, row, map[], map[0 := h], map[]));
  }

  lemma FirstAsks(bunker: Key, row: Row, h: Handler, first: Key)
    requires Unused(row) && h == ActiveHandler(bunker, row)
    ensures Reachable(Only(bunker, row, map[bunker := h], map[], Asks(first, h)))
  {
    Loads(bunker, row, h);
    var s := Only(bunker, row, map[], map[0 := h], map[]);
    assert s.loading - {0} == map[];
    Follow(s, TakeLoaded(0, 0, first, Connect(Some(true))),
           Only(bunker, row, map[bunker := h], map[], Asks(first, h)));
  }

  lemma FirstIsBound(bunker: Key, row: Row, h: Handler, first: Key)
    requires Unused(row) && h == ActiveHandler(bunker, row)
    ensures Reachable(Only(bunker, row.(client := Some(first)), map[bunker := h], map[], map[]))
  {
    FirstAsks(bunker, row, h, first);
    var s := Only(bunker, row, map[bunker := h], map[], Asks(first, h));
    assert s.requests - {0} == map[];
    assert Outcome(s, 0, true, 0) == (Bind(s.oauth, bunker, first), Ack);
    assert Bind(s.oauth, bunker, first) == map[bunker := row.(client := Some(first))];
    Follow(s, Answer(0, true, 0), Only(bunker, row.(client := Some(first)), map[bunker := h], map[], map[]));
  }

  lemma SecondAsks(bunker: Key, row: Row, h: Handler, first: Key, second: Key)
    requires Unused(row) && h == ActiveHandler(bunker, row)
    ensures Reachable(Only(bunker, row.(client := Some(first)), map[bunker := h], map[], Asks(second, h)))
  {
    FirstIsBound(bunker, row, h, first);
    var s := Only(bunker, row.(client := Some(first)), map[bunker := h], map[], map[]);
    Follow(s, TakeCached(0, bunker, second, Connect(Some(true))),
           Only(bunker, row.(client := Some(first)), map[bunker := h], map[], Asks(second, h)));
  }

  lemma RowIsRevoked(bunker: Key, row: Row, h: Handler, first: Key, second: Key)
    requires Unused(row) && h == ActiveHandler(bunker, row)
    ensures Reachable(Only(bunker, row.(client := Some(first), revokedAt := Some(0)), map[bunker := h], map[],
                           Asks(second, h)))
  {
    SecondAsks(bunker, row, h, first, second);
    var bound := row.(client := Some(first));
    var s := Only(bunker, bound, map[bunker := h], map[], Asks(second, h));
    assert s.oauth[bunker := RevokedRow(bound, 0)] == map[bunker := RevokedRow(bound, 0)];
    Follow(s, Revoke(bunker, 0), Only(bunker, RevokedRow(bound, 0), map[bunker := h], map[], Asks(second, h)));
  }

  /** A second client's connect takes the cached handler, the row is revoked, and the answer acknowledges
    * the second client and binds it to the revoked row in place of the first. */
  ghost predicate Replaces(s: State, bunker: Key, first: Key, second: Key) {
    && Reachable(s) && 0 in s.requests && Overwrites(s, Answer(0, true, 0), true, bunker, first)
    && Outcome(s, 0, true, 0).1 == Ack
    && IsBound(s, true, bunker, first) && IsBound(Next(s, Answer(0, true, 0)), true, bunker, second)
  }

  lemma RevokedBindingIsReplaced(bunker: Key, row: Row, first: Key, second: Key)
    requires Unused(row) && first != second
    ensures exists s :: Replaces(s, bunker, first, second)
  {
    var h := ActiveHandler(bunker, row);
    RowIsRevoked(bunker, row, h, first, second);
    var revoked := row.(client := Some(first), revokedAt := Some(0));
    var s := Only(bunker, revoked, map[bunker := h], map[], Asks(second, h));
    assert Outcome(s, 0, true, 0) == (Bind(s.oauth, bunker, second), Ack);
    assert Replaces(s, bunker, first, second);
  }
}
