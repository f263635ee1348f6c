/** A run of two nodes in which a refresh presents an outdated refresh token. */
module OAuthOldToken {
  import opened Options
  import opened OAuthProtocol
  import opened OAuthRefreshTokens
  import opened OAuthTokenSource

  /** Two nodes whose sources were built from the same expired token. */
  function TwoNodes(first: Token, user: string, now: int): State {
    State(now, Some(Row(user, first, 0)), None, map[0 := Node(first, Idle), 1 := Node(first, Idle)], 0, 1)
  }

  function FirstCall(second: Token, user: string): seq<Event> {
    [Call(0), Acquire(0), Reread(0), Refresh(0, second), GetUser(0, user), Save(0), Release(0)]
  }

  lemma {:induction false} FirstCallRuns(first: Token, second: Token, user: string, now: int)
    requires !Valid(first, now) && Valid(second, now)
    ensures Run(TwoNodes(first, user, now), FirstCall(second, user))
            == Some(State(now, Some(Row(user, second, 1)), None,
                          map[0 := Node(second, Idle), 1 := Node(first, Idle)], 1, 1))
  {
    var s0 := TwoNodes(first, user, now);
    var seen, calls := Row(user, first, 0), Calls(true, true, Some(second), Some(user), true, true);
    assert [Call(0)] + [] == [Call(0)];
    RunOne(s0, Call(0));
    var t := At(s0, 0, first, Waiting);
    CallIsARun(s0, 0, [], calls);
    assert FirstCall(second, user)
        == [Call(0)] + [] + ([Acquire(0)] + (LockedTrace(0, t.row, now, calls) + [Unlock(0, calls)]));
    assert Done(t, 0, first, calls).nodes == map[0 := Node(second, Idle), 1 := Node(first, Idle)];
  }

  lemma {:induction false} SecondCallRereads(s: State, first: Token, seen: Row, later: nat)
    requires s.lock.None? && 1 in s.nodes && s.nodes[1] == Node(first, Idle) && s.row == Some(seen)
    requires !Valid(first, s.clock + later) && !Valid(seen.token, s.clock + later)
    ensures var es := [Tick(later), Call(1), Acquire(1), Reread(1)];
            Run(s, es).Some? && 1 in Run(s, es).value.nodes && Run(s, es).value.nodes[1].pc == MustRefresh(seen)
  {
    RunFirst(s, Tick(later), [Call(1), Acquire(1), Reread(1)]);
    RunThree(Next(s, Tick(later)).value, Call(1), Acquire(1), Reread(1));
    assert [Tick(later)] + [Call(1), Acquire(1), Reread(1)] == [Tick(later), Call(1), Acquire(1), Reread(1)];
  }

  /** It does happen: after the other node's refresh a node re-reads the rotated token and still presents the
      one it was built with. */
  lemma {:induction false} OldTokenIsPresented(first: Token, second: Token, user: string, now: int)
    returns (s0: State, es: seq<Event>)
    requires first.expiry.Some? && first.expiry.value < now && second.expiry == Some(now) && second.access != ""
    requires first.refresh != second.refresh
    ensures Init(s0) && s0.row == Some(Row(user, first, 0)) && Run(s0, es).Some?
    ensures var t := Run(s0, es).value;
            1 in t.nodes && t.nodes[1].pc == MustRefresh(Row(user, second, 1))
            && Held(first.refresh, es, 1) == first.refresh != second.refresh
  {
    var more := [Tick(1), Call(1), Acquire(1), Reread(1)];
    s0, es := TwoNodes(first, user, now), FirstCall(second, user) + more;
    FirstCallRuns(first, second, user, now);
    RunJoin(s0, FirstCall(second, user), more);
    SecondCallRereads(Run(s0, FirstCall(second, user)).value, first, Row(user, second, 1), 1);
    assert forall i :: 0 <= i < |es| && es[i].Refresh? ==> es[i].n == 0;
  }
}
