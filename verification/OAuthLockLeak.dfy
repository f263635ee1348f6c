/** When the lock around a token refresh can still be freed, and what happens once an unlock has failed: the
    deferred Release of internal/oauth/token_source.go drops the answer of internal/db/advisory_lock.go. */
module OAuthLockLeak {
  import opened Options
  import opened OAuthProtocol

  /** The steps by which a node gets out of Token() from inside the lock. */
  function WayOut(n: NodeId, pc: Pc): seq<Event> {
    match pc
    case Idle => []
    case Waiting => []
    case Locked => [ReadFails(n), Release(n)]
    case MustRefresh(_) => [RefreshFails(n), Release(n)]
    case Refreshed(_, _) => [UserFails(n), Release(n)]
    case Identified(_, _) => [SaveFails(n), Release(n)]
    case Releasing => [Release(n)]
  }

  /** A run in which n does not crash. */
  ghost predicate Survives(es: seq<Event>, n: NodeId) {
    Crash(n) !in es
  }

  /** n's session has the lock, but n is no longer inside: its unlock has failed. */
  predicate Leaked(s: State, n: NodeId) {
    s.lock == Some(n) && n in s.nodes && !InsideLock(s.nodes[n].pc)
  }

  ghost predicate NobodyInside(s: State) {
    forall m :: m in s.nodes ==> !InsideLock(s.nodes[m].pc)
  }

  lemma LeakSurvivesStep(s: State, n: NodeId, e: Event)
    requires Leaked(s, n) && NobodyInside(s) && Next(s, e).Some? && e != Crash(n)
    ensures var t := Next(s, e).value;
            Leaked(t, n) && NobodyInside(t) && t.row == s.row && t.saves == s.saves
  {
  }

  /** A lock that has leaked stays leaked until its node crashes, whatever all nodes do; until then nobody
      gets inside, and the stored token is never refreshed again. */
  lemma {:induction false} LeakStays(s0: State, es: seq<Event>, n: NodeId, more: seq<Event>)
    requires Init(s0) && Run(s0, es).Some? && Leaked(Run(s0, es).value, n)
    requires Run(Run(s0, es).value, more).Some? && Survives(more, n)
    ensures var s, t := Run(s0, es).value, Run(Run(s0, es).value, more).value;
            Leaked(t, n) && NobodyInside(t) && t.row == s.row && t.saves == s.saves
  {
    InvHolds(s0, es);
    var s := Run(s0, es).value;
    if more == [] {
      assert NobodyInside(s);
    } else {
      var init, last := more[..|more| - 1], more[|more| - 1];
      assert forall e :: e in init ==> e in more;
      assert last in more;
      LeakStays(s0, es, n, init);
      LeakSurvivesStep(Run(s, init).value, n, last);
    }
  }

  lemma {:induction false} WayOutFrees(s: State, n: NodeId)
    requires s.lock == Some(n) && n in s.nodes && InsideLock(s.nodes[n].pc)
    ensures var out := WayOut(n, s.nodes[n].pc);
            Run(s, out).Some? && Run(s, out).value.lock.None? && Survives(out, n)
  {
    var out := WayOut(n, s.nodes[n].pc);
    assert Run(s, []) == Some(s);
    if |out| == 2 {
      assert out[..1] == [out[0]] && out[..1][..0] == [];
      assert Run(s, out[..1]) == Next(s, out[0]);
    } else {
      assert out[..0] == [];
    }
  }

  /** Some continuation without a crash of n frees the lock. */
  ghost predicate CanBeFreed(s: State, n: NodeId) {
    exists more :: Survives(more, n) && Run(s, more).Some? && Run(s, more).value.lock.None?
  }

  /** In every reachable state the lock can be freed without a crash of its holder if and only if the
      holder is inside the lock, that is, its unlock has not failed. From inside, wherever the holder is
      and whichever call before the unlock fails on it, two steps suffice. */
  lemma {:induction false} HolderCanReleaseWhen(s0: State, es: seq<Event>)
    requires Init(s0) && Run(s0, es).Some? && Run(s0, es).value.lock.Some?
    ensures var s := Run(s0, es).value;
            var n := s.lock.value;
            n in s.nodes && (CanBeFreed(s, n) <==> InsideLock(s.nodes[n].pc))
  {
    InvHolds(s0, es);
    var s := Run(s0, es).value;
    var n := s.lock.value;
    if InsideLock(s.nodes[n].pc) {
      WayOutFrees(s, n);
    } else if CanBeFreed(s, n) {
      var more :| Survives(more, n) && Run(s, more).Some? && Run(s, more).value.lock.None?;
      LeakStays(s0, es, n, more);
    }
  }

  /** The leak can happen: one node, an expired token of its own and a valid stored one, and an unlock
      that fails. */
  lemma {:induction false} LeakIsReachable(stored: Row, mine: Token, now: int) returns (s0: State, es: seq<Event>)
    requires Valid(stored.token, now) && !Valid(mine, now)
    ensures Init(s0) && s0.row == Some(stored) && Run(s0, es).Some? && Leaked(Run(s0, es).value, 0)
  {
    s0 := State(now, Some(stored), None, map[0 := Node(mine, Idle)], 0, 0);
    es := [Call(0), Acquire(0), Reread(0), ReleaseFails(0)];
    assert Run(s0, []) == Some(s0);
    var e1, e2, e3 := es[..1], es[..2], es[..3];
    assert e1[..0] == [] && e2[..1] == e1 && e3[..2] == e2;
    var s1 := At(s0, 0, mine, Waiting);
    var s2 := At(s1, 0, mine, Locked).(lock := Some(0));
    assert Run(s0, e1) == Some(s1);
    assert Run(s0, e2) == Some(s2);
    assert Run(s0, e3) == Some(At(s2, 0, stored.token, Releasing));
  }
}
