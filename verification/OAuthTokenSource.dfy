/** Token() as the code runs it, statement by statement, on the token source's own field and the shared
    row; every execution is one of the protocol's runs. */
module OAuthTokenSource {
  import opened Options
  import opened OAuthProtocol

  /** The outcomes of the calls Token() makes: lock creation and acquisition, the database read, the
      provider's refresh, the user lookup, the database write, and the unlock. */
  datatype Calls = Calls(locked: bool, read: bool, refreshed: Option<Token>, user: Option<string>, written: bool,
                         released: bool)

  datatype Result = Ok(token: Token) | Error

  /** What one call leaves behind: the source's own token, the stored row, whether it returns a token,
      and whether it wrote the row. */
  datatype Effect = Effect(tok: Token, row: Option<Row>, ok: bool, wrote: bool)

  /** The part of Token() that runs with the lock held. */
  function LockedEffect(tok: Token, row: Option<Row>, now: int, calls: Calls): Effect {
    if !calls.read || row.None? then Effect(tok, row, false, false)
    else if Valid(row.value.token, now) then Effect(row.value.token, row, true, false)
    else if calls.refreshed.None? || calls.user.None? then Effect(row.value.token, row, false, false)
    else if !calls.written then Effect(calls.refreshed.value, row, false, false)
    else
      match SaveToken(row, calls.refreshed.value, calls.user.value)
      case KeyClash => Effect(calls.refreshed.value, row, false, false)
      case Stored(r) => Effect(calls.refreshed.value, r, true, true)
  }

  /** With the lock held the caller gets a token: the stored one if it is valid, else a refreshed one, which has to
      be stored before it is returned. An empty token is stored by deleting the row, whoever's it is. */
  predicate Succeeds(row: Option<Row>, now: int, calls: Calls) {
    && calls.read && row.Some?
    && (Valid(row.value.token, now)
        || (calls.refreshed.Some? && calls.user.Some? && calls.written
            && (calls.user.value == row.value.userId
                || calls.refreshed.value.access == "" == calls.refreshed.value.refresh)))
  }

  /** The steps of the protocol from the database read to the last one under the lock. */
  function LockedTrace(n: NodeId, row: Option<Row>, now: int, calls: Calls): seq<Event> {
    if !calls.read then [ReadFails(n)]
    else if row.None? || Valid(row.value.token, now) then [Reread(n)]
    else if calls.refreshed.None? then [Reread(n), RefreshFails(n)]
    else if calls.user.None? then [Reread(n), Refresh(n, calls.refreshed.value), UserFails(n)]
    else [Reread(n), Refresh(n, calls.refreshed.value), GetUser(n, calls.user.value),
          if calls.written then Save(n) else SaveFails(n)]
  }

  function Unlock(n: NodeId, calls: Calls): Event {
    if calls.released then Release(n) else ReleaseFails(n)
  }

  /** The database: the token's row and the advisory lock. */
  class Database {
    var row: Option<Row>
    var lock: Option<NodeId>

    constructor (row: Option<Row>)
      ensures this.row == row && lock.None?
    {
      this.row, lock := row, None;
    }

    /** SaveOAuthToken. An empty token deletes the row, a first save starts at version 0, a later one by the
        same user raises the version by one, and another user's row is left alone, with an error. What is
        stored after a save is the token saved; the protocol's saves are these. */
    method Save(t: Token, userId: string) returns (ok: bool)
      modifies this`row
      ensures t.access == "" == t.refresh ==> ok && row == None
      ensures !(t.access == "" == t.refresh) && ok ==>
                row == Some(Row(userId, t, if old(row).None? then 0 else old(row).value.version + 1))
      ensures !ok ==> row == old(row)
      ensures !(t.access == "" == t.refresh) ==>
                (!ok <==> old(row).Some? && old(row).value.userId != userId)
      ensures SaveToken(old(row), t, userId) == if ok then Stored(row) else KeyClash
    {
      if t.access == "" && t.refresh == "" {
        row := None;
        return true;
      }
      if row.None? {
        row := Some(Row(userId, t, 0));
        return true;
      }
      if row.value.userId != userId { return false; }
      row := Some(Row(userId, t, row.value.version + 1));
      return true;
    }

    /** pg_advisory_lock: wait until nobody else holds the lock. Meanwhile other nodes may have run; `granted`
        is the row as they have left it. */
    method Lock(n: NodeId, granted: Option<Row>)
      modifies this
      ensures row == granted && lock == Some(n)
    {
      row, lock := granted, Some(n);
    }

    /** pg_advisory_unlock, which may fail. */
    method Unlock(released: bool)
      modifies this`lock
      ensures lock == if released then None else old(lock)
    {
      if released { lock := None; }
    }
  }

  class TokenSource {
    const id: NodeId
    var tok: Token

    constructor (id: NodeId, tok: Token)
      ensures this.id == id && this.tok == tok
    {
      this.id, this.tok := id, tok;
    }

    /** From the database read on, with the lock held. */
    method RefreshUnderLock(db: Database, now: int, calls: Calls) returns (r: Result)
      modifies this`tok, db`row
      ensures var e := LockedEffect(old(tok), old(db.row), now, calls);
              tok == e.tok && db.row == e.row && r == if e.ok then Ok(tok) else Error
      ensures r.Ok? <==> Succeeds(old(db.row), now, calls)
      ensures r.Ok? ==> if Valid(old(db.row).value.token, now) then r == Ok(old(db.row).value.token)
                        else Some(r.token) == calls.refreshed
    {
      if !calls.read || db.row.None? { return Error; }
      tok := db.row.value.token;
      if Valid(tok, now) { return Ok(tok); }
      if calls.refreshed.None? || calls.user.None? { return Error; }
      tok := calls.refreshed.value;
      if !calls.written { return Error; }
      var ok := db.Save(tok, calls.user.value);
      return if ok then Ok(tok) else Error;
    }

    /** The whole call. It may have to wait for the lock: `granted` and `later` are the stored row and the
        time when it gets it. The caller gets its own token while that is valid, otherwise the stored one,
        and a refreshed one only when the stored token has expired and the refreshed one has been stored. The
        lock is free at the end, however the call ends, unless the unlock fails. */
    method Token(db: Database, now: int, granted: Option<Row>, later: int, calls: Calls) returns (r: Result)
      modifies this`tok, db
      ensures old(Valid(tok, now)) ==> r == Ok(old(tok))
      ensures old(Valid(tok, now)) || !calls.locked ==>
                tok == old(tok) && db.row == old(db.row) && db.lock == old(db.lock)
      ensures !old(Valid(tok, now)) && !calls.locked ==> r == Error
      ensures !old(Valid(tok, now)) && calls.locked ==>
                && (var e := LockedEffect(old(tok), granted, later, calls);
                    tok == e.tok && db.row == e.row && r == if e.ok then Ok(tok) else Error)
                && db.lock == (if calls.released then None else Some(id))
      ensures r.Ok? <==> old(Valid(tok, now)) || (calls.locked && Succeeds(granted, later, calls))
      ensures !old(Valid(tok, now)) && calls.locked && calls.read && granted.Some? && !Stale(granted, later) ==>
                r == Ok(granted.value.token)
      ensures !old(Valid(tok, now)) && r.Ok? ==>
                if Stale(granted, later) then
                  && calls.refreshed == Some(r.token) && calls.user.Some?
                  && SaveToken(granted, r.token, calls.user.value) == Stored(db.row)
                else db.row == granted && r.token == granted.value.token
      ensures !old(Valid(tok, now)) && calls.locked && r.Error? ==> db.row == granted
    {
      if Valid(tok, now) { return Ok(tok); }
      if !calls.locked { return Error; }
      db.Lock(id, granted);
      r := RefreshUnderLock(db, later, calls);
      db.Unlock(calls.released);
    }
  }

  /** s after a call by n with effect e, n being at pc: nothing else has changed. */
  function Ended(s: State, n: NodeId, e: Effect, pc: Pc): State {
    var t := At(s, n, e.tok, pc);
    if e.wrote then Settle(t, s.clock, e.row, true) else t
  }

  lemma {:induction false} Extend(s: State, es: seq<Event>, e: Event)
    requires Run(s, es).Some?
    ensures Run(s, es + [e]) == Next(Run(s, es).value, e)
  {
    assert (es + [e])[..|es|] == es;
  }

  /** A run can be cut after its first step. */
  lemma {:induction false} RunFirst(s: State, e: Event, es: seq<Event>)
    requires Next(s, e).Some?
    ensures Run(s, [e] + es) == Run(Next(s, e).value, es)
  {
    if es == [] {
      assert ([e] + es)[..0] == [];
      assert [e] + es == [e];
    } else {
      RunFirst(s, e, es[..|es| - 1]);
      assert ([e] + es)[..|es|] == [e] + es[..|es| - 1];
    }
  }

  lemma Overwrite(s: State, n: NodeId, a: Token, p: Pc, b: Token, q: Pc)
    ensures At(At(s, n, a, p), n, b, q) == At(s, n, b, q)
  {
    assert s.nodes[n := Node(a, p)][n := Node(b, q)] == s.nodes[n := Node(b, q)];
  }

  lemma {:induction false} RunOne(s: State, e: Event)
    ensures Run(s, [e]) == Next(s, e)
  {
    assert [e][..0] == [];
  }

  lemma {:induction false} RunThree(s: State, e: Event, f: Event, g: Event)
    requires Next(s, e).Some? && Next(Next(s, e).value, f).Some?
    ensures Run(s, [e, f, g]) == Next(Next(Next(s, e).value, f).value, g)
  {
    var s1 := Next(s, e).value;
    RunFirst(s, e, [f, g]);
    RunFirst(s1, f, [g]);
    RunOne(Next(s1, f).value, g);
    assert [e] + [f, g] == [e, f, g] && [f] + [g] == [f, g];
  }

  /** The write, or its failure, is the last step under the lock. */
  lemma WriteStep(s: State, n: NodeId, tok: Token, seen: Row, calls: Calls)
    requires n in s.nodes && s.row == Some(seen) && calls.read && !Valid(seen.token, s.clock)
    requires calls.refreshed.Some? && calls.user.Some?
    ensures var s2 := At(s, n, calls.refreshed.value, Identified(seen, calls.user.value));
            Next(s2, if calls.written then Save(n) else SaveFails(n))
            == Some(Ended(s, n, LockedEffect(tok, s.row, s.clock, calls), Releasing))
  {
    var issued, user := calls.refreshed.value, calls.user.value;
    Overwrite(s, n, issued, Identified(seen, user), issued, Releasing);
  }

  /** The steps from the refresh on. */
  lemma {:induction false} RefreshIsARun(s: State, n: NodeId, tok: Token, seen: Row, calls: Calls)
    requires n in s.nodes && s.nodes[n] == Node(tok, MustRefresh(seen)) && s.row == Some(seen)
    requires calls.refreshed.Some? && calls.user.Some? && tok == seen.token && !Valid(tok, s.clock) && calls.read
    ensures Run(s, LockedTrace(n, s.row, s.clock, calls)[1..])
            == Some(Ended(s, n, LockedEffect(tok, s.row, s.clock, calls), Releasing))
  {
    var issued, user := calls.refreshed.value, calls.user.value;
    var last := if calls.written then Save(n) else SaveFails(n);
    Overwrite(s, n, tok, Refreshed(seen, issued), issued, Identified(seen, user));
    RunThree(s, Refresh(n, issued), GetUser(n, user), last);
    WriteStep(s, n, tok, seen, calls);
    assert LockedTrace(n, s.row, s.clock, calls)[1..] == [Refresh(n, issued), GetUser(n, user), last];
  }

  /** The same when the refresh or the user lookup fails. */
  lemma {:induction false} FailedRefreshIsARun(s: State, n: NodeId, tok: Token, seen: Row, calls: Calls)
    requires n in s.nodes && s.nodes[n] == Node(tok, MustRefresh(seen)) && s.row == Some(seen)
    requires (calls.refreshed.None? || calls.user.None?) && tok == seen.token && !Valid(tok, s.clock) && calls.read
    ensures Run(s, LockedTrace(n, s.row, s.clock, calls)[1..]) == Some(At(s, n, tok, Releasing))
  {
    var rest := LockedTrace(n, s.row, s.clock, calls)[1..];
    if calls.refreshed.None? {
      RunOne(s, RefreshFails(n));
      assert rest == [RefreshFails(n)];
    } else {
      var issued := calls.refreshed.value;
      RunFirst(s, Refresh(n, issued), [UserFails(n)]);
      RunOne(At(s, n, tok, Refreshed(seen, issued)), UserFails(n));
      Overwrite(s, n, tok, Refreshed(seen, issued), tok, Releasing);
      assert rest == [Refresh(n, issued)] + [UserFails(n)];
    }
  }

  lemma {:induction false} LockedIsARun(s: State, n: NodeId, tok: Token, calls: Calls)
    requires n in s.nodes && s.nodes[n] == Node(tok, Locked)
    ensures Run(s, LockedTrace(n, s.row, s.clock, calls))
            == Some(Ended(s, n, LockedEffect(tok, s.row, s.clock, calls), Releasing))
  {
    var es := LockedTrace(n, s.row, s.clock, calls);
    RunFirst(s, es[0], es[1..]);
    assert [es[0]] + es[1..] == es;
    if calls.read && s.row.Some? && !Valid(s.row.value.token, s.clock) {
      StaleIsARun(s, n, tok, calls);
    } else {
      assert es[1..] == [];
    }
  }

  lemma {:induction false} StaleIsARun(s: State, n: NodeId, tok: Token, calls: Calls)
    requires n in s.nodes && s.row.Some? && calls.read && !Valid(s.row.value.token, s.clock)
    ensures Run(At(s, n, s.row.value.token, MustRefresh(s.row.value)), LockedTrace(n, s.row, s.clock, calls)[1..])
            == Some(Ended(s, n, LockedEffect(tok, s.row, s.clock, calls), Releasing))
  {
    var seen := s.row.value;
    var s1 := At(s, n, seen.token, MustRefresh(seen));
    if calls.refreshed.None? || calls.user.None? {
      FailedRefreshIsARun(s1, n, seen.token, seen, calls);
      Overwrite(s, n, seen.token, MustRefresh(seen), seen.token, Releasing);
    } else {
      RefreshIsARun(s1, n, seen.token, seen, calls);
      Overwrite(s, n, seen.token, MustRefresh(seen), calls.refreshed.value, Releasing);
    }
  }

  /** t after node n, which waits for the free lock, has got it, done its part and unlocked. */
  function Done(t: State, n: NodeId, tok: Token, calls: Calls): State {
    Ended(t, n, LockedEffect(tok, t.row, t.clock, calls), Idle).(lock := if calls.released then None else Some(n))
  }

  lemma LockedPartEnds(t: State, n: NodeId, tok: Token, calls: Calls)
    requires n in t.nodes && t.nodes[n] == Node(tok, Waiting) && t.lock.None?
    ensures var t2 := At(t, n, tok, Locked).(lock := Some(n));
            var e := LockedEffect(tok, t.row, t.clock, calls);
            Next(Ended(t2, n, e, Releasing), Unlock(n, calls)) == Some(Done(t, n, tok, calls))
  {
    var e := LockedEffect(tok, t.row, t.clock, calls);
    Overwrite(t, n, tok, Locked, e.tok, Releasing);
    Overwrite(t, n, e.tok, Releasing, e.tok, Idle);
  }

  /** From the moment the lock is free for a waiting node. */
  lemma {:induction false} GrantedIsARun(t: State, n: NodeId, tok: Token, calls: Calls)
    requires n in t.nodes && t.nodes[n] == Node(tok, Waiting) && t.lock.None?
    ensures Run(t, [Acquire(n)] + (LockedTrace(n, t.row, t.clock, calls) + [Unlock(n, calls)]))
            == Some(Done(t, n, tok, calls))
  {
    var inner := LockedTrace(n, t.row, t.clock, calls);
    var t2 := At(t, n, tok, Locked).(lock := Some(n));
    RunFirst(t, Acquire(n), inner + [Unlock(n, calls)]);
    LockedIsARun(t2, n, tok, calls);
    Extend(t2, inner, Unlock(n, calls));
    LockedPartEnds(t, n, tok, calls);
  }

  lemma {:induction false} RunJoin(s: State, es: seq<Event>, more: seq<Event>)
    requires Run(s, es).Some?
    ensures Run(s, es + more) == Run(Run(s, es).value, more)
  {
    if more == [] {
      assert es + more == es;
    } else {
      RunJoin(s, es, more[..|more| - 1]);
      assert (es + more)[..|es + more| - 1] == es + more[..|more| - 1];
    }
  }

  /** Every call is part of a run of the protocol: while it waits for the lock the other nodes take any
      steps, and from the grant on it has exactly the effect the imperative Token() has on the row and the
      time it finds, and on the lock. */
  lemma {:induction false} CallIsARun(s: State, n: NodeId, others: seq<Event>, calls: Calls)
    requires n in s.nodes && s.nodes[n].pc.Idle? && !Valid(s.nodes[n].tok, s.clock)
    requires Run(s, [Call(n)] + others).Some?
    requires var t := Run(s, [Call(n)] + others).value;
             t.lock.None? && n in t.nodes && t.nodes[n] == Node(s.nodes[n].tok, Waiting)
    ensures var t := Run(s, [Call(n)] + others).value;
            Run(s, [Call(n)] + others + ([Acquire(n)] + (LockedTrace(n, t.row, t.clock, calls) + [Unlock(n, calls)])))
            == Some(Done(t, n, s.nodes[n].tok, calls))
  {
    var t := Run(s, [Call(n)] + others).value;
    GrantedIsARun(t, n, s.nodes[n].tok, calls);
    RunJoin(s, [Call(n)] + others, [Acquire(n)] + (LockedTrace(n, t.row, t.clock, calls) + [Unlock(n, calls)]));
  }

  /** The calls that do not get that far leave everything as it was. */
  lemma {:induction false} ShortCallIsARun(s: State, n: NodeId)
    requires n in s.nodes && s.nodes[n].pc.Idle?
    ensures Run(s, if Valid(s.nodes[n].tok, s.clock) then [Call(n)] else [Call(n), LockFails(n)]) == Some(s)
  {
    var tok := s.nodes[n].tok;
    RunOne(s, Call(n));
    assert s.nodes[n := s.nodes[n]] == s.nodes;
    if !Valid(tok, s.clock) {
      Overwrite(s, n, tok, Waiting, tok, Idle);
      Extend(s, [Call(n)], LockFails(n));
      assert [Call(n)] + [LockFails(n)] == [Call(n), LockFails(n)];
    }
  }
}
