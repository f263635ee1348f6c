/** The Postgres advisory lock object of internal/db/advisory_lock.go over a session-level lock, which the
    database counts: as many unlocks as locks free it (section 13.3.5 of the PostgreSQL documentation). */
module AdvisoryLock {
  /** The object's count and open transaction, the depth its session holds in the database's lock
      table, and how often commit handed the connection back: in all, and while the lock was held. */
  datatype Session = Session(count: nat, depth: nat, open: bool, commits: nat, leaks: nat)

  const NEW_SESSION := Session(0, 0, true, 0, 0)

  datatype Reply = Yes | No | Panicked

  /** What the outside contributes to an operation: whether a statement fails (one flag a statement),
      whether another session holds the lock, and whether a commit fails. */
  datatype Op =
    | Acquire(fails: bool)
    | TryAcquire(fails: bool, busy: bool)
    | Release(fails: bool, commitFails: bool)
    | ReleaseAll(failing: nat -> bool, commitFails: bool)

  function Commit(s: Session, fails: bool): Session {
    if !s.open || fails then s
    else s.(open := false, commits := s.commits + 1, leaks := if s.depth > 0 then s.leaks + 1 else s.leaks)
  }

  /** A statement on a transaction that has been handed back dereferences nil. */
  function AfterLock(s: Session, fails: bool, granted: bool): (Session, Reply) {
    if !s.open then (s, Panicked)
    else if fails || !granted then (s, No)
    else (s.(count := s.count + 1, depth := s.depth + 1), Yes)
  }

  function AfterRelease(s: Session, fails: bool, commitFails: bool): (Session, Reply) {
    if s.count == 0 then (Commit(s, commitFails), No)
    else if !s.open then (s, Panicked)
    else if fails || s.depth == 0 then (s, No)
    else
      var t := s.(count := s.count - 1, depth := s.depth - 1);
      (if t.count == 0 then Commit(t, commitFails) else t, Yes)
  }

  /** At most `left` further releases, the i-th of which fails when failing(i); stop at the first that
      does not succeed. */
  function Releases(s: Session, i: nat, left: nat, failing: nat -> bool, commitFails: bool): (Session, Reply)
    decreases left
  {
    if left == 0 then (s, Yes)
    else
      var (t, r) := AfterRelease(s, failing(i), commitFails);
      if r == Yes then Releases(t, i + 1, left - 1, failing, commitFails) else (t, r)
  }

  function AfterReleaseAll(s: Session, failing: nat -> bool, commitFails: bool): (Session, Reply) {
    if s.count == 0 then (Commit(s, commitFails), No)
    else
      var (t, r) := Releases(s, 0, s.count, failing, commitFails);
      (t, if r == Panicked then r else if t.count == 0 then Yes else No)
  }

  function Step(s: Session, op: Op): (Session, Reply) {
    match op
    case Acquire(fails) => AfterLock(s, fails, true)
    case TryAcquire(fails, busy) => AfterLock(s, fails, !busy)
    case Release(fails, commitFails) => AfterRelease(s, fails, commitFails)
    case ReleaseAll(failing, commitFails) => AfterReleaseAll(s, failing, commitFails)
  }

  function Steps(s: Session, ops: seq<Op>): Session
    decreases |ops|
  {
    if ops == [] then s else Steps(Step(s, ops[0]).0, ops[1..])
  }

  /** The object and the database agree; the connection goes back once, and never with the lock. */
  predicate Balanced(s: Session) {
    && s.count == s.depth
    && s.leaks == 0 && s.commits == (if s.open then 0 else 1)
    && (!s.open ==> s.count == 0)
  }

  /** What one round of releases does: the depth drops by the number of leading successes, and it
      reaches 0, with one commit attempt, exactly when none of them fails. */
  lemma {:induction false} ReleasesEffect(s: Session, i: nat, left: nat, failing: nat -> bool, commitFails: bool)
    requires Balanced(s) && left <= s.count
    ensures var (t, r) := Releases(s, i, left, failing, commitFails);
            && Balanced(t) && r != Panicked && s.count - left <= t.count
            && (r == Yes <==> forall j :: i <= j < i + left ==> !failing(j))
            && (r == Yes ==> t.count == s.count - left)
            && (r != Yes ==> t.count > s.count - left)
            && (t.count > 0 ==> t.open == s.open && t.commits == s.commits)
            && (t.count == 0 && s.count > 0 ==> t.open == commitFails)
    decreases left
  {
    if left > 0 {
      var (t, r) := AfterRelease(s, failing(i), commitFails);
      if r == Yes {
        ReleasesEffect(t, i + 1, left - 1, failing, commitFails);
      } else {
        assert failing(i);
      }
    }
  }

  lemma StepKeepsBalance(s: Session, op: Op)
    requires Balanced(s)
    ensures Balanced(Step(s, op).0)
  {
    if op.ReleaseAll? && s.count > 0 {
      ReleasesEffect(s, 0, s.count, op.failing, op.commitFails);
    }
  }

  /** After every sequence of operations, with failures anywhere: the count is the depth held in the
      database, and the connection has been handed back at most once and never while holding the lock. */
  lemma {:induction false} AlwaysBalanced(s: Session, ops: seq<Op>)
    requires Balanced(s)
    ensures Balanced(Steps(s, ops))
    decreases |ops|
  {
    if ops != [] {
      StepKeepsBalance(s, ops[0]);
      AlwaysBalanced(Step(s, ops[0]).0, ops[1..]);
    }
  }

  /** ReleaseAll from depth n > 0 answers yes exactly when it ends at depth 0, which is exactly when
      none of its n unlocks fails; the transaction is then handed to commit, once. */
  lemma ReleaseAllEffect(s: Session, failing: nat -> bool, commitFails: bool)
    requires Balanced(s) && s.count > 0
    ensures var (t, r) := AfterReleaseAll(s, failing, commitFails);
            && (r == Yes <==> t.depth == 0)
            && (r == Yes <==> forall j :: 0 <= j < s.depth ==> !failing(j))
            && r != Panicked
            && t.commits == (if r == Yes && !commitFails then s.commits + 1 else s.commits)
  {
    ReleasesEffect(s, 0, s.count, failing, commitFails);
  }

  // ---------- several sessions ----------

  /** An operation on one of the lock objects of a name, each of which has a session of its own. */
  datatype Event = Event(i: nat, op: Op)

  /** Some other session holds the lock. */
  predicate Busy(ss: seq<Session>, i: nat) {
    exists j :: 0 <= j < |ss| && j != i && ss[j].depth > 0
  }

  /** pg_try_advisory_lock finds the lock busy when it is; pg_advisory_lock does not return before it is free. */
  predicate CanHappen(ss: seq<Session>, e: Event) {
    && e.i < |ss|
    && (e.op.TryAcquire? ==> e.op.busy == Busy(ss, e.i))
    && (e.op.Acquire? && !e.op.fails ==> !Busy(ss, e.i))
  }

  ghost predicate Runs(ss: seq<Session>, es: seq<Event>, ts: seq<Session>)
    decreases |es|
  {
    if es == [] then ts == ss
    else CanHappen(ss, es[0]) && Runs(ss[es[0].i := Step(ss[es[0].i], es[0].op).0], es[1..], ts)
  }

  ghost predicate OneHolder(ss: seq<Session>) {
    && (forall i :: 0 <= i < |ss| ==> Balanced(ss[i]))
    && (forall i, j :: 0 <= i < j < |ss| ==> ss[i].depth == 0 || ss[j].depth == 0)
  }

  /** An operation gives a session the lock only when it answers yes, and then no other session has it. */
  lemma TakesFreeLock(ss: seq<Session>, e: Event)
    requires OneHolder(ss) && CanHappen(ss, e) && Step(ss[e.i], e.op).0.depth > ss[e.i].depth
    ensures Step(ss[e.i], e.op).1 == Yes && !Busy(ss, e.i)
  {
    if e.op.ReleaseAll? && ss[e.i].count > 0 {
      ReleasesEffect(ss[e.i], 0, ss[e.i].count, e.op.failing, e.op.commitFails);
      ReleasesLower(ss[e.i], 0, ss[e.i].count, e.op.failing, e.op.commitFails);
    }
  }

  lemma {:induction false} ReleasesLower(s: Session, i: nat, left: nat, failing: nat -> bool, commitFails: bool)
    ensures Releases(s, i, left, failing, commitFails).0.depth <= s.depth
    decreases left
  {
    if left > 0 {
      var (t, r) := AfterRelease(s, failing(i), commitFails);
      if r == Yes { ReleasesLower(t, i + 1, left - 1, failing, commitFails); }
    }
  }

  /** Over every run of any number of lock objects on one name, with failures anywhere, at most one session holds
      the lock. */
  lemma {:induction false} AtMostOneHolder(ss: seq<Session>, es: seq<Event>, ts: seq<Session>)
    requires OneHolder(ss) && Runs(ss, es, ts)
    ensures OneHolder(ts)
    decreases |es|
  {
    if es != [] {
      var e := es[0];
      var t := Step(ss[e.i], e.op).0;
      var us := ss[e.i := t];
      StepKeepsBalance(ss[e.i], e.op);
      if t.depth > ss[e.i].depth { TakesFreeLock(ss, e); }
      assert OneHolder(us);
      AtMostOneHolder(us, es[1..], ts);
    }
  }

  class PostgresAdvisoryLock {
    var count: nat
    var open: bool
    /** The database's side: depth held by this session, and the effect of commits. */
    var depth: nat
    ghost var commits: nat
    ghost var leaks: nat

    ghost function View(): Session
      reads this
    {
      Session(count, depth, open, commits, leaks)
    }

    constructor ()
      ensures View() == NEW_SESSION && Balanced(View())
    {
      count, depth, open, commits, leaks := 0, 0, true, 0, 0;
    }

    method DoCommit(fails: bool)
      modifies this`open, this`commits, this`leaks
      ensures View() == Commit(old(View()), fails)
      ensures open == (old(open) && fails) && count == old(count) && depth == old(depth)
      ensures commits == old(commits) + (if old(open) && !fails then 1 else 0)
      ensures leaks == old(leaks) + (if old(open) && !fails && depth > 0 then 1 else 0)
    {
      if !open || fails { return; }
      leaks := if depth > 0 then leaks + 1 else leaks;
      commits := commits + 1;
      open := false;
    }

    method Acquire(fails: bool) returns (r: Reply)
      modifies this`count, this`depth
      ensures (View(), r) == AfterLock(old(View()), fails, true)
      ensures r == Yes <==> old(open) && !fails
      ensures old(Balanced(View())) ==> Balanced(View())
      ensures count == old(count) + (if r == Yes then 1 else 0) && depth == old(depth) + (if r == Yes then 1 else 0)
    {
      if !open { return Panicked; }
      if fails { return No; }
      depth := depth + 1;
      count := count + 1;
      return Yes;
    }

    method TryAcquire(fails: bool, busy: bool) returns (r: Reply)
      modifies this`count, this`depth
      ensures (View(), r) == AfterLock(old(View()), fails, !busy)
      ensures r == Yes <==> old(open) && !fails && !busy
      ensures r == Panicked <==> !old(open)
      ensures old(Balanced(View())) ==> Balanced(View())
      ensures count == old(count) + (if r == Yes then 1 else 0) && depth == old(depth) + (if r == Yes then 1 else 0)
    {
      if !open { return Panicked; }
      if fails || busy { return No; }
      depth := depth + 1;
      count := count + 1;
      return Yes;
    }

    method Release(fails: bool, commitFails: bool) returns (r: Reply)
      modifies this
      ensures (View(), r) == AfterRelease(old(View()), fails, commitFails)
      ensures old(Balanced(View())) ==> Balanced(View())
      ensures count == old(count) - (if r == Yes then 1 else 0) && depth == old(depth) - (if r == Yes then 1 else 0)
      ensures r == Yes <==> old(count) > 0 && old(open) && !fails && old(depth) > 0
      ensures r == Panicked <==> old(count) > 0 && !old(open)
      ensures open == (old(open) && (commitFails || count > 0 || (r == No && old(count) > 0)))
    {
      if count == 0 {
        DoCommit(commitFails);
        return No;
      }
      if !open { return Panicked; }
      var released := depth > 0;
      if fails || !released { return No; }
      depth := depth - 1;
      count := count - 1;
      if count == 0 { DoCommit(commitFails); }
      return Yes;
    }

    method ReleaseAll(failing: nat -> bool, commitFails: bool) returns (r: Reply)
      modifies this
      ensures (View(), r) == AfterReleaseAll(old(View()), failing, commitFails)
      ensures old(Balanced(View())) ==> Balanced(View())
      ensures old(Balanced(View())) && old(count) > 0 ==>
                (r == Yes <==> depth == 0) && (r == Yes <==> forall j :: 0 <= j < old(depth) ==> !failing(j))
      ensures old(count) == 0 ==> r == No && open == (old(open) && commitFails) && count == 0 && depth == old(depth)
      ensures r == Panicked ==> !open
    {
      if Balanced(View()) {
        StepKeepsBalance(View(), Op.ReleaseAll(failing, commitFails));
        if count > 0 { ReleaseAllEffect(View(), failing, commitFails); }
      }
      if count == 0 {
        DoCommit(commitFails);
        return No;
      }
      var n, i := count, 0;
      ghost var goal := Releases(View(), 0, n, failing, commitFails);
      var released := Yes;
      while i < n
        invariant 0 <= i <= n && released == Yes
        invariant goal == Releases(View(), i, n - i, failing, commitFails)
      {
        released := Release(failing(i), commitFails);
        if released == Panicked { return Panicked; }
        if released != Yes { break; }
        i := i + 1;
      }
      return if count != 0 then No else Yes;
    }
  }
}
