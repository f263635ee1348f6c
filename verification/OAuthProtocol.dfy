/** Token refresh by any number of nodes over one stored row: dbTokenSource.Token of
    internal/oauth/token_source.go as a protocol whose steps interleave, with the Postgres advisory
    lock (section 13.3.5 of the PostgreSQL documentation) around re-read, refresh (section 6 of
    RFC 6749) and save. */
module OAuthProtocol {
  import opened Options

  type NodeId = nat

  /** expiry is the last instant at which the token counts as unexpired; None never expires. */
  datatype Token = Token(access: string, refresh: string, expiry: Option<int>)

  predicate Valid(t: Token, now: int) {
    t.access != "" && (t.expiry.None? || now <= t.expiry.value)
  }

  datatype Row = Row(userId: string, token: Token, version: nat)

  datatype Saved = Stored(row: Option<Row>) | KeyClash

  /** SaveOAuthToken for the token's id: a token without access and refresh part deletes the row; the
      upsert conflicts on (provider, user) and raises the version, and inserting a second user under
      the same primary key fails. A fresh row has version 0, which is what FromToken leaves it at. */
  function SaveToken(row: Option<Row>, t: Token, userId: string): Saved {
    if t.access == "" && t.refresh == "" then Stored(None)
    else match row
      case None => Stored(Some(Row(userId, t, 0)))
      case Some(r) => if r.userId == userId then Stored(Some(Row(userId, t, r.version + 1))) else KeyClash
  }

  /** Where a node is inside Token(). `seen` is the row of the stale re-read. */
  datatype Pc =
    | Idle
    | Waiting
    | Locked
    | MustRefresh(seen: Row)
    | Refreshed(seen: Row, issued: Token)
    | Identified(seen: Row, userId: string)
    | Releasing

  datatype Node = Node(tok: Token, pc: Pc)

  /** The stored row, the lock's holder, the nodes, and two counts kept for the statements below:
      rows saved, and times the stored token was or became expired. */
  datatype State = State(clock: int, row: Option<Row>, lock: Option<NodeId>, nodes: map<NodeId, Node>,
                         saves: nat, expiries: nat)

  datatype Event =
    | Tick(seconds: nat)
    | Call(n: NodeId)
    | LockFails(n: NodeId)
    | Acquire(n: NodeId)
    | ReadFails(n: NodeId)
    | Reread(n: NodeId)
    | RefreshFails(n: NodeId)
    | Refresh(n: NodeId, issued: Token)
    | UserFails(n: NodeId)
    | GetUser(n: NodeId, userId: string)
    | SaveFails(n: NodeId)
    | Save(n: NodeId)
    | Release(n: NodeId)
    | ReleaseFails(n: NodeId)
    | Crash(n: NodeId)

  predicate Stale(row: Option<Row>, now: int) {
    row.None? || !Valid(row.value.token, now)
  }

  /** The row or the clock changed: count an expiry when the stored token has just stopped being valid. */
  function Settle(s: State, clock: int, row: Option<Row>, stored: bool): State {
    var expired := row.Some? && Stale(row, clock) && (stored || !Stale(s.row, s.clock));
    s.(clock := clock, row := row,
       saves := if stored && row.Some? then s.saves + 1 else s.saves,
       expiries := if expired then s.expiries + 1 else s.expiries)
  }

  function At(s: State, n: NodeId, tok: Token, pc: Pc): State {
    s.(nodes := s.nodes[n := Node(tok, pc)])
  }

  function Leave(s: State, n: NodeId): Option<NodeId> {
    if s.lock == Some(n) then None else s.lock
  }

  function DoReread(s: State, n: NodeId, me: Node): State {
    match s.row
    case None => At(s, n, me.tok, Releasing)
    case Some(r) => At(s, n, r.token, if Valid(r.token, s.clock) then Releasing else MustRefresh(r))
  }

  function DoSave(s: State, n: NodeId, me: Node, userId: string): State {
    var out := At(s, n, me.tok, Releasing);
    match SaveToken(s.row, me.tok, userId)
    case KeyClash => out
    case Stored(row) => Settle(out, s.clock, row, true)
  }

  /** A step of node n, which is `me`. Failing calls have no effect of their own: a node whose unlock fails
      leaves Token() all the same, and its database session keeps the lock. A later call of the same node
      uses another session. A node that crashes takes its sessions, and with them the lock, along. */
  function NodeStep(s: State, n: NodeId, me: Node, e: Event): Option<State> {
    match e
    case Call(_) =>
      if !me.pc.Idle? then None else Some(if Valid(me.tok, s.clock) then s else At(s, n, me.tok, Waiting))
    case LockFails(_) => if me.pc.Waiting? then Some(At(s, n, me.tok, Idle)) else None
    case Acquire(_) =>
      if me.pc.Waiting? && s.lock.None? then Some(At(s, n, me.tok, Locked).(lock := Some(n))) else None
    case ReadFails(_) => if me.pc.Locked? then Some(At(s, n, me.tok, Releasing)) else None
    case Reread(_) => if me.pc.Locked? then Some(DoReread(s, n, me)) else None
    case RefreshFails(_) => if me.pc.MustRefresh? then Some(At(s, n, me.tok, Releasing)) else None
    case Refresh(_, issued) =>
      if me.pc.MustRefresh? then Some(At(s, n, me.tok, Refreshed(me.pc.seen, issued))) else None
    case UserFails(_) => if me.pc.Refreshed? then Some(At(s, n, me.tok, Releasing)) else None
    case GetUser(_, userId) =>
      if me.pc.Refreshed? then Some(At(s, n, me.pc.issued, Identified(me.pc.seen, userId))) else None
    case SaveFails(_) => if me.pc.Identified? then Some(At(s, n, me.tok, Releasing)) else None
    case Save(_) => if me.pc.Identified? then Some(DoSave(s, n, me, me.pc.userId)) else None
    case Release(_) => if me.pc.Releasing? then Some(At(s, n, me.tok, Idle).(lock := Leave(s, n))) else None
    case ReleaseFails(_) => if me.pc.Releasing? then Some(At(s, n, me.tok, Idle)) else None
    case Crash(_) => Some(s.(nodes := s.nodes - {n}, lock := Leave(s, n)))
    case Tick(_) => None
  }

  /** One step of the system, or None when the step is not possible in s. */
  function Next(s: State, e: Event): Option<State> {
    if e.Tick? then Some(Settle(s, s.clock + e.seconds, s.row, false))
    else if e.n in s.nodes then NodeStep(s, e.n, s.nodes[e.n], e)
    else None
  }

  /** All the states a sequence of steps goes through, ending in the last one; None if a step is impossible. */
  function Run(s: State, es: seq<Event>): Option<State> {
    if es == [] then Some(s)
    else match Run(s, es[..|es| - 1])
      case None => None
      case Some(t) => Next(t, es[|es| - 1])
  }

  /** Start: nodes hold whatever tokens they like and are outside Token(); nobody has the lock. */
  predicate Init(s: State) {
    && s.lock.None? && s.saves == 0
    && s.expiries == (if s.row.Some? && Stale(s.row, s.clock) then 1 else 0)
    && (forall n :: n in s.nodes ==> s.nodes[n].pc.Idle?)
  }

  predicate InsideLock(pc: Pc) {
    !pc.Idle? && !pc.Waiting?
  }

  /** Between its stale re-read and its save. */
  predicate Refreshing(pc: Pc) {
    pc.MustRefresh? || pc.Refreshed? || pc.Identified?
  }

  ghost predicate Inv(s0: State, s: State) {
    && (forall n :: n in s.nodes && InsideLock(s.nodes[n].pc) ==> s.lock == Some(n))
    && (s.lock.Some? ==> s.lock.value in s.nodes)
    && (forall n :: n in s.nodes && Refreshing(s.nodes[n].pc) ==>
          s.row == Some(s.nodes[n].pc.seen) && Stale(s.row, s.clock))
    && (s.row.Some? ==> s0.row.Some? && s.row.value.version == s0.row.value.version + s.saves)
    && (s0.row.Some? ==> s.expiries == s.saves + (if Stale(s.row, s.clock) then 1 else 0))
    && (s0.row.None? ==> s.saves == s.expiries == 0)
  }

  lemma TickKeepsInv(s0: State, s: State, seconds: nat)
    requires Inv(s0, s)
    ensures Inv(s0, Next(s, Tick(seconds)).value)
  {
  }

  /** The steps that change neither the row nor the holder of the lock. */
  lemma QuietStepKeepsInv(s0: State, s: State, e: Event)
    requires Inv(s0, s) && Next(s, e).Some?
    requires !e.Tick? && !e.Acquire? && !e.Save? && !e.Release? && !e.Crash?
    ensures Inv(s0, Next(s, e).value)
  {
  }

  lemma LockStepKeepsInv(s0: State, s: State, e: Event)
    requires Inv(s0, s) && Next(s, e).Some?
    requires e.Acquire? || e.Release? || e.Crash?
    ensures Inv(s0, Next(s, e).value)
  {
  }

  lemma SaveKeepsInv(s0: State, s: State, n: NodeId)
    requires Inv(s0, s) && Next(s, Save(n)).Some?
    ensures Inv(s0, Next(s, Save(n)).value)
  {
  }

  /** Every state of every run, whatever the nodes, the interleaving and the failures. */
  lemma {:induction false} InvHolds(s0: State, es: seq<Event>)
    requires Init(s0) && Run(s0, es).Some?
    ensures Inv(s0, Run(s0, es).value)
  {
    if es != [] {
      var s, e := Run(s0, es[..|es| - 1]).value, es[|es| - 1];
      InvHolds(s0, es[..|es| - 1]);
      if e.Tick? {
        TickKeepsInv(s0, s, e.seconds);
      } else if e.Save? {
        SaveKeepsInv(s0, s, e.n);
      } else if e.Acquire? || e.Release? || e.Crash? {
        LockStepKeepsInv(s0, s, e);
      } else {
        QuietStepKeepsInv(s0, s, e);
      }
    }
  }

  /** At most one node at a time is between its stale re-read and its save. */
  lemma {:induction false} OneRefresher(s0: State, es: seq<Event>, n: NodeId, m: NodeId)
    requires Init(s0) && Run(s0, es).Some?
    ensures var s := Run(s0, es).value;
            n in s.nodes && m in s.nodes && Refreshing(s.nodes[n].pc) && Refreshing(s.nodes[m].pc) ==> n == m
  {
    InvHolds(s0, es);
  }

  /** A save never overwrites a valid token, nor one stored after the saver's re-read: the row it
      replaces is the very row it re-read, still expired. */
  lemma {:induction false} SavesReplaceTheStaleRow(s0: State, es: seq<Event>, n: NodeId)
    requires Init(s0) && Run(s0, es).Some?
    requires n in Run(s0, es).value.nodes && Run(s0, es).value.nodes[n].pc.Identified?
    ensures var s := Run(s0, es).value;
            s.row == Some(s.nodes[n].pc.seen) && !Valid(s.row.value.token, s.clock)
  {
    InvHolds(s0, es);
  }

  /** Saves and expiries alternate: one save per expired token, and the version counts the saves. */
  lemma {:induction false} OneSavePerExpiry(s0: State, es: seq<Event>)
    requires Init(s0) && Run(s0, es).Some?
    ensures var s := Run(s0, es).value;
            && s.saves <= s.expiries <= s.saves + 1
            && (s.row.Some? ==> s0.row.Some? && s.row.value.version == s0.row.value.version + s.saves)
            && (s.row.Some? && Valid(s.row.value.token, s.clock) ==> s.saves == s.expiries)
  {
    InvHolds(s0, es);
  }
}
