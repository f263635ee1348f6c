/** The whole anime_id_map table under BulkRecordIdMaps (internal/anime/id_map.db.go): the bulk statement, the
    retry on another anchor column when a unique index is violated, and the item-by-item fallback. */
module IdMapTable {
  import opened Options
  import opened Histories
  import opened IdMap

  /** The rows by primary key. */
  type Table = map<nat, Row>

  /** The unique indexes: in every anchor column no id occurs twice. That they hold is the database's guarantee;
      a statement after which they would not hold fails. */
  ghost predicate Unique(t: Table) {
    forall i, j, c :: i in t && j in t && i != j && Anchorable(c) ==> Apart(t[i], t[j], c)
  }

  predicate Apart(a: Row, b: Row, c: Column) {
    c in a.ids && c in b.ids ==> a.ids[c] != b.ids[c]
  }

  /** The row an item is written as. */
  function Stored(item: Item): Row {
    Row(item.kind, map c: Column | HasIdIn(item, c) :: IdOf(item, c),
        item.tmdbSeason, item.tvdbSeason, item.traktSeason)
  }

  // ---------- the bulk statement ----------

  function Front(items: seq<Item>): (r: seq<Item>)
    requires items != []
    ensures |r| == |items| - 1
  {
    items[..|items| - 1]
  }

  predicate Hit(t: Table, i: nat, row: Row, anchor: Anchor) {
    i in t && Conflicts(t[i], row, anchor)
  }

  /** A write reaches row i. */
  function Reach(t: Table, i: nat, w: Write): Table
    requires i in t
  {
    t[i := Merge(t[i], w.row, w.how)]
  }

  /** One row of the statement: it is merged into the row it conflicts with on the anchor column, or inserted;
      the unique indexes must hold afterwards. */
  ghost predicate WritesRow(t: Table, row: Row, anchor: Anchor, u: Table) {
    && Unique(u)
    && if exists i: nat :: Hit(t, i, row, anchor)
       then exists i: nat :: Hit(t, i, row, anchor) && u == Reach(t, i, Write(row, OnConflict(anchor)))
       else exists i: nat :: i !in t && u == t[i := row]
  }

  ghost predicate Statement(t: Table, items: seq<Item>, anchor: Anchor, u: Table) {
    if items == [] then u == t
    else exists m :: Statement(t, Front(items), anchor, m)
                     && WritesRow(m, Stored(items[|items| - 1]), anchor, u)
  }

  /** tryBulkRecordIdMaps succeeds; otherwise some row would violate a unique index, and nothing is written. */
  ghost predicate CanWrite(t: Table, items: seq<Item>, anchor: Anchor) {
    exists u :: Statement(t, Sent(items, anchor), anchor, u)
  }

  // ---------- item by item ----------

  /** The row has one of the item's anchor ids. */
  ghost predicate Matches(t: Table, i: nat, item: Item) {
    i in t && exists c: Anchor :: Conflicts(t[i], Stored(item), c)
  }

  /** Some anchor column of the item is not empty, "0" included. */
  ghost predicate Asked(item: Item) {
    exists c :: Anchorable(c) && c in item.ids && item.ids[c] != ""
  }

  /** One item of the fallback: it is skipped, or its statement fails; or one of the rows that match is updated
      by its key; or, without a match, it is inserted. */
  ghost predicate WritesItem(t: Table, item: Item, u: Table) {
    || u == t
    || (Asked(item) && Unique(u)
        && if exists i: nat :: Matches(t, i, item)
           then exists i: nat :: Matches(t, i, item) && u == Reach(t, i, Write(Stored(item), ById))
           else exists i: nat :: i !in t && u == t[i := Stored(item)])
  }

  ghost predicate ItemByItem(t: Table, items: seq<Item>, u: Table) {
    if items == [] then u == t
    else exists m :: ItemByItem(t, Front(items), m) && WritesItem(m, items[|items| - 1], u)
  }

  /** BulkRecordIdMaps may turn t into u. It also leaves t alone when a statement fails for another reason than a
      unique index, or when the index it retries on is not an anchor column, on which it panics. */
  ghost predicate Records(t: Table, items: seq<Item>, anchor: Anchor, u: Table) {
    || u == t
    || Statement(t, Sent(items, anchor), anchor, u)
    || (!CanWrite(t, items, anchor) && exists retry: Anchor :: RetriesOn(t, items, retry, u))
  }

  ghost predicate RetriesOn(t: Table, items: seq<Item>, retry: Anchor, u: Table) {
    Statement(t, Sent(items, retry), retry, u) || (!CanWrite(t, items, retry) && ItemByItem(t, items, u))
  }

  // ---------- what a statement says ----------

  /** Position of an id column in the statement's column list: the type comes first, and the seasons of TMDB, TVDB
      and Trakt follow their ids. */
  function Position(c: Column): (i: nat)
    ensures 0 < i < 16
  {
    match c
    case AniDB => 1 case AniList => 2 case AniSearch => 3 case AnimePlanet => 4 case IMDB => 5 case Kitsu => 6
    case Letterboxd => 7 case LiveChart => 8 case MAL => 9 case NotifyMoe => 10 case TMDB => 11 case TVDB => 13
    case Trakt => 15
  }

  /** The row that seventeen arguments stand for. */
  ghost predicate StandsFor(a: seq<Arg>, row: Row)
    requires |a| == 17
  {
    && a[0] == Text(row.kind)
    && (forall c: Column :: a[Position(c)] == if c in row.ids then Text(row.ids[c]) else Null)
    && a[12] == Number(row.tmdbSeason) && a[14] == Number(row.tvdbSeason) && a[16] == Number(row.traktSeason)
  }

  lemma IdArgStands(item: Item, c: Column)
    ensures Args(item)[Position(c)] == if c in Stored(item).ids then Text(Stored(item).ids[c]) else Null
  {
    assert Args(item)[Position(c)] == IdArg(item, c);
  }

  lemma ArgsStandForItem(item: Item)
    ensures StandsFor(Args(item), Stored(item))
  {
    forall c: Column
      ensures Args(item)[Position(c)] == if c in Stored(item).ids then Text(Stored(item).ids[c]) else Null
    {
      IdArgStands(item, c);
    }
  }

  lemma {:induction false} ArgsOfRow(items: seq<Item>, k: nat)
    requires k < |items|
    ensures 17 * k + 17 <= |AllArgs(items)| && AllArgs(items)[17 * k..17 * k + 17] == Args(items[k])
  {
    var n, from := |items| - 1, 17 * k;
    var before, last := AllArgs(items[..n]), Args(items[n]);
    assert AllArgs(items) == before + last;
    if k < n {
      ArgsOfRow(items[..n], k);
      assert (before + last)[from..from + 17] == before[from..from + 17];
    } else {
      assert (before + last)[from..from + 17] == last;
    }
  }

  /** Row by row, the arguments of a statement stand for what is stored. */
  lemma {:induction false} ArgsStandForRows(items: seq<Item>, k: nat)
    requires k < |items|
    ensures 17 * k + 17 <= |AllArgs(items)| && StandsFor(AllArgs(items)[17 * k..17 * k + 17], Stored(items[k]))
  {
    ArgsOfRow(items, k);
    ArgsStandForItem(items[k]);
  }

  // ---------- what becomes of an item ----------

  /** The stored row with what the item adds: ids and seasons only where there were none, the type only when `typed`;
      a column in which they conflict is the same already. */
  ghost predicate Completes(row: Row, was: Row, x: Item, typed: bool) {
    && (forall c: Column :: c in row.ids
          <==> c in was.ids || (c in x.ids && x.ids[c] != "" && x.ids[c] != "0"))
    && (forall c: Column :: c in row.ids ==> row.ids[c] == if c in was.ids then was.ids[c] else x.ids[c])
    && row.kind == (if typed && was.kind == "" then x.kind else was.kind)
    && row.tmdbSeason == (if was.tmdbSeason == 0 then x.tmdbSeason else was.tmdbSeason)
    && row.tvdbSeason == (if was.tvdbSeason == 0 then x.tvdbSeason else was.tvdbSeason)
    && row.traktSeason == (if was.traktSeason == 0 then x.traktSeason else was.traktSeason)
  }

  lemma MergeCompletes(was: Row, x: Item, how: How)
    requires !how.Inserted? && (how.OnConflict? ==> Conflicts(was, Stored(x), how.anchor))
    ensures Completes(Merge(was, Stored(x), how), was, x, how.OnConflict?)
  {
  }

  /** An item whose anchor id is in the table completes the one row that has it, if the unique indexes allow that, and
      nothing else can happen; the item is never inserted next to it. */
  lemma KnownItemCompletes(t: Table, i: nat, x: Item, anchor: Anchor, u: Table)
    requires Unique(t) && i in t && Conflicts(t[i], Stored(x), anchor)
    ensures WritesRow(t, Stored(x), anchor, u)
            <==> Unique(u) && u == Reach(t, i, Write(Stored(x), OnConflict(anchor)))
    ensures WritesRow(t, Stored(x), anchor, u) ==>
              u.Keys == t.Keys && Completes(u[i], t[i], x, true) && forall j :: j in t && j != i ==> u[j] == t[j]
  {
    MergeCompletes(t[i], x, OnConflict(anchor));
    forall j: nat | Hit(t, j, Stored(x), anchor) ensures j == i {
      assert !Apart(t[i], t[j], anchor);
    }
    assert Hit(t, i, Stored(x), anchor);
  }

  /** An item whose anchor id is new gets a row of its own, if the unique indexes allow that. */
  lemma NewItemIsInserted(t: Table, x: Item, anchor: Anchor, u: Table)
    requires forall i :: i in t ==> !Conflicts(t[i], Stored(x), anchor)
    ensures WritesRow(t, Stored(x), anchor, u) <==> Unique(u) && exists i: nat :: i !in t && u == t[i := Stored(x)]
  {
  }

  /** The fallback skips an item without any anchor id. */
  lemma FallbackSkips(t: Table, x: Item, u: Table)
    requires WritesItem(t, x, u) && forall c :: Anchorable(c) && c in x.ids ==> x.ids[c] == ""
    ensures u == t
  {
  }

  /** Another item that some row knows it completes in such a row, if it does anything: it inserts nothing and leaves
      the type alone. */
  lemma FallbackCompletes(t: Table, x: Item, u: Table) returns (i: nat)
    requires WritesItem(t, x, u) && u != t && exists i: nat :: Matches(t, i, x)
    ensures Matches(t, i, x) && u.Keys == t.Keys && Completes(u[i], t[i], x, false)
    ensures forall j :: j in t && j != i ==> u[j] == t[j]
  {
    i :| Matches(t, i, x) && u == Reach(t, i, Write(Stored(x), ById));
    MergeCompletes(t[i], x, ById);
  }

  /** The retry is made, and the items written one by one, only when the statement before would violate a unique
      index. */
  lemma {:induction false} FallbackIsLast(t: Table, items: seq<Item>, anchor: Anchor, u: Table, v: Table)
    requires Records(t, items, anchor, u) && Statement(t, Sent(items, anchor), anchor, v)
    ensures u == t || Statement(t, Sent(items, anchor), anchor, u)
  {
  }

  // ---------- what a statement stores ----------

  /** A row with the item's id in the anchor column and some id in every column in which the item has one. */
  ghost predicate Holds(t: Table, item: Item, anchor: Anchor) {
    exists i :: i in t && RowHolds(t[i], item, anchor)
  }

  predicate RowHolds(row: Row, item: Item, anchor: Anchor) {
    && anchor in row.ids && anchor in item.ids && row.ids[anchor] == item.ids[anchor]
    && forall c :: c in item.ids && item.ids[c] != "" && item.ids[c] != "0" ==> c in row.ids
  }

  lemma HoldsStill(t: Table, row: Row, anchor: Anchor, u: Table, item: Item)
    requires WritesRow(t, row, anchor, u) && Holds(t, item, anchor)
    ensures Holds(u, item, anchor)
  {
    var i :| i in t && RowHolds(t[i], item, anchor);
    assert i in u && RowHolds(u[i], item, anchor);
  }

  lemma HoldsWritten(t: Table, item: Item, anchor: Anchor, u: Table)
    requires WritesRow(t, Stored(item), anchor, u) && HasIdIn(item, anchor)
    ensures Holds(u, item, anchor)
  {
    if i: nat :| Hit(t, i, Stored(item), anchor) && u == Reach(t, i, Write(Stored(item), OnConflict(anchor))) {
      assert RowHolds(u[i], item, anchor);
    } else {
      var i: nat :| i !in t && u == t[i := Stored(item)];
      assert RowHolds(u[i], item, anchor);
    }
  }

  /** After a bulk statement each of its items has a row: with its anchor id, and with an id in every column in
      which it has one. */
  lemma {:induction false} StatementHolds(t: Table, items: seq<Item>, anchor: Anchor, u: Table, n: nat)
    requires Statement(t, items, anchor, u) && n < |items| && HasIdIn(items[n], anchor)
    ensures Holds(u, items[n], anchor)
  {
    var last := items[|items| - 1];
    var m :| Statement(t, Front(items), anchor, m) && WritesRow(m, Stored(last), anchor, u);
    if n < |items| - 1 {
      StatementHolds(t, Front(items), anchor, m, n);
      HoldsStill(m, Stored(last), anchor, u, items[n]);
    } else {
      HoldsWritten(m, last, anchor, u);
    }
  }

  // ---------- where the rows come from ----------

  /** An item and how it was written. */
  datatype Entry = Entry(item: Item, how: How)

  function Writes(es: seq<Entry>): (ws: seq<Write>)
    ensures |ws| == |es| && forall n :: 0 <= n < |es| ==> ws[n] == Write(Stored(es[n].item), es[n].how)
  {
    seq(|es|, n requires 0 <= n < |es| => Write(Stored(es[n].item), es[n].how))
  }

  /** By primary key, the items whose writes have reached each row. */
  type Past = map<nat, seq<Entry>>

  /** Each row has been created by its first write, found by the others, and is what they leave behind. */
  ghost predicate Explains(h: Past, t: Table) {
    && (forall i :: i in t <==> i in h)
    && (forall i :: i in h ==> h[i] != [] && Meets(Writes(h[i])) && After(Writes(h[i])) == t[i])
  }

  function EntriesOf(h: Past, i: nat): seq<Entry> {
    if i in h then h[i] else []
  }

  /** g has all rows of h, and beyond h only writes of the items. */
  ghost predicate Continues(h: Past, g: Past, items: seq<Item>) {
    && (forall i :: i in h ==> i in g)
    && (forall i :: i in g ==> RowContinues(EntriesOf(h, i), g[i], items))
  }

  ghost predicate RowContinues(es: seq<Entry>, fs: seq<Entry>, items: seq<Item>) {
    es <= fs && forall k :: |es| <= k < |fs| ==> fs[k].item in items
  }

  lemma ContinuesFurther(h: Past, g: Past, k: Past, few: seq<Item>, items: seq<Item>)
    requires Continues(h, g, few) && Continues(g, k, items)
    requires forall x :: x in few ==> x in items
    ensures Continues(h, k, items)
  {
    forall i | i in k ensures RowContinues(EntriesOf(h, i), k[i], items) {
      assert RowContinues(EntriesOf(g, i), k[i], items);
      assert i in g ==> RowContinues(EntriesOf(h, i), g[i], few);
    }
  }

  lemma RowChanges(h: Past, i: nat, es: seq<Entry>, items: seq<Item>)
    requires RowContinues(EntriesOf(h, i), es, items)
    ensures Continues(h, h[i := es], items)
  {
  }

  lemma WritesSnoc(es: seq<Entry>, e: Entry)
    ensures Writes(es + [e]) == Writes(es) + [Write(Stored(e.item), e.how)]
  {
  }

  lemma ReachKeeps(h: Past, t: Table, i: nat, item: Item, how: How) returns (g: Past)
    requires Explains(h, t) && i in t && !how.Inserted?
    requires how.OnConflict? ==> Conflicts(t[i], Stored(item), how.anchor)
    ensures Explains(g, Reach(t, i, Write(Stored(item), how))) && Continues(h, g, [item])
  {
    var w, es := Write(Stored(item), how), h[i] + [Entry(item, how)];
    WritesSnoc(h[i], Entry(item, how));
    MeetsSnoc(Writes(h[i]), w);
    AfterSnoc(Writes(h[i]), w);
    RowChanges(h, i, es, [item]);
    g := h[i := es];
  }

  lemma InsertKeeps(h: Past, t: Table, i: nat, item: Item) returns (g: Past)
    requires Explains(h, t) && i !in t
    ensures Explains(g, t[i := Stored(item)]) && Continues(h, g, [item])
  {
    var es := [Entry(item, Inserted)];
    WritesSnoc([], es[0]);
    assert [] + es == es;
    RowChanges(h, i, es, [item]);
    g := h[i := es];
  }

  lemma WritesRowKeeps(h: Past, t: Table, item: Item, anchor: Anchor, u: Table) returns (g: Past)
    requires Explains(h, t) && WritesRow(t, Stored(item), anchor, u)
    ensures Explains(g, u) && Continues(h, g, [item]) && Unique(u)
  {
    if i: nat :| Hit(t, i, Stored(item), anchor) && u == Reach(t, i, Write(Stored(item), OnConflict(anchor))) {
      g := ReachKeeps(h, t, i, item, OnConflict(anchor));
    } else {
      var i: nat :| i !in t && u == t[i := Stored(item)];
      g := InsertKeeps(h, t, i, item);
    }
  }

  lemma WritesItemKeeps(h: Past, t: Table, item: Item, u: Table) returns (g: Past)
    requires Explains(h, t) && Unique(t) && WritesItem(t, item, u)
    ensures Explains(g, u) && Continues(h, g, [item]) && Unique(u)
  {
    g := h;
    if u != t {
      if i: nat :| Matches(t, i, item) && u == Reach(t, i, Write(Stored(item), ById)) {
        g := ReachKeeps(h, t, i, item, ById);
      } else {
        var i: nat :| i !in t && u == t[i := Stored(item)];
        g := InsertKeeps(h, t, i, item);
      }
    }
  }

  lemma {:induction false} StatementKeeps(h: Past, t: Table, items: seq<Item>, anchor: Anchor, u: Table)
    returns (g: Past)
    requires Explains(h, t) && Unique(t) && Statement(t, items, anchor, u)
    ensures Explains(g, u) && Continues(h, g, items) && Unique(u)
  {
    g := h;
    if items != [] {
      var last := items[|items| - 1];
      var m :| Statement(t, Front(items), anchor, m) && WritesRow(m, Stored(last), anchor, u);
      var f := StatementKeeps(h, t, Front(items), anchor, m);
      g := WritesRowKeeps(f, m, last, anchor, u);
      OneMoreItem(h, f, g, items);
    }
  }

  lemma OneMoreItem(h: Past, f: Past, g: Past, items: seq<Item>)
    requires items != [] && Continues(h, f, Front(items)) && Continues(f, g, [items[|items| - 1]])
    ensures Continues(h, g, items)
  {
    forall i | i in g ensures RowContinues(EntriesOf(f, i), g[i], items) {
      assert RowContinues(EntriesOf(f, i), g[i], [items[|items| - 1]]);
    }
    ContinuesFurther(h, f, g, Front(items), items);
  }

  lemma {:induction false} ItemByItemKeeps(h: Past, t: Table, items: seq<Item>, u: Table) returns (g: Past)
    requires Explains(h, t) && Unique(t) && ItemByItem(t, items, u)
    ensures Explains(g, u) && Continues(h, g, items) && Unique(u)
  {
    g := h;
    if items != [] {
      var last := items[|items| - 1];
      var m :| ItemByItem(t, Front(items), m) && WritesItem(m, last, u);
      var f := ItemByItemKeeps(h, t, Front(items), m);
      g := WritesItemKeeps(f, m, last, u);
      OneMoreItem(h, f, g, items);
    }
  }

  lemma {:induction false} SentAreItems(items: seq<Item>, anchor: Anchor)
    ensures forall x :: x in Sent(items, anchor) ==> x in items
  {
    if items != [] {
      SentAreItems(Front(items), anchor);
    }
  }

  lemma SentKeeps(h: Past, t: Table, items: seq<Item>, anchor: Anchor, u: Table) returns (g: Past)
    requires Explains(h, t) && Unique(t) && Statement(t, Sent(items, anchor), anchor, u)
    ensures Explains(g, u) && Continues(h, g, items) && Unique(u)
  {
    g := StatementKeeps(h, t, Sent(items, anchor), anchor, u);
    SentAreItems(items, anchor);
    assert Continues(g, g, items);
    ContinuesFurther(h, g, g, Sent(items, anchor), items);
  }

  lemma RecordsKeeps(h: Past, t: Table, items: seq<Item>, anchor: Anchor, u: Table) returns (g: Past)
    requires Explains(h, t) && Unique(t) && Records(t, items, anchor, u)
    ensures Explains(g, u) && Continues(h, g, items) && Unique(u)
  {
    if u == t {
      g := h;
    } else if Statement(t, Sent(items, anchor), anchor, u) {
      g := SentKeeps(h, t, items, anchor, u);
    } else {
      var retry: Anchor :| RetriesOn(t, items, retry, u);
      if Statement(t, Sent(items, retry), retry, u) {
        g := SentKeeps(h, t, items, retry, u);
      } else {
        g := ItemByItemKeeps(h, t, items, u);
      }
    }
  }

  // ---------- runs ----------

  datatype Call = Call(items: seq<Item>, anchor: Anchor)

  /** The calls take the table from empty through ts. */
  ghost predicate Runs(calls: seq<Call>, ts: seq<Table>) {
    |ts| == |calls| + 1 && ts[0] == map[] && forall n :: 0 <= n < |calls| ==> Recorded(calls, ts, n)
  }

  ghost predicate Recorded(calls: seq<Call>, ts: seq<Table>, n: nat)
    requires n < |calls| && |ts| == |calls| + 1
  {
    Records(ts[n], calls[n].items, calls[n].anchor, ts[n + 1])
  }

  lemma RunsPrefix(calls: seq<Call>, ts: seq<Table>)
    requires Runs(calls, ts) && calls != []
    ensures Runs(calls[..|calls| - 1], ts[..|calls|])
  {
    var few, init := calls[..|calls| - 1], ts[..|calls|];
    forall n | 0 <= n < |few| ensures Recorded(few, init, n) {
      assert Recorded(calls, ts, n);
    }
  }

  /** The item gives an id in the column. */
  function Gives(c: Column): Entry -> bool {
    (e: Entry) => c in e.item.ids && e.item.ids[c] != "" && e.item.ids[c] != "0"
  }

  predicate GivesKind(e: Entry) { e.item.kind != "" && !e.how.ById? }
  predicate GivesTmdbSeason(e: Entry) { e.item.tmdbSeason != 0 }
  predicate GivesTvdbSeason(e: Entry) { e.item.tvdbSeason != 0 }
  predicate GivesTraktSeason(e: Entry) { e.item.traktSeason != 0 }

  function FirstItem(es: seq<Entry>, gives: Entry -> bool): (r: Option<Item>)
    ensures r.Some? <==> exists n :: 0 <= n < |es| && gives(es[n])
  {
    if First(es, gives).Some? then Some(es[First(es, gives).value].item) else None
  }

  /** The row is made of the first things its items have to say: the first id in each column, the first type
      outside updates by key, and the first season of each kind. */
  ghost predicate FirstOnes(es: seq<Entry>, row: Row) {
    && (forall c: Column :: FirstId(es, row, c))
    && row.kind == (var x := FirstItem(es, GivesKind); if x.Some? then x.value.kind else "")
    && row.tmdbSeason == (var x := FirstItem(es, GivesTmdbSeason); if x.Some? then x.value.tmdbSeason else 0)
    && row.tvdbSeason == (var x := FirstItem(es, GivesTvdbSeason); if x.Some? then x.value.tvdbSeason else 0)
    && row.traktSeason == (var x := FirstItem(es, GivesTraktSeason); if x.Some? then x.value.traktSeason else 0)
  }

  predicate FirstId(es: seq<Entry>, row: Row, c: Column) {
    var x := FirstItem(es, Gives(c));
    && (c in row.ids <==> x.Some?)
    && (c in row.ids ==> c in x.value.ids && row.ids[c] == x.value.ids[c])
  }

  lemma StoredGives(e: Entry, c: Column)
    ensures HasId(c)(Write(Stored(e.item), e.how)) == Gives(c)(e)
    ensures Gives(c)(e) ==> Stored(e.item).ids[c] == e.item.ids[c]
  {
  }

  lemma {:induction false} IdIsFirst(es: seq<Entry>, c: Column)
    requires es != [] && Meets(Writes(es))
    ensures FirstId(es, After(Writes(es)), c)
  {
    var ws := Writes(es);
    forall n | 0 <= n < |es| ensures HasId(c)(ws[n]) == Gives(c)(es[n]) {
      StoredGives(es[n], c);
    }
    FoundAlike(ws, es, HasId(c), Gives(c));
    IdsOfHistory(ws, c);
    var first := First(es, Gives(c));
    if first.Some? {
      StoredGives(es[first.value], c);
    }
  }

  lemma {:induction false} RestIsFirst(es: seq<Entry>)
    requires es != []
    ensures var ws := Writes(es);
            && First(ws, HasKind) == First(es, GivesKind)
            && First(ws, HasTmdbSeason) == First(es, GivesTmdbSeason)
            && First(ws, HasTvdbSeason) == First(es, GivesTvdbSeason)
            && First(ws, HasTraktSeason) == First(es, GivesTraktSeason)
  {
    var ws := Writes(es);
    FoundAlike(ws, es, HasKind, GivesKind);
    FoundAlike(ws, es, HasTmdbSeason, GivesTmdbSeason);
    FoundAlike(ws, es, HasTvdbSeason, GivesTvdbSeason);
    FoundAlike(ws, es, HasTraktSeason, GivesTraktSeason);
  }

  lemma {:induction false} AfterIsFirstOnes(es: seq<Entry>)
    requires es != [] && Meets(Writes(es))
    ensures FirstOnes(es, After(Writes(es)))
  {
    RestIsFirst(es);
    RestOfHistory(Writes(es));
    forall c: Column ensures FirstId(es, After(Writes(es)), c) {
      IdIsFirst(es, c);
    }
  }

  /** Every table of a run has its past: no row is ever lost, and with every call a row is reached by nothing but
      items of that call. */
  ghost predicate PastOf(calls: seq<Call>, ts: seq<Table>, hs: seq<Past>) {
    && |hs| == |ts| == |calls| + 1 && hs[0] == map[]
    && (forall n :: 0 <= n < |hs| ==> Explained(ts, hs, n))
    && (forall n :: 0 <= n < |calls| ==> Continued(calls, hs, n))
  }

  ghost predicate Explained(ts: seq<Table>, hs: seq<Past>, n: nat)
    requires n < |hs| == |ts|
  {
    Explains(hs[n], ts[n]) && Unique(ts[n])
  }

  ghost predicate Continued(calls: seq<Call>, hs: seq<Past>, n: nat)
    requires n < |calls| && |hs| == |calls| + 1
  {
    Continues(hs[n], hs[n + 1], calls[n].items)
  }

  lemma {:induction false} RunHasPast(calls: seq<Call>, ts: seq<Table>) returns (hs: seq<Past>)
    requires Runs(calls, ts)
    ensures PastOf(calls, ts, hs)
  {
    if calls == [] {
      hs := [map[]];
    } else {
      var k := |calls| - 1;
      RunsPrefix(calls, ts);
      var before := RunHasPast(calls[..k], ts[..k + 1]);
      assert Explained(ts[..k + 1], before, k) && Recorded(calls, ts, k);
      var h := RecordsKeeps(before[k], ts[k], calls[k].items, calls[k].anchor, ts[k + 1]);
      hs := before + [h];
      PastSnoc(calls, ts, before, h);
    }
  }

  lemma PastSnoc(calls: seq<Call>, ts: seq<Table>, hs: seq<Past>, h: Past)
    requires calls != [] && |ts| == |calls| + 1
    requires PastOf(calls[..|calls| - 1], ts[..|calls|], hs)
    requires Explains(h, ts[|calls|]) && Unique(ts[|calls|])
    requires Continues(hs[|calls| - 1], h, calls[|calls| - 1].items)
    ensures PastOf(calls, ts, hs + [h])
  {
    var few, init, all := calls[..|calls| - 1], ts[..|calls|], hs + [h];
    forall n | 0 <= n < |all| ensures Explained(ts, all, n) {
      if n < |hs| {
        assert Explained(init, hs, n);
        assert all[n] == hs[n] && init[n] == ts[n];
      }
    }
    forall n | 0 <= n < |calls| ensures Continued(calls, all, n) {
      assert all[n] == hs[n];
      if n < |few| {
        assert Continued(few, hs, n);
        assert all[n + 1] == hs[n + 1] && few[n] == calls[n];
      }
    }
  }

  /** Over every run of calls, retries and fallbacks included: every row of every table consists of the first
      things said by the items that reached it, all of them items of the calls; later calls only add items. */
  lemma {:induction false} RunKeeps(calls: seq<Call>, ts: seq<Table>) returns (hs: seq<Past>)
    requires Runs(calls, ts)
    ensures PastOf(calls, ts, hs)
    ensures forall n, i :: 0 <= n < |ts| && i in ts[n] ==> i in hs[n] && FirstOnes(hs[n][i], ts[n][i])
  {
    hs := RunHasPast(calls, ts);
    forall n, i | 0 <= n < |ts| && i in ts[n] ensures i in hs[n] && FirstOnes(hs[n][i], ts[n][i]) {
      assert Explained(ts, hs, n);
      AfterIsFirstOnes(hs[n][i]);
    }
  }

  lemma {:induction false} PastGrows(calls: seq<Call>, ts: seq<Table>, hs: seq<Past>, n: nat, m: nat, i: nat)
    requires PastOf(calls, ts, hs) && n <= m < |hs| && i in hs[n]
    ensures i in hs[m] && hs[n][i] <= hs[m][i]
  {
    if n < m {
      PastGrows(calls, ts, hs, n, m - 1, i);
      assert Continued(calls, hs, m - 1);
      assert RowContinues(hs[m - 1][i], hs[m][i], calls[m - 1].items);
    }
  }

  /** So an id, once a row has it, never changes and never disappears, and in an anchor column no other row ever
      gets it. */
  lemma {:induction false} IdsOfRun(calls: seq<Call>, ts: seq<Table>, n: nat, i: nat, c: Column)
    requires Runs(calls, ts) && n < |ts| && i in ts[n] && c in ts[n][i].ids
    ensures var u := ts[|calls|];
            && i in u && c in u[i].ids && u[i].ids[c] == ts[n][i].ids[c]
            && (Anchorable(c) ==> forall j :: j in u && j != i && c in u[j].ids ==> u[j].ids[c] != u[i].ids[c])
  {
    var hs := RunHasPast(calls, ts);
    var last := |calls|;
    assert Explained(ts, hs, n) && Explained(ts, hs, last);
    PastGrows(calls, ts, hs, n, last, i);
    EntriesStay(hs[n][i], hs[last][i], c);
  }

  lemma {:induction false} EntriesStay(es: seq<Entry>, all: seq<Entry>, c: Column)
    requires es != [] && es <= all && Meets(Writes(es)) && Meets(Writes(all)) && c in After(Writes(es)).ids
    ensures c in After(Writes(all)).ids && After(Writes(all)).ids[c] == After(Writes(es)).ids[c]
  {
    var more := Writes(all)[|es|..];
    assert Writes(all) == Writes(es) + more;
    IdStays(Writes(es), more, c);
  }

  /** And no id is made up: each was given, in its column, by an item of some call. */
  lemma {:induction false} IdsAreGiven(calls: seq<Call>, ts: seq<Table>, n: nat, i: nat, c: Column)
    requires Runs(calls, ts) && n < |ts| && i in ts[n] && c in ts[n][i].ids
    ensures exists k, x :: 0 <= k < n && x in calls[k].items && c in x.ids && x.ids[c] == ts[n][i].ids[c]
  {
    var hs := RunKeeps(calls, ts);
    assert Explained(ts, hs, n) && FirstOnes(hs[n][i], ts[n][i]);
    assert FirstId(hs[n][i], ts[n][i], c);
    var k := EntryIsGiven(calls, ts, hs, n, i, First(hs[n][i], Gives(c)).value);
  }

  /** The call that brought an item to a row. */
  lemma {:induction false} EntryIsGiven(calls: seq<Call>, ts: seq<Table>, hs: seq<Past>, n: nat, i: nat, w: nat)
    returns (k: nat)
    requires PastOf(calls, ts, hs) && n < |hs| && i in hs[n] && w < |hs[n][i]|
    ensures k < n && hs[n][i][w].item in calls[k].items
  {
    assert n > 0;
    k := n - 1;
    assert Continued(calls, hs, k);
    assert RowContinues(EntriesOf(hs[k], i), hs[n][i], calls[k].items);
    if w < |EntriesOf(hs[k], i)| {
      assert hs[n][i][w] == hs[k][i][w];
      k := EntryIsGiven(calls, ts, hs, n - 1, i, w);
    }
  }
}
