/** The anime_id_map table of internal/anime/id_map.db.go: the bulk statement tryBulkRecordIdMaps builds,
    and what a row holds after any history of them. */
module IdMap {
  import opened Options
  import opened Histories

  /** The id columns. */
  datatype Column = AniDB | AniList | AniSearch | AnimePlanet | IMDB | Kitsu | Letterboxd | LiveChart | MAL
                  | NotifyMoe | TMDB | TVDB | Trakt

  /** The columns a conflict may be resolved on. */
  predicate Anchorable(c: Column) {
    !c.IMDB? && !c.Letterboxd? && !c.TMDB? && !c.TVDB? && !c.Trakt?
  }

  type Anchor = c: Column | Anchorable(c) witness AniDB

  /** A row; a column without an id is NULL. */
  datatype Row = Row(kind: string, ids: map<Column, string>, tmdbSeason: int, tvdbSeason: int, traktSeason: int)

  /** An item as it is handed in; a field left out is "". */
  datatype Item = Item(kind: string, ids: map<Column, string>, tmdbSeason: int, tvdbSeason: int, traktSeason: int)

  /** normalizeOptionalId. */
  function Normal(id: string): (r: string)
    ensures r != "0"
  {
    if id == "0" then "" else id
  }

  /** The item's id in a column, "" when it has none. */
  function IdOf(item: Item, c: Column): string {
    if c in item.ids then Normal(item.ids[c]) else ""
  }

  /** getAnchorColumnValue; other columns make it panic. */
  function AnchorValue(item: Item, anchor: Anchor): string {
    IdOf(item, anchor)
  }

  predicate HasIdIn(item: Item, c: Column) {
    IdOf(item, c) != ""
  }

  function One(item: Item, c: Column): nat {
    if HasIdIn(item, c) then 1 else 0
  }

  /** shouldPersist, its eight increments as one sum. */
  predicate ShouldPersist(item: Item) {
    One(item, AniDB) + One(item, AniList) + One(item, AniSearch) + One(item, AnimePlanet)
    + One(item, Kitsu) + One(item, LiveChart) + One(item, MAL) + One(item, NotifyMoe) > 1
  }

  /** An item is worth a row when two different anchor columns have an id. */
  lemma PersistMeansTwoIds(item: Item)
    ensures ShouldPersist(item)
            <==> exists c, d :: c != d && Anchorable(c) && Anchorable(d) && HasIdIn(item, c) && HasIdIn(item, d)
  {
  }

  // ---------- one statement ----------

  /** The anchor values of some items; seenMap after them. */
  function Anchors(items: seq<Item>, anchor: Anchor): set<string> {
    if items == [] then {}
    else Anchors(items[..|items| - 1], anchor) + {AnchorValue(items[|items| - 1], anchor)}
  }

  predicate Persistable(item: Item, anchor: Anchor) {
    AnchorValue(item, anchor) != "" && ShouldPersist(item)
  }

  /** The items that go into the statement; only the first item of an anchor value is looked at. */
  function Sent(items: seq<Item>, anchor: Anchor): (r: seq<Item>)
    ensures |r| <= |items|
  {
    if items == [] then []
    else
      var init, last := items[..|items| - 1], items[|items| - 1];
      var r := Sent(init, anchor);
      if AnchorValue(last, anchor) !in Anchors(init, anchor) && Persistable(last, anchor) then r + [last] else r
  }

  /** The first item with an anchor value. */
  function FirstWith(items: seq<Item>, anchor: Anchor, v: string): (r: Option<Item>)
    ensures r.Some? <==> v in Anchors(items, anchor)
    ensures r.Some? ==> exists n :: 0 <= n < |items| && r.value == items[n] && AnchorValue(items[n], anchor) == v
                                    && forall m :: 0 <= m < n ==> AnchorValue(items[m], anchor) != v
    ensures r.None? ==> forall n :: 0 <= n < |items| ==> AnchorValue(items[n], anchor) != v
  {
    if items == [] then None
    else
      var init, last := items[..|items| - 1], items[|items| - 1];
      assert forall i :: 0 <= i < |init| ==> init[i] == items[i];
      var r := FirstWith(init, anchor, v);
      if r.Some? then r else if AnchorValue(last, anchor) == v then Some(last) else None
  }

  lemma {:induction false} AnchorsSnoc(items: seq<Item>, item: Item, anchor: Anchor)
    ensures Anchors(items + [item], anchor) == Anchors(items, anchor) + {AnchorValue(item, anchor)}
  {
    assert (items + [item])[..|items|] == items;
  }

  /** A value is in the anchor column of the statement exactly when the first item with it is persistable;
      later items with the same value make no difference. */
  lemma {:induction false} AnchorIsSent(items: seq<Item>, anchor: Anchor, v: string)
    ensures v in Anchors(Sent(items, anchor), anchor)
            <==> FirstWith(items, anchor, v).Some? && Persistable(FirstWith(items, anchor, v).value, anchor)
  {
    if items != [] {
      var init, last := items[..|items| - 1], items[|items| - 1];
      AnchorIsSent(init, anchor, v);
      AnchorsSnoc(Sent(init, anchor), last, anchor);
    }
  }

  ghost predicate AnchorsDiffer(items: seq<Item>, anchor: Anchor) {
    && (forall i :: 0 <= i < |items| ==> AnchorValue(items[i], anchor) != "" && AnchorValue(items[i], anchor) != "0")
    && (forall i, j :: 0 <= i < j < |items| ==> AnchorValue(items[i], anchor) != AnchorValue(items[j], anchor))
  }

  lemma {:induction false} AnchorIn(items: seq<Item>, anchor: Anchor, i: nat)
    requires i < |items|
    ensures AnchorValue(items[i], anchor) in Anchors(items, anchor)
  {
    if i < |items| - 1 { AnchorIn(items[..|items| - 1], anchor, i); }
  }

  lemma {:induction false} DifferOneMore(items: seq<Item>, item: Item, anchor: Anchor)
    requires AnchorsDiffer(items, anchor) && Persistable(item, anchor)
    requires AnchorValue(item, anchor) !in Anchors(items, anchor)
    ensures AnchorsDiffer(items + [item], anchor)
  {
    forall i | 0 <= i < |items| ensures AnchorValue(items[i], anchor) != AnchorValue(item, anchor) {
      AnchorIn(items, anchor, i);
    }
  }

  /** Every row of a statement has an id in the anchor column, and no two rows have the same one. */
  lemma {:induction false} RowsDiffer(items: seq<Item>, anchor: Anchor)
    ensures AnchorsDiffer(Sent(items, anchor), anchor)
  {
    if items != [] {
      var init, last := items[..|items| - 1], items[|items| - 1];
      RowsDiffer(init, anchor);
      AnchorIsSent(init, anchor, AnchorValue(last, anchor));
      if AnchorValue(last, anchor) !in Anchors(init, anchor) && Persistable(last, anchor) {
        DifferOneMore(Sent(init, anchor), last, anchor);
      }
    }
  }

  datatype Arg = Text(s: string) | Null | Number(i: int)

  function IdArg(item: Item, c: Column): Arg {
    if HasIdIn(item, c) then Text(IdOf(item, c)) else Null
  }

  /** The seventeen arguments of a row, in the order of the table's columns. */
  function ArgAt(r: Item, i: nat): Arg {
    match i
    case 0 => Text(r.kind) case 1 => IdArg(r, AniDB) case 2 => IdArg(r, AniList) case 3 => IdArg(r, AniSearch)
    case 4 => IdArg(r, AnimePlanet) case 5 => IdArg(r, IMDB) case 6 => IdArg(r, Kitsu) case 7 => IdArg(r, Letterboxd)
    case 8 => IdArg(r, LiveChart) case 9 => IdArg(r, MAL) case 10 => IdArg(r, NotifyMoe) case 11 => IdArg(r, TMDB)
    case 12 => Number(r.tmdbSeason) case 13 => IdArg(r, TVDB) case 14 => Number(r.tvdbSeason)
    case 15 => IdArg(r, Trakt) case _ => Number(r.traktSeason)
  }

  function Args(r: Item): (a: seq<Arg>)
    ensures |a| == 17
  {
    seq(17, i requires 0 <= i => ArgAt(r, i))
  }

  function AllArgs(items: seq<Item>): (a: seq<Arg>)
    ensures |a| == 17 * |items|
  {
    if items == [] then [] else AllArgs(items[..|items| - 1]) + Args(items[|items| - 1])
  }

  lemma {:induction false} AllArgsSnoc(items: seq<Item>, item: Item)
    ensures AllArgs(items + [item]) == AllArgs(items) + Args(item)
  {
    assert (items + [item])[..|items|] == items;
  }

  lemma {:induction false} SentSnoc(items: seq<Item>, item: Item, anchor: Anchor)
    ensures Sent(items + [item], anchor)
            == if AnchorValue(item, anchor) !in Anchors(items, anchor) && Persistable(item, anchor)
               then Sent(items, anchor) + [item] else Sent(items, anchor)
  {
    assert (items + [item])[..|items|] == items;
  }

  /** The loop's variables after some items, n being all of them. */
  ghost predicate Through(done: seq<Item>, n: nat, anchor: Anchor, seen: set<string>, count: int, args: seq<Arg>) {
    seen == Anchors(done, anchor) && args == AllArgs(Sent(done, anchor)) && count == |Sent(done, anchor)| + n - |done|
  }

  /** The body of the loop. */
  method AddItem(ghost done: seq<Item>, ghost n: nat, item: Item, anchor: Anchor, seen: set<string>, count: int,
                 args: seq<Arg>)
    returns (seen': set<string>, count': int, args': seq<Arg>)
    requires Through(done, n, anchor, seen, count, args)
    ensures Through(done + [item], n, anchor, seen', count', args')
  {
    seen', count', args' := seen, count, args;
    var v := AnchorValue(item, anchor);
    SentSnoc(done, item, anchor);
    AllArgsSnoc(Sent(done, anchor), item);
    AnchorsSnoc(done, item, anchor);
    if v in seen { return seen, count - 1, args; }
    seen' := seen + {v};
    if v == "" { return seen', count - 1, args; }
    if !ShouldPersist(item) { return seen', count - 1, args; }
    args' := args + Args(item);
  }

  /** tryBulkRecordIdMaps up to the statement: seventeen arguments for each of the count rows. */
  method BuildStatement(items: seq<Item>, anchor: Anchor) returns (count: int, args: seq<Arg>)
    ensures count == |Sent(items, anchor)| && args == AllArgs(Sent(items, anchor)) && |args| == 17 * count
  {
    count, args := |items|, [];
    var seen: set<string> := {};
    ghost var done := [];
    for i := 0 to |items|
      invariant done == items[..i]
      invariant Through(done, |items|, anchor, seen, count, args)
    {
      seen, count, args := AddItem(done, |items|, items[i], anchor, seen, count, args);
      done := done + [items[i]];
    }
    assert done == items;
  }

  // ---------- a row over time ----------

  /** How a write reaches a row: it creates it, it conflicts with it on an anchor column, or it has looked it
      up and updates it by its primary key. */
  datatype How = Inserted | OnConflict(anchor: Anchor) | ById

  datatype Write = Write(row: Row, how: How)

  /** ON CONFLICT (anchor) DO UPDATE, which does not set the anchor column, and the update by key, which does
      not set the type; aim is the stored row, ex the new one. */
  function Merge(aim: Row, ex: Row, how: How): Row {
    Row(if aim.kind == "" && !how.ById? then ex.kind else aim.kind,
        map c: Column | c in aim.ids || (c in ex.ids && !(how.OnConflict? && how.anchor == c)) ::
          if c in aim.ids then aim.ids[c] else ex.ids[c],
        if aim.tmdbSeason == 0 then ex.tmdbSeason else aim.tmdbSeason,
        if aim.tvdbSeason == 0 then ex.tvdbSeason else aim.tvdbSeason,
        if aim.traktSeason == 0 then ex.traktSeason else aim.traktSeason)
  }

  /** The row after hs[0] created it and the other writes reached it in order. */
  function After(hs: seq<Write>): Row
    requires hs != []
  {
    if |hs| == 1 then hs[0].row else Merge(After(hs[..|hs| - 1]), hs[|hs| - 1].row, hs[|hs| - 1].how)
  }

  /** The first write creates the row; each other one finds it, a conflicting one by having its id in the
      anchor column. */
  ghost predicate Meets(hs: seq<Write>) {
    && (hs != [] ==> hs[0].how.Inserted?)
    && (forall n :: 1 <= n < |hs| ==> !hs[n].how.Inserted? && (hs[n].how.OnConflict? ==>
         Conflicts(After(hs[..n]), hs[n].row, hs[n].how.anchor)))
  }

  predicate Conflicts(aim: Row, ex: Row, anchor: Anchor) {
    anchor in aim.ids && anchor in ex.ids && aim.ids[anchor] == ex.ids[anchor]
  }

  lemma MeetsPrefix(hs: seq<Write>)
    requires Meets(hs) && |hs| > 1
    ensures var n := |hs| - 1;
            Meets(hs[..n]) && !hs[n].how.Inserted?
            && (hs[n].how.OnConflict? ==> hs[n].how.anchor in After(hs[..n]).ids)
  {
    var n := |hs| - 1;
    forall m | 1 <= m < n ensures hs[..n][..m] == hs[..m] && hs[..n][m] == hs[m] {
    }
  }

  function HasId(c: Column): Write -> bool {
    (w: Write) => c in w.row.ids
  }

  predicate HasKind(w: Write) { w.row.kind != "" && !w.how.ById? }
  predicate HasTmdbSeason(w: Write) { w.row.tmdbSeason != 0 }
  predicate HasTvdbSeason(w: Write) { w.row.tvdbSeason != 0 }
  predicate HasTraktSeason(w: Write) { w.row.traktSeason != 0 }

  /** In every column, also the anchors of the writes, the row has the id of the first write that has one. */
  lemma {:induction false} IdsOfHistory(hs: seq<Write>, c: Column)
    requires hs != [] && Meets(hs)
    ensures var first := First(hs, HasId(c));
            && (c in After(hs).ids <==> first.Some?)
            && (first.Some? ==> After(hs).ids[c] == hs[first.value].row.ids[c])
  {
    if |hs| > 1 {
      MeetsPrefix(hs);
      IdsOfHistory(hs[..|hs| - 1], c);
    } else {
      assert hs[..0] == [];
    }
  }

  /** The type is the first that is not empty and not from an update by key; each season the first that is not
      zero. */
  lemma {:induction false} RestOfHistory(hs: seq<Write>)
    requires hs != [] && hs[0].how.Inserted?
    ensures var kind, tmdb := First(hs, HasKind), First(hs, HasTmdbSeason);
            && After(hs).kind == (if kind.Some? then hs[kind.value].row.kind else "")
            && After(hs).tmdbSeason == (if tmdb.Some? then hs[tmdb.value].row.tmdbSeason else 0)
    ensures var tvdb, trakt := First(hs, HasTvdbSeason), First(hs, HasTraktSeason);
            && After(hs).tvdbSeason == (if tvdb.Some? then hs[tvdb.value].row.tvdbSeason else 0)
            && After(hs).traktSeason == (if trakt.Some? then hs[trakt.value].row.traktSeason else 0)
  {
    if |hs| > 1 {
      RestOfHistory(hs[..|hs| - 1]);
    } else {
      assert hs[..0] == [];
    }
  }

  lemma {:induction false} AfterSnoc(hs: seq<Write>, w: Write)
    requires hs != []
    ensures After(hs + [w]) == Merge(After(hs), w.row, w.how)
  {
    assert (hs + [w])[..|hs|] == hs;
  }

  /** One more write that meets the row. */
  lemma {:induction false} MeetsSnoc(hs: seq<Write>, w: Write)
    requires hs != [] && Meets(hs) && !w.how.Inserted?
    requires w.how.OnConflict? ==> Conflicts(After(hs), w.row, w.how.anchor)
    ensures Meets(hs + [w])
  {
    var all := hs + [w];
    forall n | 1 <= n < |all|
      ensures !all[n].how.Inserted?
              && (all[n].how.OnConflict? ==> Conflicts(After(all[..n]), all[n].row, all[n].how.anchor))
    {
      if n < |hs| {
        assert all[..n] == hs[..n];
      } else {
        assert all[..n] == hs;
      }
    }
  }

  /** An id once set stays, whatever writes follow. */
  lemma {:induction false} IdStays(hs: seq<Write>, more: seq<Write>, c: Column)
    requires hs != [] && Meets(hs) && Meets(hs + more) && c in After(hs).ids
    ensures c in After(hs + more).ids && After(hs + more).ids[c] == After(hs).ids[c]
  {
    IdsOfHistory(hs, c);
    IdsOfHistory(hs + more, c);
    FirstStays(hs, more, HasId(c));
  }
}
