/** How internal/animelists/dataset.go splits a TV season among several anime ("parts"). Items carry no
    mapping list. */
module EpisodeParts {
  import opened Options
  import opened GoStrings
  import opened EpisodeCodec

  /** season is "a" for absolute order, "0" for specials, and otherwise a season number. */
  datatype Item = Item(aniDBId: string, tvdbId: string, season: string, offset: string, before: string)

  datatype EpMap = EpMap(aniDBId: string, tvdbId: string, aniDBSeason: int, tvdbSeason: int,
                         start: int, end: int, offset: int, before: BeforeMap, targets: TargetMap)
  {
    function TvdbStart(): int { start + offset }
    function TvdbEnd(): int { end + offset }
    predicate HasAbsoluteOrder() { tvdbSeason == -1 }
  }

  /** An item whose offset and season parse. The season is kept as text too: parts are counted by it. */
  datatype Part = Part(aniDBId: string, tvdbId: string, season: string, tvdbSeason: int, offset: int, before: BeforeMap)

  function ParseOffset(s: string): Option<GoInt> {
    if s == "" then Some(0) else Atoi(s)
  }

  function ParseSeason(s: string): Option<GoInt> {
    if s == "a" then Some(-1) else Atoi(s)
  }

  /** Items whose offset or season does not parse are skipped. */
  function Parse(x: Item): Option<Part> {
    if ParseOffset(x.offset).None? || ParseSeason(x.season).None? then None
    else Some(Part(x.aniDBId, x.tvdbId, x.season, ParseSeason(x.season).value, ParseOffset(x.offset).value,
                   if x.before == "" then map[] else ScanBefore(map[], x.before)))
  }

  function PartsOf(items: seq<Item>): seq<Part> {
    if items == [] then []
    else
      var r, x := PartsOf(items[..|items| - 1]), Parse(items[|items| - 1]);
      if x.Some? then r + [x.value] else r
  }

  predicate Numbered(season: string) {
    season != "a" && season != "0"
  }

  // ---------- the result, stated without the pass that computes it ----------

  /** Position of the last part of a season. */
  function LastPos(acc: seq<Part>, season: string): (r: Option<nat>)
    ensures r.Some? ==> r.value < |acc| && acc[r.value].season == season
    ensures forall j :: (if r.Some? then r.value else -1) < j < |acc| ==> acc[j].season != season
  {
    if acc == [] then None
    else if acc[|acc| - 1].season == season then Some(|acc| - 1)
    else LastPos(acc[..|acc| - 1], season)
  }

  /** Position of the next part of the same season after position i. */
  function NextPos(acc: seq<Part>, i: nat): (r: Option<nat>)
    requires i < |acc|
    ensures r.Some? ==> i < r.value < |acc| && acc[r.value].season == acc[i].season
    ensures forall j :: i < j < (if r.Some? then r.value else |acc|) ==> acc[j].season != acc[i].season
    decreases |acc|
  {
    if i == |acc| - 1 then None
    else
      var n := |acc| - 1;
      var r := NextPos(acc[..n], i);
      if r.Some? then r else if acc[n].season == acc[i].season then Some(n) else None
  }

  /** The map of the i-th part. In a numbered season it ends where its successor begins, and it has a
      start as soon as the season has two parts. */
  function Expected(acc: seq<Part>, i: nat): EpMap
    requires i < |acc|
  {
    var x := acc[i];
    var next := if Numbered(x.season) then NextPos(acc, i) else None;
    var split := Numbered(x.season) && (next.Some? || LastPos(acc[..i], x.season).Some?);
    EpMap(x.aniDBId, x.tvdbId, 1, x.tvdbSeason, if x.season == "a" || split then 1 else 0,
          if next.Some? then acc[next.value].offset - x.offset else 0, x.offset, x.before, map[])
  }

  // ---------- the result in terms of the items ----------

  /** The item's offset as a number; none given means 0. */
  predicate OffsetIs(x: Item, k: int) {
    if x.offset == "" then k == 0 else Atoi(x.offset).Some? && Atoi(x.offset).value == k
  }

  predicate SeasonIs(x: Item, n: int) {
    if x.season == "a" then n == -1 else Atoi(x.season).Some? && Atoi(x.season).value == n
  }

  predicate HasNumbers(x: Item) {
    (x.offset == "" || Atoi(x.offset).Some?) && (x.season == "a" || Atoi(x.season).Some?)
  }

  /** The items that get a map: those whose offset and season are numbers where they have to be. */
  function ReadableItems(items: seq<Item>): (xs: seq<Item>)
    ensures forall x :: x in xs ==> HasNumbers(x)
  {
    if items == [] then []
    else ReadableItems(items[..|items| - 1])
         + if HasNumbers(items[|items| - 1]) then [items[|items| - 1]] else []
  }

  predicate FromItem(p: Part, x: Item) {
    && p.aniDBId == x.aniDBId && p.tvdbId == x.tvdbId && p.season == x.season
    && SeasonIs(x, p.tvdbSeason) && OffsetIs(x, p.offset)
    && p.before == (if x.before == "" then map[] else ScanBefore(map[], x.before))
  }

  lemma {:induction false} PartsComeFromItems(items: seq<Item>)
    ensures |PartsOf(items)| == |ReadableItems(items)|
    ensures forall i :: 0 <= i < |PartsOf(items)| ==> FromItem(PartsOf(items)[i], ReadableItems(items)[i])
  {
    if items != [] {
      PartsComeFromItems(items[..|items| - 1]);
    }
  }

  /** Item j is the next of the same season after item i. */
  predicate Follows(xs: seq<Item>, i: nat, j: nat)
    requires i < |xs| && j < |xs|
  {
    i < j && xs[j].season == xs[i].season && forall k :: i < k < j ==> xs[k].season != xs[i].season
  }

  /** The map of item i: its ids, season, offset and special episodes; a start if the order is absolute or its
      numbered season has another item; and an end if one follows, where that one begins. */
  ghost predicate Describes(xs: seq<Item>, i: nat, m: EpMap)
    requires i < |xs|
  {
    Carries(xs[i], m) && StartsWell(xs, i, m) && EndsWell(xs, i, m)
  }

  predicate Carries(x: Item, m: EpMap) {
    && m.aniDBId == x.aniDBId && m.tvdbId == x.tvdbId && m.aniDBSeason == 1 && m.targets == map[]
    && SeasonIs(x, m.tvdbSeason) && OffsetIs(x, m.offset)
    && m.before == (if x.before == "" then map[] else ScanBefore(map[], x.before))
  }

  predicate HasSibling(xs: seq<Item>, i: nat)
    requires i < |xs|
  {
    exists j :: 0 <= j < |xs| && j != i && xs[j].season == xs[i].season
  }

  predicate StartsWell(xs: seq<Item>, i: nat, m: EpMap)
    requires i < |xs|
  {
    m.start == if xs[i].season == "a" || (xs[i].season != "0" && HasSibling(xs, i)) then 1 else 0
  }

  ghost predicate EndsWell(xs: seq<Item>, i: nat, m: EpMap)
    requires i < |xs|
  {
    var season := xs[i].season;
    && (season == "a" || season == "0" ==> m.end == 0)
    && ((forall j :: i < j < |xs| ==> xs[j].season != season) ==> m.end == 0)
    && (season != "a" && season != "0" ==>
          forall j, k :: i < j < |xs| && Follows(xs, i, j) && OffsetIs(xs[j], k) ==> m.end == k - m.offset)
  }

  ghost predicate AllFromItems(acc: seq<Part>, xs: seq<Item>) {
    |acc| == |xs| && forall j :: 0 <= j < |acc| ==> FromItem(acc[j], xs[j])
  }

  lemma {:induction false} ExpectedStarts(acc: seq<Part>, xs: seq<Item>, i: nat)
    requires AllFromItems(acc, xs) && i < |acc|
    ensures StartsWell(xs, i, Expected(acc, i))
  {
    var season := acc[i].season;
    assert season == xs[i].season;
    var next, last := NextPos(acc, i), LastPos(acc[..i], season);
    if HasSibling(xs, i) {
      var j :| 0 <= j < |xs| && j != i && xs[j].season == xs[i].season;
      assert acc[j].season == season;
      assert j < i ==> acc[..i][j] == acc[j];
      assert next.Some? || last.Some?;
    } else {
      assert next.Some? ==> xs[next.value].season == season;
      assert last.Some? ==> acc[last.value].season == season && xs[last.value].season == season;
    }
  }

  lemma {:induction false} ExpectedEnds(acc: seq<Part>, xs: seq<Item>, i: nat)
    requires AllFromItems(acc, xs) && i < |acc|
    ensures EndsWell(xs, i, Expected(acc, i))
  {
    var next := NextPos(acc, i);
    assert acc[i].season == xs[i].season;
    assert next.Some? ==> acc[next.value].season == xs[next.value].season;
    forall j, k | i < j < |xs| && Follows(xs, i, j) && OffsetIs(xs[j], k)
      ensures next == Some(j) && acc[j].offset == k
    {
      assert FromItem(acc[j], xs[j]);
    }
  }

  lemma {:induction false} ExpectedDescribes(items: seq<Item>, i: nat)
    requires i < |PartsOf(items)|
    ensures |PartsOf(items)| == |ReadableItems(items)|
    ensures Describes(ReadableItems(items), i, Expected(PartsOf(items), i))
  {
    PartsComeFromItems(items);
    ExpectedStarts(PartsOf(items), ReadableItems(items), i);
    ExpectedEnds(PartsOf(items), ReadableItems(items), i);
    assert FromItem(PartsOf(items)[i], ReadableItems(items)[i]);
  }

  /** Items as they are printed: a season that is "a" or a number, an offset that is empty or a number. Every one of
      them gets its map. */
  lemma {:induction false} PrintedItems(items: seq<Item>, ns: seq<GoInt>, ks: seq<GoInt>)
    requires |ns| == |ks| == |items|
    requires forall i :: 0 <= i < |items| ==> items[i].season == "a" || items[i].season == Itoa(ns[i])
    requires forall i :: 0 <= i < |items| ==> items[i].offset == "" || items[i].offset == Itoa(ks[i])
    ensures ReadableItems(items) == items
    ensures forall i :: 0 <= i < |items| ==>
              && SeasonIs(items[i], if items[i].season == "a" then -1 else ns[i])
              && OffsetIs(items[i], if items[i].offset == "" then 0 else ks[i])
  {
    forall i | 0 <= i < |items|
      ensures HasNumbers(items[i])
      ensures SeasonIs(items[i], if items[i].season == "a" then -1 else ns[i])
      ensures OffsetIs(items[i], if items[i].offset == "" then 0 else ks[i])
    {
      AtoiItoa(ns[i]);
      AtoiItoa(ks[i]);
    }
    AllReadable(items);
  }

  lemma {:induction false} AllReadable(items: seq<Item>)
    requires forall i :: 0 <= i < |items| ==> HasNumbers(items[i])
    ensures ReadableItems(items) == items
  {
    if items != [] {
      AllReadable(items[..|items| - 1]);
    }
  }

  // ---------- the pass ----------

  function PartKey(season: string, part: int): string {
    season + ":" + Itoa(part)
  }

  lemma NoColon(season: string)
    requires Atoi(season).Some?
    ensures ':' !in season
  {
    if season[0] == '-' || season[0] == '+' {
      NumberHasDigits(season[1..]);
      assert season == [season[0]] + season[1..];
    } else {
      NumberHasDigits(season);
    }
  }

  lemma {:induction false} NumberHasDigits(s: string)
    requires Number(s).Some?
    ensures forall c :: c in s ==> IsDigit(c)
  {
    if s != "" {
      NumberHasDigits(s[..|s| - 1]);
      assert s == s[..|s| - 1] + [s[|s| - 1]];
    }
  }

  lemma PartKeyInjective(s: string, p: int, t: string, q: int)
    requires ':' !in s && ':' !in t && PartKey(s, p) == PartKey(t, q)
    ensures s == t && p == q
  {
    CutAtChar(s, ':', Itoa(p));
    CutAtChar(t, ':', Itoa(q));
    ItoaInjective(p, q);
  }

  /** What the two maps of the pass know: the number of parts of every numbered season met so far, and
      the position of its last part. */
  ghost predicate Indexed(acc: seq<Part>, lastPart: map<string, int>, seenPart: map<string, nat>) {
    && (forall k :: k in lastPart <==> Numbered(k) && LastPos(acc, k).Some?)
    && (forall k :: k in lastPart ==> PartIndexed(acc, k, lastPart[k], seenPart))
  }

  ghost predicate PartIndexed(acc: seq<Part>, k: string, part: int, seenPart: map<string, nat>) {
    && ':' !in k && part >= 1
    && PartKey(k, part) in seenPart
    && LastPos(acc, k) == Some(seenPart[PartKey(k, part)])
  }

  /** Counting a new part at the end of acc. */
  lemma IndexedAppend(acc: seq<Part>, x: Part, lastPart: map<string, int>, seenPart: map<string, nat>, part: int)
    requires Indexed(acc, lastPart, seenPart)
    requires Numbered(x.season) && ':' !in x.season
    requires part == if x.season in lastPart then lastPart[x.season] + 1 else 1
    ensures Indexed(acc + [x], lastPart[x.season := part], seenPart[PartKey(x.season, part) := |acc|])
  {
    var acc', last' := acc + [x], lastPart[x.season := part];
    var seen' := seenPart[PartKey(x.season, part) := |acc|];
    assert acc'[..|acc|] == acc;
    forall k | k in last' ensures PartIndexed(acc', k, last'[k], seen') {
      if k != x.season {
        assert PartIndexed(acc, k, lastPart[k], seenPart);
        if PartKey(k, last'[k]) == PartKey(x.season, part) {
          PartKeyInjective(k, last'[k], x.season, part);
        }
      }
    }
  }

  lemma IndexedSkip(acc: seq<Part>, x: Part, lastPart: map<string, int>, seenPart: map<string, nat>)
    requires Indexed(acc, lastPart, seenPart) && !Numbered(x.season)
    ensures Indexed(acc + [x], lastPart, seenPart)
  {
    assert (acc + [x])[..|acc|] == acc;
    forall k | k in lastPart ensures PartIndexed(acc + [x], k, lastPart[k], seenPart) {
      assert PartIndexed(acc, k, lastPart[k], seenPart);
    }
  }

  lemma {:induction false} NextPosAppend(acc: seq<Part>, x: Part, j: nat)
    requires j < |acc|
    ensures NextPos(acc + [x], j)
            == if NextPos(acc, j).Some? then NextPos(acc, j)
               else if x.season == acc[j].season then Some(|acc|) else None
  {
    assert (acc + [x])[..|acc|] == acc;
  }

  lemma {:induction false} LastHasNoNext(acc: seq<Part>, j: nat)
    requires j < |acc|
    ensures NextPos(acc, j).None? <==> LastPos(acc, acc[j].season) == Some(j)
  {
    var last := LastPos(acc, acc[j].season).value;
    if NextPos(acc, j).Some? {
      assert NextPos(acc, j).value <= last;
    }
  }

  /** A new part changes only its predecessor in the same numbered season. */
  lemma {:induction false} ExpectedAppend(acc: seq<Part>, x: Part, j: nat)
    requires j < |acc|
    ensures var was, now := Expected(acc, j), Expected(acc + [x], j);
            if Numbered(x.season) && LastPos(acc, x.season) == Some(j)
            then now == was.(start := 1, end := x.offset - acc[j].offset) && was.end == 0
            else now == was
  {
    assert (acc + [x])[..j] == acc[..j];
    NextPosAppend(acc, x, j);
    LastHasNoNext(acc, j);
  }

  /** The map of a part when it is met. */
  function Fresh(x: Part): EpMap {
    EpMap(x.aniDBId, x.tvdbId, 1, x.tvdbSeason, if x.season == "a" then 1 else 0, 0, x.offset, x.before, map[])
  }

  lemma {:induction false} ExpectedLast(acc: seq<Part>, x: Part)
    ensures Expected(acc + [x], |acc|)
            == if Numbered(x.season) && LastPos(acc, x.season).Some? then Fresh(x).(start := 1) else Fresh(x)
  {
    assert (acc + [x])[..|acc|] == acc;
  }

  ghost predicate Tabled(maps: seq<EpMap>, acc: seq<Part>) {
    |maps| == |acc| && forall j :: 0 <= j < |acc| ==> maps[j] == Expected(acc, j)
  }

  /** The link of the newest part, which is the last entry, to the last part of its season before it. */
  method LinkPart(maps: seq<EpMap>, lastIdx: nat) returns (r: seq<EpMap>)
    requires lastIdx < |maps| - 1
    ensures |r| == |maps| && r[|maps| - 1] == maps[|maps| - 1].(start := 1)
    ensures r[lastIdx] == Closed(maps[lastIdx], maps[|maps| - 1].offset)
    ensures forall j :: 0 <= j < |maps| - 1 && j != lastIdx ==> r[j] == maps[j]
  {
    var n := |maps| - 1;
    r := maps[n := maps[n].(start := 1)];
    var last := r[lastIdx];
    if last.start == 0 { last := last.(start := 1); }
    if last.end == 0 { last := last.(end := r[n].offset - last.offset); }
    r := r[lastIdx := last];
  }

  /** A map that had no start or no end yet, closed before the next part's offset. */
  function Closed(m: EpMap, next: int): EpMap {
    m.(start := if m.start == 0 then 1 else m.start, end := if m.end == 0 then next - m.offset else m.end)
  }

  /** With that link the maps are again the ones defined for all parts. */
  lemma {:induction false} LinkKeepsTable(maps: seq<EpMap>, r: seq<EpMap>, lastIdx: nat, acc: seq<Part>, x: Part)
    requires Tabled(maps, acc) && Numbered(x.season) && LastPos(acc, x.season) == Some(lastIdx)
    requires |r| == |acc| + 1 && r[|acc|] == Fresh(x).(start := 1)
    requires r[lastIdx] == Closed(maps[lastIdx], x.offset)
    requires forall j :: 0 <= j < |acc| && j != lastIdx ==> r[j] == maps[j]
    ensures Tabled(r, acc + [x])
  {
    ExpectedAppend(acc, x, lastIdx);
    ExpectedLast(acc, x);
    forall j | 0 <= j < |acc| ensures r[j] == Expected(acc + [x], j) {
      ExpectedAppend(acc, x, j);
    }
  }

  method PrepareAniDBTVDBEpisodeMaps(items: seq<Item>) returns (maps: seq<EpMap>)
    ensures Tabled(maps, PartsOf(items))
    ensures |maps| == |ReadableItems(items)|
    ensures forall i :: 0 <= i < |maps| ==> Describes(ReadableItems(items), i, maps[i])
  {
    maps := [];
    var lastPart: map<string, int>, seenPart: map<string, nat> := map[], map[];
    ghost var acc: seq<Part> := [];
    for i := 0 to |items|
      invariant acc == PartsOf(items[..i])
      invariant Tabled(maps, acc) && Indexed(acc, lastPart, seenPart)
    {
      var item := items[i];
      assert items[..i + 1][..i] == items[..i];
      var offset, season := ParseOffset(item.offset), ParseSeason(item.season);
      if offset.None? || season.None? { continue; }
      var before: BeforeMap := map[];
      if item.before != "" { before := BeforeScan(map[], item.before); }
      var x := Part(item.aniDBId, item.tvdbId, item.season, season.value, offset.value, before);
      maps, lastPart, seenPart := AddPart(maps, lastPart, seenPart, x, acc);
      acc := acc + [x];
    }
    assert items[..|items|] == items;
    PartsComeFromItems(items);
    forall i | 0 <= i < |maps| ensures Describes(ReadableItems(items), i, maps[i]) {
      ExpectedDescribes(items, i);
    }
  }

  method AddPart(maps: seq<EpMap>, lastPart: map<string, int>, seenPart: map<string, nat>, x: Part, ghost acc: seq<Part>)
    returns (maps': seq<EpMap>, lastPart': map<string, int>, seenPart': map<string, nat>)
    requires Tabled(maps, acc) && Indexed(acc, lastPart, seenPart)
    requires x.season == "a" || Atoi(x.season).Some?
    ensures Tabled(maps', acc + [x]) && Indexed(acc + [x], lastPart', seenPart')
  {
    var n := |maps|;
    maps', lastPart', seenPart' := maps + [Fresh(x)], lastPart, seenPart;
    assert maps'[..n] == maps;
    if x.season == "a" || x.season == "0" {
      IndexedSkip(acc, x, lastPart, seenPart);
    } else {
      NoColon(x.season);
      var part := 1;
      if x.season in lastPart { part := lastPart[x.season] + 1; }
      IndexedAppend(acc, x, lastPart, seenPart, part);
      lastPart' := lastPart[x.season := part];
      seenPart' := seenPart[PartKey(x.season, part) := n];
      if part > 1 {
        var key := PartKey(x.season, part - 1);
        if key == PartKey(x.season, part) { PartKeyInjective(x.season, part - 1, x.season, part); }
        assert PartIndexed(acc, x.season, part - 1, seenPart);
        maps' := LinkPart(maps', seenPart'[key]);
        LinkKeepsTable(maps, maps', seenPart'[key], acc, x);
        return;
      }
    }
    TabledAppend(maps, acc, x);
  }

  /** A part that has no earlier part in its season leaves the table as it is. */
  lemma {:induction false} TabledAppend(maps: seq<EpMap>, acc: seq<Part>, x: Part)
    requires Tabled(maps, acc) && (!Numbered(x.season) || LastPos(acc, x.season).None?)
    ensures Tabled(maps + [Fresh(x)], acc + [x])
  {
    ExpectedLast(acc, x);
    forall j | 0 <= j < |maps| ensures maps[j] == Expected(acc + [x], j) {
      ExpectedAppend(acc, x, j);
    }
  }
}
