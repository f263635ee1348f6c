/** The parts of one numbered TV season tile it: which TV episode is reached from which part, through
    the lookup of internal/anidb/tvdb_episode_map.db.go. */
module EpisodeCoverage {
  import opened Options
  import opened GoStrings
  import opened MapTexts
  import opened EpisodeCodec
  import opened EpisodeParts

  /** getTMDBEpisodes. */
  function Episodes(m: EpMap, ep: int): seq<int> {
    if ep in m.targets then m.targets[ep]
    else if m.HasAbsoluteOrder() then [ep + m.offset]
    else if m.end != 0 && ep > m.end then []
    else if m.start != 0 && ep < m.start then []
    else [ep + m.offset]
  }

  // ---------- TV episodes of items and of listed episodes ----------

  /** A part in absolute order reaches, from every anime episode, the TV episode that is its offset further on; a
      part of a TV season does so until the next part of its numbered season begins. */
  lemma {:induction false} EpisodeOfPart(acc: seq<Part>, i: nat, ep: int)
    requires i < |acc| && ep >= 1
    ensures var next := NextPos(acc, i);
            Episodes(Expected(acc, i), ep)
            == if Numbered(acc[i].season) && acc[i].tvdbSeason != -1 && next.Some?
                  && acc[next.value].offset != acc[i].offset && acc[i].offset + ep > acc[next.value].offset
               then [] else [acc[i].offset + ep]
  {
  }

  /** A list of TV episodes read from a printed text is what its episode is mapped to, whatever the order the map was
      printed in and whatever else the map says. */
  lemma EpisodesOfList(m: EpMap, targets: TargetMap, order: seq<GoInt>, ep: GoInt)
    requires Enumerates(order, targets.Keys) && m.targets == ScanMap(map[], MapText(targets, order))
    requires ep in targets && ep >= 0 && targets[ep] != []
    ensures Episodes(m, ep) == targets[ep]
  {
    MapRoundTrip(targets, order);
    assert ep in Kept(targets, Readable(targets));
  }

  // ---------- lookup by anime episode ----------

  /** The switch of GetByAnidbEpisode. */
  predicate Covers(m: EpMap, ep: int) {
    if m.start > 0 && m.end > 0 then m.start <= ep <= m.end
    else if m.start > 0 then m.start <= ep
    else m.end > 0 && ep <= m.end
  }

  /** Maps of TV season 0 (the specials) and of absolute order are passed over. */
  predicate Found(m: EpMap, ep: int) {
    m.tvdbSeason > 0 && Covers(m, ep)
  }

  /** A map of a numbered TV season is found for an episode that is not outside the bounds it has, of which it must
      have one. */
  lemma FoundWhen(m: EpMap, ep: int)
    ensures Found(m, ep) <==> m.tvdbSeason >= 1 && (m.start >= 1 || m.end >= 1)
                              && !(m.start >= 1 && ep < m.start) && !(m.end >= 1 && ep > m.end)
  {
  }

  /** The first map found for the episode. */
  method GetByAnidbEpisode(ms: seq<EpMap>, ep: int) returns (r: Option<nat>)
    ensures r.None? <==> ep == -1 || forall j :: 0 <= j < |ms| ==> !Found(ms[j], ep)
    ensures r.Some? ==> r.value < |ms| && Found(ms[r.value], ep) && forall j :: 0 <= j < r.value ==> !Found(ms[j], ep)
  {
    if ep == -1 { return None; }
    for i := 0 to |ms|
      invariant forall j :: 0 <= j < i ==> !Found(ms[j], ep)
    {
      var m := ms[i];
      if m.tvdbSeason <= 0 { continue; }
      if m.start > 0 && m.end > 0 {
        if ep >= m.start && ep <= m.end { return Some(i); }
      } else if m.start > 0 {
        if m.start <= ep { return Some(i); }
      } else if m.end > 0 {
        if ep <= m.end { return Some(i); }
      }
    }
    return None;
  }

  /** A map that is found for an episode is a map that has a TV episode for it. */
  ghost predicate LookupsAgree(m: EpMap) {
    forall ep :: ep >= 1 ==> (Found(m, ep) <==> Episodes(m, ep) != [])
  }

  /** The two lookups agree on every regular episode of a map without a target list under an exact condition.
      In a numbered TV season two kinds of map are out: one with neither start nor end is never found, though it
      has a TV episode for each; and a started one with a negative end is found, though it has none. Any other
      map is never found, so it must have no TV episode at all. */
  lemma LookupsAgreeWhen(m: EpMap)
    requires m.targets == map[]
    ensures LookupsAgree(m)
            <==> if m.tvdbSeason > 0 then !(m.start <= 0 && m.end == 0) && !(m.start > 0 && m.end < 0)
                 else !m.HasAbsoluteOrder() && (m.end < 0 || 0 < m.end < m.start)
  {
    if m.tvdbSeason > 0 {
      if m.start <= 0 && m.end == 0 {
        assert Episodes(m, 1) != [] && !Found(m, 1);
      } else if m.start > 0 && m.end < 0 {
        assert Episodes(m, m.start) == [] && Found(m, m.start);
      }
    } else if m.HasAbsoluteOrder() || (m.end == 0 && m.start <= 0) {
      assert Episodes(m, 1) != [] && !Found(m, 1);
    } else if !(m.end < 0 || 0 < m.end < m.start) {
      var ep := if m.end == 0 then m.start else m.end;
      assert Episodes(m, ep) != [] && !Found(m, ep);
    }
  }

  lemma {:induction false} PartsCarrySeasons(items: seq<Item>)
    ensures forall x :: x in PartsOf(items) ==> ParseSeason(x.season) == Some(x.tvdbSeason)
  {
    if items != [] {
      PartsCarrySeasons(items[..|items| - 1]);
    }
  }

  /** For every part of every list of items: in a numbered TV season the lookups agree exactly when the season has
      another part and the next part does not start before this one. The other parts are never found, and only
      one whose successor starts before it has no TV episodes either. */
  lemma {:induction false} PartLookupsAgreeWhen(items: seq<Item>, i: nat)
    requires i < |PartsOf(items)|
    ensures var acc := PartsOf(items);
            var x, next := acc[i], NextPos(acc, i);
            LookupsAgree(Expected(acc, i))
            <==> if x.tvdbSeason <= 0 then
                   Numbered(x.season) && x.tvdbSeason != -1 && next.Some? && acc[next.value].offset < x.offset
                 else if next.Some? then x.offset <= acc[next.value].offset
                 else LastPos(acc[..i], x.season).Some?
  {
    var acc := PartsOf(items);
    PartsCarrySeasons(items);
    assert acc[i] in acc && Atoi("0") == Some(0);
    LookupsAgreeWhen(Expected(acc, i));
  }

  // ---------- neighbours ----------

  /** Within a numbered season each part ends, in TV episodes, right before the next one starts. */
  lemma {:induction false} NeighboursTile(acc: seq<Part>, i: nat)
    requires i < |acc| && Numbered(acc[i].season) && NextPos(acc, i).Some?
    ensures Expected(acc, i).TvdbEnd() + 1 == Expected(acc, NextPos(acc, i).value).TvdbStart()
    ensures Expected(acc, i).TvdbStart() == acc[i].offset + 1
  {
    var j := NextPos(acc, i).value;
    assert acc[..j][i] == acc[i];
  }

  // ---------- a whole season ----------

  /** Positions of the parts of a season, in order. */
  function Positions(acc: seq<Part>, season: string): (ps: seq<nat>)
    ensures forall j :: 0 <= j < |ps| ==> ps[j] < |acc| && acc[ps[j]].season == season
  {
    if acc == [] then []
    else
      var n := |acc| - 1;
      Positions(acc[..n], season) + (if acc[n].season == season then [n] else [])
  }

  function SeasonMaps(acc: seq<Part>, ps: seq<nat>): (r: seq<EpMap>)
    requires forall j :: 0 <= j < |ps| ==> ps[j] < |acc|
    ensures |r| == |ps| && forall j :: 0 <= j < |ps| ==> r[j] == Expected(acc, ps[j])
  {
    if ps == [] then [] else SeasonMaps(acc, ps[..|ps| - 1]) + [Expected(acc, ps[|ps| - 1])]
  }

  function Offsets(ms: seq<EpMap>): (r: seq<int>)
    ensures |r| == |ms| && forall j :: 0 <= j < |r| ==> r[j] == ms[j].offset
  {
    if ms == [] then [] else [ms[0].offset] + Offsets(ms[1..])
  }

  /** Maps chained by their offsets: each ends where the next begins, the last is open. */
  ghost predicate Chained(ms: seq<EpMap>) {
    && (forall j :: 0 <= j < |ms| ==> ms[j].targets == map[] && !ms[j].HasAbsoluteOrder() && ms[j].start <= 1)
    && (forall j :: 0 <= j < |ms| - 1 ==> ms[j].end == ms[j + 1].offset - ms[j].offset)
    && (ms != [] ==> ms[|ms| - 1].end == 0)
  }

  /** The positions ps of a season are one another's neighbours. */
  ghost predicate Neighbours(acc: seq<Part>, ps: seq<nat>) {
    && (forall j :: 0 <= j < |ps| ==> ps[j] < |acc|)
    && (forall j, k :: 0 <= j < k < |ps| && k == j + 1 ==> NextPos(acc, ps[j]) == Some(ps[k]))
    && (ps != [] ==> NextPos(acc, ps[|ps| - 1]).None?)
  }

  lemma {:induction false} PositionsAreNeighbours(acc: seq<Part>, season: string)
    ensures Neighbours(acc, Positions(acc, season))
  {
    if acc != [] {
      var n := |acc| - 1;
      var init := acc[..n];
      PositionsAreNeighbours(init, season);
      var ps := Positions(init, season);
      assert init + [acc[n]] == acc;
      forall j | 0 <= j < |ps| ensures NextPos(acc, ps[j])
        == if j < |ps| - 1 then Some(ps[j + 1]) else if acc[n].season == season then Some(n) else None
      {
        NextPosAppend(init, acc[n], ps[j]);
      }
    }
  }

  /** The parts of a numbered season form a chain ("-1" as a season number means absolute order). */
  lemma {:induction false} SeasonIsChained(acc: seq<Part>, season: string)
    requires Numbered(season) && forall x :: x in acc && x.season == season ==> x.tvdbSeason != -1
    ensures Chained(SeasonMaps(acc, Positions(acc, season)))
  {
    PositionsAreNeighbours(acc, season);
    var ps := Positions(acc, season);
    forall j | 0 <= j < |ps| ensures acc[ps[j]] in acc { }
  }

  /** Some regular episode of the part is TV episode t, and nothing else. */
  ghost predicate Yields(m: EpMap, t: int) {
    exists ep :: ep >= 1 && Episodes(m, ep) == [t]
  }

  /** Number of parts that yield TV episode t. */
  ghost function Yielding(ms: seq<EpMap>, t: int): nat {
    if ms == [] then 0 else (if Yields(ms[0], t) then 1 else 0) + Yielding(ms[1..], t)
  }

  /** Whether the step from offset a to the following offset b makes t ambiguous: equal offsets leave
      the earlier part without an end, and a falling offset leaves the later part to repeat episodes. */
  predicate Overlaps(a: int, b: int, t: int) {
    if a == b then t > a else b < t <= a
  }

  function Overlapping(offs: seq<int>, t: int): nat {
    if |offs| < 2 then 0
    else (if Overlaps(offs[0], offs[1], t) then 1 else 0) + Overlapping(offs[1..], t)
  }

  lemma YieldsWhen(m: EpMap, t: int)
    requires m.targets == map[] && !m.HasAbsoluteOrder() && m.start <= 1
    ensures Yields(m, t) <==> t > m.offset && (m.end == 0 || t - m.offset <= m.end)
    ensures forall ep :: ep >= 1 && Episodes(m, ep) == [t] ==> ep == t - m.offset
  {
    if t > m.offset && (m.end == 0 || t - m.offset <= m.end) {
      assert Episodes(m, t - m.offset) == [t];
    }
  }

  lemma ChainedTail(ms: seq<EpMap>)
    requires Chained(ms) && |ms| > 1
    ensures Chained(ms[1..])
  {
    var tail := ms[1..];
    forall j | 0 <= j < |tail| - 1 ensures tail[j].end == tail[j + 1].offset - tail[j].offset {
      assert tail[j] == ms[j + 1] && tail[j + 1] == ms[j + 2];
    }
  }

  /** Coverage, for every list of parts and every TV episode after the first offset: one part yields
      it, plus one more for every ambiguous step. */
  lemma {:induction false} YieldingCount(ms: seq<EpMap>, t: int)
    requires ms != [] && Chained(ms)
    ensures Yielding(ms, t) == (if t > ms[0].offset then 1 else 0) + Overlapping(Offsets(ms), t)
  {
    YieldsWhen(ms[0], t);
    if |ms| > 1 {
      var tail := ms[1..];
      ChainedTail(ms);
      YieldingCount(tail, t);
      assert Offsets(ms)[1..] == Offsets(tail);
    } else {
      assert ms[1..] == [];
    }
  }

  /** Every step goes up, or goes down without ever having been above the first offset. */
  predicate Unambiguous(offs: seq<int>) {
    forall j :: 0 <= j < |offs| - 1 ==> offs[j] < offs[j + 1] || offs[j + 1] < offs[j] <= offs[0]
  }

  lemma {:induction false} OverlapCounts(offs: seq<int>, j: nat, t: int)
    requires j < |offs| - 1 && Overlaps(offs[j], offs[j + 1], t)
    ensures Overlapping(offs, t) >= 1
  {
    if j > 0 {
      OverlapCounts(offs[1..], j - 1, t);
    }
  }

  lemma {:induction false} NoOverlap(offs: seq<int>, t: int)
    requires forall j :: 0 <= j < |offs| - 1 ==> !Overlaps(offs[j], offs[j + 1], t)
    ensures Overlapping(offs, t) == 0
  {
    if |offs| >= 2 {
      forall j | 0 <= j < |offs[1..]| - 1 ensures !Overlaps(offs[1..][j], offs[1..][j + 1], t) {
        assert offs[1..][j] == offs[j + 1] && offs[1..][j + 1] == offs[j + 2];
      }
      NoOverlap(offs[1..], t);
    }
  }

  ghost predicate ExactlyOneEach(ms: seq<EpMap>)
    requires ms != []
  {
    forall t :: t > ms[0].offset ==> Yielding(ms, t) == 1
  }

  /** The parts of a season yield every TV episode after the first offset exactly once if and only if
      the offsets are unambiguous; strictly increasing offsets are. */
  lemma {:induction false} SeasonCoverage(acc: seq<Part>, season: string, ms: seq<EpMap>)
    requires Numbered(season) && forall x :: x in acc && x.season == season ==> x.tvdbSeason != -1
    requires ms == SeasonMaps(acc, Positions(acc, season)) && ms != []
    ensures ExactlyOneEach(ms) <==> Unambiguous(Offsets(ms))
    ensures forall t :: t > ms[0].offset ==> Yielding(ms, t) >= 1
  {
    SeasonIsChained(acc, season);
    ChainCoverage(ms);
  }

  lemma {:induction false} UnambiguousCount(ms: seq<EpMap>, t: int)
    requires ms != [] && Chained(ms) && Unambiguous(Offsets(ms)) && t > ms[0].offset
    ensures Yielding(ms, t) == 1
  {
    YieldingCount(ms, t);
    NoOverlap(Offsets(ms), t);
  }

  lemma {:induction false} AmbiguousEpisode(ms: seq<EpMap>) returns (t: int)
    requires ms != [] && Chained(ms) && !Unambiguous(Offsets(ms))
    ensures t > ms[0].offset && Yielding(ms, t) > 1
  {
    var offs := Offsets(ms);
    var j :| 0 <= j < |offs| - 1 && !(offs[j] < offs[j + 1] || offs[j + 1] < offs[j] <= offs[0]);
    t := if offs[j] > offs[0] then (if offs[j] == offs[j + 1] then offs[j] + 1 else offs[j]) else offs[0] + 1;
    assert Overlaps(offs[j], offs[j + 1], t);
    OverlapCounts(offs, j, t);
    YieldingCount(ms, t);
  }

  lemma {:induction false} ChainCoverage(ms: seq<EpMap>)
    requires ms != [] && Chained(ms)
    ensures ExactlyOneEach(ms) <==> Unambiguous(Offsets(ms))
    ensures forall t :: t > ms[0].offset ==> Yielding(ms, t) >= 1
  {
    forall t | t > ms[0].offset ensures Yielding(ms, t) >= 1 {
      YieldingCount(ms, t);
    }
    if Unambiguous(Offsets(ms)) {
      forall t | t > ms[0].offset ensures Yielding(ms, t) == 1 {
        UnambiguousCount(ms, t);
      }
    } else {
      var t := AmbiguousEpisode(ms);
    }
  }
}
