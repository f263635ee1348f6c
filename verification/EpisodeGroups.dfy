/** Grouping episode maps by anime, with its lazily built index: AniDBTVDBEpisodeMapsResult of
    internal/anidb/tvdb_episode_map.db.go. */
module EpisodeGroups {
  import opened Options
  import opened GoStrings
  import opened EpisodeParts

  datatype Group = Group(aniDBId: string, part: nat, maps: seq<EpMap>)

  function Flatten(gs: seq<Group>): seq<EpMap> {
    if gs == [] then [] else Flatten(gs[..|gs| - 1]) + gs[|gs| - 1].maps
  }

  function FilterId(ms: seq<EpMap>, id: string): seq<EpMap> {
    if ms == [] then []
    else FilterId(ms[..|ms| - 1], id) + (if ms[|ms| - 1].aniDBId == id then [ms[|ms| - 1]] else [])
  }

  /** A group counts for the part number of its first map's TV season. */
  predicate Eligible(m: EpMap) {
    m.tvdbSeason > 0 && m.aniDBSeason > 0
  }

  predicate EligibleIn(g: Group, season: int) {
    g.maps != [] && Eligible(g.maps[0]) && g.maps[0].tvdbSeason == season
  }

  function CountEligible(gs: seq<Group>, season: int): nat {
    if gs == [] then 0
    else CountEligible(gs[..|gs| - 1], season) + (if EligibleIn(gs[|gs| - 1], season) then 1 else 0)
  }

  /** Runs of one id, none empty, neighbours different. */
  ghost predicate Runs(gs: seq<Group>) {
    && (forall g :: 0 <= g < |gs| ==> gs[g].maps != [] && forall m :: m in gs[g].maps ==> m.aniDBId == gs[g].aniDBId)
    && (forall g :: 0 <= g < |gs| - 1 ==> gs[g].aniDBId != gs[g + 1].aniDBId)
  }

  /** The part is one more than the number of earlier eligible groups of the season, or 0. */
  function PartOf(gs: seq<Group>, g: nat): nat
    requires g < |gs| && gs[g].maps != []
  {
    var m := gs[g].maps[0];
    if Eligible(m) then CountEligible(gs[..g], m.tvdbSeason) + 1 else 0
  }

  ghost predicate PartsNumbered(gs: seq<Group>) {
    forall g :: 0 <= g < |gs| ==> gs[g].maps != [] && gs[g].part == PartOf(gs, g)
  }

  /** Everything GroupByAniDBId promises about its result. */
  ghost predicate Grouping(gs: seq<Group>, ms: seq<EpMap>) {
    Flatten(gs) == ms && Runs(gs) && PartsNumbered(gs)
  }

  ghost predicate IndexOf(idx: map<string, nat>, gs: seq<Group>) {
    && (forall id :: id in idx ==> idx[id] < |gs| && gs[idx[id]].aniDBId == id)
    && (forall g :: 0 <= g < |gs| ==> gs[g].aniDBId in idx && g <= idx[gs[g].aniDBId])
  }

  // ---------- steps of the grouping loop ----------

  lemma {:induction false} StartGroup(gs: seq<Group>, m: EpMap, part: nat)
    requires Runs(gs) && PartsNumbered(gs)
    requires gs != [] ==> gs[|gs| - 1].aniDBId != m.aniDBId
    requires part == if Eligible(m) then CountEligible(gs, m.tvdbSeason) + 1 else 0
    ensures var r := gs + [Group(m.aniDBId, part, [m])];
            Runs(r) && PartsNumbered(r) && Flatten(r) == Flatten(gs) + [m]
    ensures forall s :: CountEligible(gs + [Group(m.aniDBId, part, [m])], s)
                        == CountEligible(gs, s) + (if Eligible(m) && m.tvdbSeason == s then 1 else 0)
  {
    var r := gs + [Group(m.aniDBId, part, [m])];
    assert r[..|gs|] == gs;
    forall g | 0 <= g < |r| ensures r[g].maps != [] && r[g].part == PartOf(r, g) {
      if g < |gs| { assert r[..g] == gs[..g]; }
    }
  }

  function Extended(gs: seq<Group>, m: EpMap): seq<Group>
    requires gs != []
  {
    var n := |gs| - 1;
    gs[..n] + [gs[n].(maps := gs[n].maps + [m])]
  }

  lemma {:induction false} ExtendGroup(gs: seq<Group>, m: EpMap)
    requires Runs(gs) && PartsNumbered(gs) && gs != [] && gs[|gs| - 1].aniDBId == m.aniDBId
    ensures var r := Extended(gs, m);
            Runs(r) && PartsNumbered(r) && Flatten(r) == Flatten(gs) + [m]
    ensures forall s :: CountEligible(Extended(gs, m), s) == CountEligible(gs, s)
  {
    var n, r := |gs| - 1, Extended(gs, m);
    assert r[..n] == gs[..n];
    assert r[n].maps[0] == gs[n].maps[0];
    forall g | 0 <= g < |r| ensures r[g].maps != [] && r[g].part == PartOf(r, g) {
      assert r[..g] == gs[..g];
    }
  }

  /** The groups up to g whose first map has g's TV season and counts: it is of a numbered TV season and of a regular
      AniDB season. */
  ghost function UpTo(gs: seq<Group>, g: int, season: int): set<int> {
    set h: int | 0 <= h <= g && h < |gs| && gs[h].maps != []
                 && gs[h].maps[0].tvdbSeason == season && season > 0 && gs[h].maps[0].aniDBSeason > 0
  }

  lemma {:induction false} CountIsSize(gs: seq<Group>, n: nat, season: int)
    requires n <= |gs|
    ensures CountEligible(gs[..n], season) == |UpTo(gs, n - 1, season)|
  {
    if n > 0 {
      assert gs[..n][..n - 1] == gs[..n - 1];
      CountIsSize(gs, n - 1, season);
      assert UpTo(gs, n - 1, season) == UpTo(gs, n - 2, season) + if EligibleIn(gs[n - 1], season) then {n - 1} else {};
    } else {
      assert UpTo(gs, -1, season) == {};
    }
  }

  /** A group's part is its number among those of its TV season that count, from 1 on; 0 for one that does not. */
  lemma {:induction false} PartIsRank(gs: seq<Group>, ms: seq<EpMap>, g: nat)
    requires Grouping(gs, ms) && g < |gs|
    ensures var m := gs[g].maps[0];
            gs[g].part == if m.tvdbSeason > 0 && m.aniDBSeason > 0 then |UpTo(gs, g, m.tvdbSeason)| else 0
  {
    var season := gs[g].maps[0].tvdbSeason;
    CountIsSize(gs, g, season);
    CountIsSize(gs, g + 1, season);
    assert gs[..g + 1][..g] == gs[..g];
  }

  /** The counters of the loop, keyed by the season's decimal text. */
  ghost predicate Counted(counts: map<string, nat>, gs: seq<Group>) {
    forall s :: CountEligible(gs, s) == if Itoa(s) in counts then counts[Itoa(s)] else 0
  }

  lemma CountedBump(counts: map<string, nat>, gs: seq<Group>, r: seq<Group>, season: int)
    requires Counted(counts, gs)
    requires forall s :: CountEligible(r, s) == CountEligible(gs, s) + (if s == season then 1 else 0)
    ensures Counted(counts[Itoa(season) := CountEligible(gs, season) + 1], r)
  {
    forall s ensures Itoa(s) == Itoa(season) ==> s == season {
      if Itoa(s) == Itoa(season) { ItoaInjective(s, season); }
    }
  }

  class EpisodeMapsResult {
    const maps: seq<EpMap>
    var grouped: Option<seq<Group>>
    var idxByAniDBId: Option<map<string, nat>>

    ghost predicate Valid()
      reads this
    {
      && (grouped.Some? <==> idxByAniDBId.Some?)
      && (grouped.Some? ==> Grouping(grouped.value, maps) && IndexOf(idxByAniDBId.value, grouped.value))
    }

    constructor (maps: seq<EpMap>)
      ensures Valid() && this.maps == maps
    {
      this.maps := maps;
      grouped, idxByAniDBId := None, None;
    }

    /** Grouping is computed on first use and kept. */
    method GroupByAniDBId() returns (gs: seq<Group>)
      requires Valid()
      modifies this
      ensures Valid() && grouped == Some(gs) && (old(grouped).Some? ==> gs == old(grouped).value)
      ensures Grouping(gs, maps)
    {
      if grouped.Some? { return grouped.value; }
      gs := [];
      var counts: map<string, nat> := map[];
      for i := 0 to |maps|
        invariant Flatten(gs) == maps[..i] && Runs(gs) && PartsNumbered(gs) && Counted(counts, gs)
        invariant i > 0 ==> gs != []
      {
        var m := maps[i];
        assert maps[..i + 1] == maps[..i] + [m];
        if gs == [] || gs[|gs| - 1].aniDBId != m.aniDBId {
          gs, counts := AddGroup(gs, counts, m);
        } else {
          ExtendGroup(gs, m);
          gs := Extended(gs, m);
        }
      }
      assert maps[..|maps|] == maps;
      var idx := Index(gs);
      grouped, idxByAniDBId := Some(gs), Some(idx);
    }

    method AddGroup(gs: seq<Group>, counts: map<string, nat>, m: EpMap)
      returns (r: seq<Group>, counts': map<string, nat>)
      requires Runs(gs) && PartsNumbered(gs) && Counted(counts, gs)
      requires gs != [] ==> gs[|gs| - 1].aniDBId != m.aniDBId
      ensures Runs(r) && PartsNumbered(r) && Counted(counts', r) && r != [] && Flatten(r) == Flatten(gs) + [m]
    {
      counts' := counts;
      var part := 0;
      var key := Itoa(m.tvdbSeason);
      if m.tvdbSeason > 0 && m.aniDBSeason > 0 {
        if key in counts {
          counts' := counts'[key := counts[key] + 1];
        } else {
          counts' := counts'[key := 1];
        }
        part := counts'[key];
      }
      r := gs + [Group(m.aniDBId, part, [m])];
      StartGroup(gs, m, part);
      if Eligible(m) {
        CountedBump(counts, gs, r, m.tvdbSeason);
      }
    }

    /** A later group with the same id replaces an earlier one. */
    method Index(gs: seq<Group>) returns (idx: map<string, nat>)
      ensures IndexOf(idx, gs)
    {
      idx := map[];
      for g := 0 to |gs|
        invariant forall id :: id in idx ==> idx[id] < g && gs[idx[id]].aniDBId == id
        invariant forall h :: 0 <= h < g ==> gs[h].aniDBId in idx && h <= idx[gs[h].aniDBId]
      {
        idx := idx[gs[g].aniDBId := g];
      }
    }

    /** The last group of an id, and None exactly for an id that does not occur. */
    method GetByAniDBId(id: string) returns (r: Option<Group>)
      requires Valid()
      modifies this
      ensures Valid() && grouped.Some?
      ensures r.None? <==> forall m :: m in maps ==> m.aniDBId != id
      ensures r.Some? ==> exists g :: IsLastGroup(grouped.value, id, g) && r.value == grouped.value[g]
    {
      if idxByAniDBId.None? {
        var _ := GroupByAniDBId();
      }
      IdsOfGroups(grouped.value, id);
      if id in idxByAniDBId.value {
        assert IsLastGroup(grouped.value, id, idxByAniDBId.value[id]);
        return Some(grouped.value[idxByAniDBId.value[id]]);
      }
      return None;
    }

    /** True exactly when two groups that count share a TV season. */
    method HasJoinedTVSeasons() returns (b: bool)
      requires Valid()
      modifies this
      ensures Valid() && grouped.Some? && (b <==> SharedSeason(grouped.value))
    {
      var gs := GroupByAniDBId();
      b := AnyLaterPart(gs);
    }
  }

  /** The loop of HasJoinedTVSeasons over the groups. */
  method AnyLaterPart(gs: seq<Group>) returns (b: bool)
    requires PartsNumbered(gs)
    ensures b <==> SharedSeason(gs)
  {
    JoinedWhen(gs);
    for i := 0 to |gs|
      invariant forall g :: 0 <= g < i ==> gs[g].part <= 1
    {
      if gs[i].part > 1 { return true; }
    }
    return false;
  }

  ghost predicate IsLastGroup(gs: seq<Group>, id: string, g: int) {
    0 <= g < |gs| && gs[g].aniDBId == id && forall h :: g < h < |gs| ==> gs[h].aniDBId != id
  }

  lemma {:induction false} FlattenMembers(gs: seq<Group>, m: EpMap)
    ensures m in Flatten(gs) <==> exists g :: 0 <= g < |gs| && m in gs[g].maps
  {
    if gs != [] {
      FlattenMembers(gs[..|gs| - 1], m);
      var n := |gs| - 1;
      if m in gs[n].maps { }
      else if exists g :: 0 <= g < |gs| && m in gs[g].maps {
        var g :| 0 <= g < |gs| && m in gs[g].maps;
        assert m in gs[..n][g].maps;
      }
    }
  }

  lemma {:induction false} IdsOfGroups(gs: seq<Group>, id: string)
    requires Runs(gs)
    ensures (exists m :: m in Flatten(gs) && m.aniDBId == id) <==> exists g :: 0 <= g < |gs| && gs[g].aniDBId == id
  {
    if exists m :: m in Flatten(gs) && m.aniDBId == id {
      var m :| m in Flatten(gs) && m.aniDBId == id;
      FlattenMembers(gs, m);
    }
    if exists g :: 0 <= g < |gs| && gs[g].aniDBId == id {
      var g :| 0 <= g < |gs| && gs[g].aniDBId == id;
      assert gs[g].maps[0] in gs[g].maps;
      FlattenMembers(gs, gs[g].maps[0]);
    }
  }

  // ---------- what a lookup returns ----------

  lemma {:induction false} FilterAppend(a: seq<EpMap>, b: seq<EpMap>, id: string)
    ensures FilterId(a + b, id) == FilterId(a, id) + FilterId(b, id)
  {
    if b == [] {
      assert a + b == a;
    } else {
      var n := |b| - 1;
      FilterAppend(a, b[..n], id);
      assert (a + b)[..|a| + n] == a + b[..n];
    }
  }

  lemma {:induction false} FilterUniform(ms: seq<EpMap>, id: string, own: string)
    requires forall m :: m in ms ==> m.aniDBId == own
    ensures FilterId(ms, id) == if own == id then ms else []
  {
    if ms != [] {
      var n := |ms| - 1;
      assert forall m :: m in ms[..n] ==> m in ms;
      FilterUniform(ms[..n], id, own);
      assert ms[n] in ms && ms == ms[..n] + [ms[n]];
    }
  }

  /** The maps of an id are those of its groups, in order. */
  lemma {:induction false} FilterOfGroups(gs: seq<Group>, id: string)
    requires forall g :: 0 <= g < |gs| ==> forall m :: m in gs[g].maps ==> m.aniDBId == gs[g].aniDBId
    ensures FilterId(Flatten(gs), id) == Flatten(GroupsOf(gs, id))
  {
    if gs != [] {
      var n := |gs| - 1;
      FilterOfGroups(gs[..n], id);
      FilterAppend(Flatten(gs[..n]), gs[n].maps, id);
      FilterUniform(gs[n].maps, id, gs[n].aniDBId);
      GroupsOfSnoc(gs, id);
    }
  }

  lemma {:induction false} GroupsOfSnoc(gs: seq<Group>, id: string)
    requires gs != []
    ensures var n := |gs| - 1;
            Flatten(GroupsOf(gs, id))
            == Flatten(GroupsOf(gs[..n], id)) + (if gs[n].aniDBId == id then gs[n].maps else [])
  {
    var n := |gs| - 1;
    var r := GroupsOf(gs[..n], id);
    assert (r + [gs[n]])[..|r|] == r && r + [] == r;
  }

  function GroupsOf(gs: seq<Group>, id: string): seq<Group> {
    if gs == [] then []
    else GroupsOf(gs[..|gs| - 1], id) + (if gs[|gs| - 1].aniDBId == id then [gs[|gs| - 1]] else [])
  }

  lemma {:induction false} FlattenSplit(gs: seq<Group>, g: nat)
    requires g < |gs|
    ensures Flatten(gs) == Flatten(gs[..g]) + gs[g].maps + Flatten(gs[g + 1..])
  {
    var n := |gs| - 1;
    if g == n {
      assert gs[g + 1..] == [];
    } else {
      FlattenSplit(gs[..n], g);
      assert gs[..n][..g] == gs[..g];
      assert gs[g + 1..][..n - g - 1] == gs[..n][g + 1..];
    }
  }

  /** The maps of an id stand next to each other. */
  ghost predicate Contiguous(ms: seq<EpMap>, id: string) {
    forall i, j, k :: 0 <= i < j < k < |ms| && ms[i].aniDBId == id && ms[k].aniDBId == id ==> ms[j].aniDBId == id
  }

  lemma RunsOfPart(gs: seq<Group>, a: nat, b: nat)
    requires Runs(gs) && a <= b <= |gs|
    ensures Runs(gs[a..b])
  {
    var r := gs[a..b];
    forall g | 0 <= g < |r| - 1 ensures r[g].aniDBId != r[g + 1].aniDBId {
      assert r[g] == gs[a + g] && r[g + 1] == gs[a + g + 1];
    }
  }

  /** With two groups of one id, another id lies between them. */
  lemma {:induction false} TwoGroupsAreApart(gs: seq<Group>, id: string, h: nat, g: nat)
    requires Runs(gs) && h < g < |gs| && gs[h].aniDBId == id && gs[g].aniDBId == id
    ensures !Contiguous(Flatten(gs), id)
  {
    assert gs[h].aniDBId != gs[h + 1].aniDBId;
    var tail := gs[h + 1..];
    FlattenSplit(gs, h);
    FlattenSplit(tail, 0);
    FlattenSplit(tail, g - h - 1);
    assert tail[..0] == [] && tail[0] == gs[h + 1] && tail[g - h - 1] == gs[g];
    var p, q := |Flatten(gs[..h])|, |Flatten(gs[..h])| + |gs[h].maps|;
    var r := |Flatten(tail[..g - h - 1])|;
    var ms := Flatten(gs);
    assert ms[p] == gs[h].maps[0] && ms[p] in gs[h].maps;
    assert ms[q] == tail[0].maps[0] && ms[q] in tail[0].maps;
    assert ms[q + r] == gs[g].maps[0] && ms[q + r] in gs[g].maps;
    assert ms[q].aniDBId != ms[q + r].aniDBId;
    assert p < q < q + r;
  }

  /** The maps of an id, seen from one of its groups. */
  lemma {:induction false} FilterAround(gs: seq<Group>, id: string, g: nat)
    requires Runs(gs) && g < |gs| && gs[g].aniDBId == id
    ensures FilterId(Flatten(gs), id)
            == FilterId(Flatten(gs[..g]), id) + gs[g].maps + FilterId(Flatten(gs[g + 1..]), id)
  {
    var a, b := Flatten(gs[..g]), Flatten(gs[g + 1..]);
    FlattenSplit(gs, g);
    FilterAppend(a + gs[g].maps, b, id);
    FilterAppend(a, gs[g].maps, id);
    FilterUniform(gs[g].maps, id, id);
  }

  lemma {:induction false} IdAbsent(gs: seq<Group>, id: string)
    requires Runs(gs) && forall h :: 0 <= h < |gs| ==> gs[h].aniDBId != id
    ensures FilterId(Flatten(gs), id) == []
    ensures forall i :: 0 <= i < |Flatten(gs)| ==> Flatten(gs)[i].aniDBId != id
  {
    IdsOfGroups(gs, id);
    assert forall i :: 0 <= i < |Flatten(gs)| ==> Flatten(gs)[i] in Flatten(gs);
    FilterNone(Flatten(gs), id);
  }

  lemma {:induction false} OneGroupIsContiguous(gs: seq<Group>, id: string, g: nat)
    requires Runs(gs) && g < |gs| && gs[g].aniDBId == id
    requires forall h :: 0 <= h < |gs| && h != g ==> gs[h].aniDBId != id
    ensures gs[g].maps == FilterId(Flatten(gs), id) && Contiguous(Flatten(gs), id)
  {
    var before, after := gs[0..g], gs[g + 1..|gs|];
    RunsOfPart(gs, 0, g);
    RunsOfPart(gs, g + 1, |gs|);
    assert gs[..g] == before && gs[g + 1..] == after;
    IdAbsent(before, id);
    IdAbsent(after, id);
    FilterAround(gs, id, g);
    FlattenSplit(gs, g);
    IntervalIsContiguous(Flatten(before), gs[g].maps, Flatten(after), id);
  }

  lemma IntervalIsContiguous(a: seq<EpMap>, b: seq<EpMap>, c: seq<EpMap>, id: string)
    requires forall i :: 0 <= i < |a| ==> a[i].aniDBId != id
    requires forall m :: m in b ==> m.aniDBId == id
    requires forall i :: 0 <= i < |c| ==> c[i].aniDBId != id
    ensures Contiguous(a + b + c, id)
  {
    var ms := a + b + c;
    forall i | 0 <= i < |ms| ensures ms[i].aniDBId == id <==> |a| <= i < |a| + |b| {
      if i < |a| { assert ms[i] == a[i]; }
      else if i < |a| + |b| { assert ms[i] == b[i - |a|] && ms[i] in b; }
      else { assert ms[i] == c[i - |a| - |b|]; }
    }
  }

  lemma {:induction false} FilterNone(ms: seq<EpMap>, id: string)
    requires forall m :: m in ms ==> m.aniDBId != id
    ensures FilterId(ms, id) == []
  {
    if ms != [] {
      assert forall m :: m in ms[..|ms| - 1] ==> m in ms;
      FilterNone(ms[..|ms| - 1], id);
      assert ms[|ms| - 1] in ms;
    }
  }

  lemma {:induction false} GroupsOfAtLeast(gs: seq<Group>, id: string, g: nat)
    requires g < |gs| && gs[g].aniDBId == id
    ensures |Flatten(GroupsOf(gs, id))| >= |gs[g].maps|
  {
    var n := |gs| - 1;
    GroupsOfSnoc(gs, id);
    if g < n { GroupsOfAtLeast(gs[..n], id, g); }
  }

  /** GetByAniDBId, which returns the last group of an id, returns all its maps exactly when they stand
      next to each other in the input. */
  lemma {:induction false} LookupIsFilter(gs: seq<Group>, ms: seq<EpMap>, id: string, g: int)
    requires Grouping(gs, ms) && IsLastGroup(gs, id, g)
    ensures gs[g].maps == FilterId(ms, id) <==> Contiguous(ms, id)
  {
    if h :| 0 <= h < |gs| && h != g && gs[h].aniDBId == id {
      TwoGroupsAreApart(gs, id, h, g);
      FilterAround(gs, id, g);
      RunsOfPart(gs, 0, g);
      assert gs[..g] == gs[0..g];
      FilterOfGroups(gs[..g], id);
      GroupsOfAtLeast(gs[..g], id, h);
      assert |gs[h].maps| > 0;
    } else {
      OneGroupIsContiguous(gs, id, g);
    }
  }

  // ---------- sorted input ----------

  function IdValue(id: string): int {
    if Atoi(id).Some? then Atoi(id).value else -1
  }

  /** The comparison Sort uses. */
  function Compare(a: EpMap, b: EpMap): int {
    if IdValue(a.aniDBId) != IdValue(b.aniDBId) then IdValue(a.aniDBId) - IdValue(b.aniDBId)
    else if a.tvdbSeason != b.tvdbSeason then a.tvdbSeason - b.tvdbSeason
    else if a.aniDBSeason != b.aniDBSeason then a.aniDBSeason - b.aniDBSeason
    else a.start - b.start
  }

  ghost predicate Sorted(ms: seq<EpMap>) {
    forall i, j :: 0 <= i < j < |ms| ==> Compare(ms[i], ms[j]) <= 0
  }

  /** First by the id's number, -1 for an id that is none, then by TV season, AniDB season and start. */
  predicate Ordered(a: EpMap, b: EpMap, x: int, y: int) {
    x < y || (x == y && (a.tvdbSeason < b.tvdbSeason || (a.tvdbSeason == b.tvdbSeason
      && (a.aniDBSeason < b.aniDBSeason || (a.aniDBSeason == b.aniDBSeason && a.start <= b.start)))))
  }

  lemma CompareOrders(a: EpMap, b: EpMap)
    ensures Compare(a, b) <= 0 <==> Ordered(a, b, if Atoi(a.aniDBId).Some? then Atoi(a.aniDBId).value else -1,
                                                  if Atoi(b.aniDBId).Some? then Atoi(b.aniDBId).value else -1)
    ensures Compare(a, b) == -Compare(b, a)
  {
  }

  /** The maps of a group of sorted input are in order of TV season, AniDB season and start. */
  lemma {:induction false} SortedGroup(gs: seq<Group>, ms: seq<EpMap>, g: nat, i: nat, j: nat)
    requires Grouping(gs, ms) && Sorted(ms) && g < |gs| && i < j < |gs[g].maps|
    ensures Ordered(gs[g].maps[i], gs[g].maps[j], 0, 0)
  {
    FlattenSplit(gs, g);
    var before, a, b := |Flatten(gs[..g])|, gs[g].maps[i], gs[g].maps[j];
    assert ms[before + i] == a && ms[before + j] == b;
    assert a in gs[g].maps && b in gs[g].maps;
    CompareOrders(a, b);
  }

  /** Ids are plain decimal numbers, so that equal values are equal ids. */
  ghost predicate NumericIds(ms: seq<EpMap>) {
    forall m :: m in ms ==> Itoa(IdValue(m.aniDBId)) == m.aniDBId
  }

  /** On sorted input with numeric ids every id has one group, and a lookup returns exactly the maps
      of the id. */
  lemma {:induction false} SortedLookup(gs: seq<Group>, ms: seq<EpMap>)
    requires Grouping(gs, ms) && Sorted(ms) && NumericIds(ms)
    ensures forall g, h :: 0 <= g < h < |gs| ==> gs[g].aniDBId != gs[h].aniDBId
    ensures forall g :: 0 <= g < |gs| ==> gs[g].maps == FilterId(ms, gs[g].aniDBId)
  {
    forall id ensures Contiguous(ms, id) {
      forall i, j, k | 0 <= i < j < k < |ms| && ms[i].aniDBId == id && ms[k].aniDBId == id
        ensures ms[j].aniDBId == id
      {
        assert Compare(ms[i], ms[j]) <= 0 && Compare(ms[j], ms[k]) <= 0;
        assert ms[j] in ms && ms[i] in ms;
      }
    }
    forall g, h | 0 <= g < h < |gs| ensures gs[g].aniDBId != gs[h].aniDBId {
      if gs[g].aniDBId == gs[h].aniDBId { TwoGroupsAreApart(gs, gs[g].aniDBId, g, h); }
    }
    forall g | 0 <= g < |gs| ensures gs[g].maps == FilterId(ms, gs[g].aniDBId) {
      LookupIsFilter(gs, ms, gs[g].aniDBId, g);
    }
  }

  // ---------- joined seasons ----------

  /** Two groups that count belong to the same TV season. */
  ghost predicate SharedSeason(gs: seq<Group>) {
    exists g, h :: 0 <= g < h < |gs| && gs[g].maps != [] && gs[h].maps != []
                   && gs[g].maps[0].tvdbSeason == gs[h].maps[0].tvdbSeason > 0
                   && gs[g].maps[0].aniDBSeason > 0 && gs[h].maps[0].aniDBSeason > 0
  }

  lemma {:induction false} CountPositive(gs: seq<Group>, season: int)
    ensures CountEligible(gs, season) > 0 <==> exists g :: 0 <= g < |gs| && EligibleIn(gs[g], season)
  {
    if gs != [] {
      var n := |gs| - 1;
      CountPositive(gs[..n], season);
      if g :| 0 <= g < |gs| && EligibleIn(gs[g], season) {
        assert g < n ==> EligibleIn(gs[..n][g], season);
      }
      if CountEligible(gs[..n], season) > 0 {
        var g :| 0 <= g < n && EligibleIn(gs[..n][g], season);
        assert EligibleIn(gs[g], season);
      }
    }
  }

  lemma JoinedWhen(gs: seq<Group>)
    requires PartsNumbered(gs)
    ensures (exists g :: 0 <= g < |gs| && gs[g].part > 1) <==> SharedSeason(gs)
  {
    forall h | 0 <= h < |gs|
      ensures gs[h].part > 1 <==>
              Eligible(gs[h].maps[0]) && exists g :: 0 <= g < h && EligibleIn(gs[g], gs[h].maps[0].tvdbSeason)
    {
      var s := gs[h].maps[0].tvdbSeason;
      CountPositive(gs[..h], s);
      if g :| 0 <= g < h && EligibleIn(gs[g], s) { assert EligibleIn(gs[..h][g], s); }
      if g :| 0 <= g < h && EligibleIn(gs[..h][g], s) { assert EligibleIn(gs[g], s); }
    }
    if g :| 0 <= g < |gs| && gs[g].part > 1 {
      var f :| 0 <= f < g && EligibleIn(gs[f], gs[g].maps[0].tvdbSeason);
      assert EligibleIn(gs[g], gs[g].maps[0].tvdbSeason);
    }
  }
}
