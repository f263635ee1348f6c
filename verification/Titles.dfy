/** The title rows SyncTitleDataset builds from one anime (internal/anidb/title_dataset.go): repeated
    (type, language) pairs are renamed, and cleaned copies of some titles are added. */
module Titles {
  import opened Options
  import opened GoStrings
  import opened Histories

  datatype Title = Title(kind: string, lang: string, value: string)

  /** A row of anidb_title before its season and year are set. */
  datatype Row = Row(tid: string, kind: string, lang: string, value: string)

  /** What the regular expressions say about a value: the season and the year it names, and what is left of
      it when cleaned; and its length in bytes. */
  datatype Rules = Rules(season: string -> Option<string>, year: string -> Option<string>,
                         clean: string -> string, size: string -> nat)

  /** The season of a value that counts: at most two characters and no leading zero. */
  function SeasonOf(value: string, rules: Rules): Option<string> {
    var s := rules.season(value);
    if s.Some? && !("0" <= s.value) && |s.value| <= 2 then s else None
  }

  function YearOf(value: string, rules: Rules): string {
    if rules.year(value).Some? then rules.year(value).value else ""
  }

  /** The types that are stored. */
  predicate Plain(kind: string) {
    kind in {"main", "official", "syn"}
  }

  predicate Taken(t: Title) {
    Plain(t.kind)
  }

  predicate SameKey(a: Title, b: Title) {
    a.kind == b.kind && a.lang == b.lang
  }

  /** Title n has the type and language of an earlier title that is stored. */
  predicate Repeats(ts: seq<Title>, n: nat)
    requires n < |ts|
  {
    Taken(ts[n]) && exists m :: 0 <= m < n && SameKey(ts[m], ts[n])
  }

  function RepeatCount(ts: seq<Title>): nat {
    if ts == [] then 0
    else RepeatCount(ts[..|ts| - 1]) + if Repeats(ts, |ts| - 1) then 1 else 0
  }

  function Alt(kind: string, n: nat): string {
    kind + "-alt-" + Itoa(n)
  }

  /** The type the last title is stored under. */
  function StoredKind(ts: seq<Title>): string
    requires ts != []
  {
    var t := ts[|ts| - 1];
    if Repeats(ts, |ts| - 1) then Alt(t.kind, RepeatCount(ts)) else t.kind
  }

  function Rows(tid: string, ts: seq<Title>): (r: seq<Row>)
    ensures |r| <= |ts|
  {
    if ts == [] then []
    else
      var t := ts[|ts| - 1];
      var r := Rows(tid, ts[..|ts| - 1]);
      if Taken(t) then r + [Row(tid, StoredKind(ts), t.lang, t.value)] else r
  }

  /** The titles with the types they are stored under. */
  function Renamed(ts: seq<Title>): (r: seq<Title>)
    ensures |r| == |ts|
  {
    if ts == [] then [] else Renamed(ts[..|ts| - 1]) + [ts[|ts| - 1].(kind := StoredKind(ts))]
  }

  // ---------- the cleaned copies ----------

  predicate IsMain(t: Title) { t.kind == "main" }
  predicate IsOfficialEnglish(t: Title) { t.kind == "official" && t.lang == "en" }
  predicate IsEnglishSynonym(t: Title) { t.kind == "syn" && t.lang == "en" }

  function SeasonalSynonym(lang: string, rules: Rules): Title -> bool {
    (t: Title) => t.kind == "syn" && t.lang == lang && SeasonOf(t.value, rules).Some?
  }

  function PickLast(ts: seq<Title>, p: Title -> bool): (r: Option<Title>)
    ensures r.Some? ==> p(r.value)
  {
    if Last(ts, p).Some? then Some(ts[Last(ts, p).value]) else None
  }

  function English(ts: seq<Title>, rules: Rules): (r: Option<Title>)
    ensures r.Some? ==> IsOfficialEnglish(r.value) || IsEnglishSynonym(r.value)
  {
    if ts == [] then None
    else
      var t := ts[|ts| - 1];
      var r := English(ts[..|ts| - 1], rules);
      if IsOfficialEnglish(t) then Some(t)
      else if IsEnglishSynonym(t)
              && (r.None? || (r.value.kind == "syn" && rules.size(r.value.value) < rules.size(t.value))) then Some(t)
      else r
  }

  function Cleaned(tid: string, t: Option<Title>, rules: Rules): (r: seq<Row>) {
    if t.None? then [] else [Row(tid, "clean-" + t.value.kind, t.value.lang, rules.clean(t.value.value))]
  }

  function CleanRows(tid: string, ts: seq<Title>, rules: Rules): seq<Row> {
    Cleaned(tid, PickLast(ts, IsMain), rules) + Cleaned(tid, English(ts, rules), rules)
    + Cleaned(tid, PickLast(ts, SeasonalSynonym("x-jat", rules)), rules)
    + Cleaned(tid, PickLast(ts, SeasonalSynonym("x-zht", rules)), rules)
  }

  /** i is the earliest of the longest English synonyms. */
  ghost predicate LongestSynonym(ts: seq<Title>, rules: Rules, i: nat) {
    && i < |ts| && IsEnglishSynonym(ts[i])
    && forall j :: 0 <= j < |ts| && IsEnglishSynonym(ts[j]) ==>
         rules.size(ts[j].value) <= rules.size(ts[i].value)
         && (j < i ==> rules.size(ts[j].value) < rules.size(ts[i].value))
  }

  lemma {:induction false} OfficialEnglishWins(ts: seq<Title>, rules: Rules)
    ensures PickLast(ts, IsOfficialEnglish).Some? ==> English(ts, rules) == PickLast(ts, IsOfficialEnglish)
    ensures PickLast(ts, IsOfficialEnglish).None? && English(ts, rules).Some? ==> English(ts, rules).value.kind == "syn"
  {
    if ts != [] {
      var init := ts[..|ts| - 1];
      OfficialEnglishWins(init, rules);
      assert Last(ts, IsOfficialEnglish)
          == if IsOfficialEnglish(ts[|ts| - 1]) then Some(|ts| - 1) else Last(init, IsOfficialEnglish);
    }
  }

  lemma {:induction false} WithoutOfficialEnglish(ts: seq<Title>, rules: Rules) returns (i: nat)
    requires forall t :: t in ts ==> !IsOfficialEnglish(t)
    ensures English(ts, rules).None? ==> forall t :: t in ts ==> !IsEnglishSynonym(t)
    ensures English(ts, rules).Some? ==> LongestSynonym(ts, rules, i) && English(ts, rules) == Some(ts[i])
  {
    i := 0;
    if ts != [] {
      var init, t := ts[..|ts| - 1], ts[|ts| - 1];
      i := WithoutOfficialEnglish(init, rules);
      assert ts == init + [t];
      if English(init, rules).None? {
        if IsEnglishSynonym(t) { i := |init|; }
      } else if IsEnglishSynonym(t) && rules.size(init[i].value) < rules.size(t.value) {
        i := |init|;
      }
    }
  }

  /** The English title is the last official one; without any, the earliest of the longest synonyms;
      without any of those, none. */
  lemma EnglishIsBest(ts: seq<Title>, rules: Rules) returns (i: nat)
    ensures var official := PickLast(ts, IsOfficialEnglish);
            if official.Some? then English(ts, rules) == official
            else if English(ts, rules).Some? then LongestSynonym(ts, rules, i) && English(ts, rules) == Some(ts[i])
            else forall t :: t in ts ==> !IsEnglishSynonym(t)
  {
    i := 0;
    OfficialEnglishWins(ts, rules);
    if PickLast(ts, IsOfficialEnglish).None? {
      i := WithoutOfficialEnglish(ts, rules);
    }
  }

  // ---------- no two rows clash ----------

  /** The rows have the same conflict key. */
  predicate Clash(a: Row, b: Row) {
    a.tid == b.tid && a.kind == b.kind && a.lang == b.lang
  }

  ghost predicate Apart(rows: seq<Row>) {
    forall i, j :: 0 <= i < j < |rows| ==> !Clash(rows[i], rows[j])
  }

  lemma ApartJoin(a: seq<Row>, b: seq<Row>)
    requires Apart(a) && Apart(b)
    requires forall r, s :: r in a && s in b ==> !Clash(r, s)
    ensures Apart(a + b)
  {
  }

  lemma AltIsNotPlain(kind: string, n: nat)
    requires Plain(kind)
    ensures !Plain(Alt(kind, n))
  {
    ItoaCharacters(n);
    assert |Alt(kind, n)| > 8;
  }

  lemma AltInjective(k: string, m: nat, l: string, n: nat)
    requires Plain(k) && Plain(l) && Alt(k, m) == Alt(l, n)
    ensures m == n
  {
    assert Alt(k, m)[0] == k[0] && Alt(l, n)[0] == l[0];
    assert k == l;
    assert Alt(k, m)[|k| + 5..] == Itoa(m) && Alt(l, n)[|l| + 5..] == Itoa(n);
    ItoaInjective(m, n);
  }

  /** A row of ts is stored under its own type, or under a numbered one. */
  ghost predicate Accounted(ts: seq<Title>, r: Row) {
    || (Plain(r.kind) && exists m :: 0 <= m < |ts| && ts[m].kind == r.kind && ts[m].lang == r.lang)
    || exists k, n :: Plain(k) && 1 <= n <= RepeatCount(ts) && r.kind == Alt(k, n)
  }

  lemma AccountedLater(ts: seq<Title>, t: Title, r: Row)
    requires Accounted(ts, r)
    ensures Accounted(ts + [t], r)
  {
    var all := ts + [t];
    assert all[..|all| - 1] == ts;
    if Plain(r.kind) && exists m :: 0 <= m < |ts| && ts[m].kind == r.kind && ts[m].lang == r.lang {
      var m :| 0 <= m < |ts| && ts[m].kind == r.kind && ts[m].lang == r.lang;
      assert all[m] == ts[m];
    } else {
      var k, n :| Plain(k) && 1 <= n <= RepeatCount(ts) && r.kind == Alt(k, n);
      assert Plain(k) && 1 <= n <= RepeatCount(all) && r.kind == Alt(k, n);
    }
  }

  lemma NewRowAccounted(tid: string, ts: seq<Title>)
    requires ts != [] && Taken(ts[|ts| - 1])
    ensures Accounted(ts, Row(tid, StoredKind(ts), ts[|ts| - 1].lang, ts[|ts| - 1].value))
  {
    var t := ts[|ts| - 1];
    if Repeats(ts, |ts| - 1) {
      assert Plain(t.kind) && 1 <= RepeatCount(ts) && StoredKind(ts) == Alt(t.kind, RepeatCount(ts));
    }
  }

  /** An accounted row of the earlier titles does not clash with the row of the new one. */
  lemma NewRowDiffers(tid: string, ts: seq<Title>, r: Row)
    requires ts != [] && Taken(ts[|ts| - 1]) && Accounted(ts[..|ts| - 1], r)
    ensures !Clash(r, Row(tid, StoredKind(ts), ts[|ts| - 1].lang, ts[|ts| - 1].value))
  {
    var init, t := ts[..|ts| - 1], ts[|ts| - 1];
    if Repeats(ts, |ts| - 1) {
      AltIsNotPlain(t.kind, RepeatCount(ts));
      if !Plain(r.kind) {
        var k, n :| Plain(k) && 1 <= n <= RepeatCount(init) && r.kind == Alt(k, n);
        if r.kind == StoredKind(ts) { AltInjective(k, n, t.kind, RepeatCount(ts)); }
      }
    } else if r.kind == t.kind && r.lang == t.lang {
      if m :| 0 <= m < |init| && init[m].kind == r.kind && init[m].lang == r.lang {
        assert SameKey(ts[m], t);
      } else {
        var k, n :| Plain(k) && 1 <= n <= RepeatCount(init) && r.kind == Alt(k, n);
        AltIsNotPlain(k, n);
      }
    }
  }

  lemma {:induction false} RowsApart(tid: string, ts: seq<Title>)
    ensures Apart(Rows(tid, ts)) && forall r :: r in Rows(tid, ts) ==> Accounted(ts, r)
  {
    if ts != [] {
      var init, t := ts[..|ts| - 1], ts[|ts| - 1];
      RowsApart(tid, init);
      assert ts == init + [t];
      forall r | r in Rows(tid, init) ensures Accounted(ts, r) {
        AccountedLater(init, t, r);
      }
      if Taken(t) {
        NewRowAccounted(tid, ts);
        forall r | r in Rows(tid, init) ensures !Clash(r, Row(tid, StoredKind(ts), t.lang, t.value)) {
          NewRowDiffers(tid, ts, r);
        }
      }
    }
  }

  /** The first letter of the original type, which a cleaned copy has behind "clean-". */
  lemma CleanedRow(tid: string, t: Option<Title>, rules: Rules)
    requires t.Some? ==> t.value.kind != ""
    ensures Apart(Cleaned(tid, t, rules))
    ensures forall r :: r in Cleaned(tid, t, rules) ==>
              t.Some? && |r.kind| > 6 && r.kind[0] == 'c' && r.kind[6] == t.value.kind[0] && r.lang == t.value.lang
  {
  }

  predicate IsCleanRow(r: Row) {
    |r.kind| > 6 && r.kind[0] == 'c'
  }

  lemma CleanRowsApart(tid: string, ts: seq<Title>, rules: Rules)
    ensures Apart(CleanRows(tid, ts, rules))
    ensures forall r :: r in CleanRows(tid, ts, rules) ==> IsCleanRow(r)
  {
    var m, e := PickLast(ts, IsMain), English(ts, rules);
    var r, p := PickLast(ts, SeasonalSynonym("x-jat", rules)), PickLast(ts, SeasonalSynonym("x-zht", rules));
    CleanedRow(tid, m, rules);
    CleanedRow(tid, e, rules);
    CleanedRow(tid, r, rules);
    CleanedRow(tid, p, rules);
    CleanedApart(Cleaned(tid, m, rules), Cleaned(tid, e, rules), Cleaned(tid, r, rules), Cleaned(tid, p, rules));
  }

  ghost predicate CleanedAs(rows: seq<Row>, first: char, lang: string) {
    Apart(rows) && forall r :: r in rows ==> IsCleanRow(r) && r.kind[6] == first && r.lang == lang
  }

  lemma CleanedApart(m: seq<Row>, e: seq<Row>, r: seq<Row>, p: seq<Row>)
    requires Apart(m) && forall x :: x in m ==> IsCleanRow(x) && x.kind[6] == 'm'
    requires Apart(e) && forall x :: x in e ==> IsCleanRow(x) && x.kind[6] != 'm' && x.lang == "en"
    requires CleanedAs(r, 's', "x-jat") && CleanedAs(p, 's', "x-zht")
    ensures Apart(m + e + r + p) && forall x :: x in m + e + r + p ==> IsCleanRow(x)
  {
    assert "en"[0] == 'e' && "x-jat"[0] == 'x' && "x-zht"[0] == 'x' && "x-jat"[2] == 'j' && "x-zht"[2] == 'z';
    ApartJoin(m, e);
    ApartJoin(m + e, r);
    ApartJoin(m + e + r, p);
  }

  lemma AccountedIsNotClean(ts: seq<Title>, r: Row)
    requires Accounted(ts, r)
    ensures !IsCleanRow(r)
  {
    if !Plain(r.kind) {
      var k, n :| Plain(k) && 1 <= n <= RepeatCount(ts) && r.kind == Alt(k, n);
      assert r.kind[0] == k[0];
    }
  }

  function AnimeRows(tid: string, ts: seq<Title>, rules: Rules): seq<Row> {
    Rows(tid, ts) + CleanRows(tid, ts, rules)
  }

  /** All rows built for one anime differ in type or language. */
  lemma AnimeRowsApart(tid: string, ts: seq<Title>, rules: Rules)
    ensures Apart(AnimeRows(tid, ts, rules))
  {
    RowsApart(tid, ts);
    CleanRowsApart(tid, ts, rules);
    forall r | r in Rows(tid, ts) ensures !IsCleanRow(r) {
      AccountedIsNotClean(ts, r);
    }
    ApartJoin(Rows(tid, ts), CleanRows(tid, ts, rules));
  }

  /** No title of a stored type is lost: it has a row with its language and value. */
  lemma {:induction false} NoTitleIsLost(tid: string, ts: seq<Title>, n: nat) returns (i: nat)
    requires n < |ts| && Taken(ts[n])
    ensures i < |Rows(tid, ts)| && Rows(tid, ts)[i].lang == ts[n].lang && Rows(tid, ts)[i].value == ts[n].value
    ensures Rows(tid, ts)[i].kind == StoredKind(ts[..n + 1])
  {
    var last := |ts| - 1;
    if n == last {
      assert ts[..n + 1] == ts;
      i := |Rows(tid, ts)| - 1;
    } else {
      i := NoTitleIsLost(tid, ts[..last], n);
      assert ts[..last][..n + 1] == ts[..n + 1];
    }
  }

  // ---------- the batch ----------

  datatype Anime = Anime(id: string, titles: seq<Title>)

  function BatchRows(items: seq<Anime>, rules: Rules): seq<Row> {
    if items == [] then []
    else BatchRows(items[..|items| - 1], rules) + AnimeRows(items[|items| - 1].id, items[|items| - 1].titles, rules)
  }

  lemma {:induction false} RowsCarryId(tid: string, ts: seq<Title>)
    ensures forall r :: r in Rows(tid, ts) ==> r.tid == tid
  {
    if ts != [] { RowsCarryId(tid, ts[..|ts| - 1]); }
  }

  lemma AnimeRowsCarryId(tid: string, ts: seq<Title>, rules: Rules)
    ensures forall r :: r in AnimeRows(tid, ts, rules) ==> r.tid == tid
  {
    RowsCarryId(tid, ts);
    assert forall t :: forall r :: r in Cleaned(tid, t, rules) ==> r.tid == tid;
  }

  lemma {:induction false} BatchRowsCarryIds(items: seq<Anime>, rules: Rules)
    ensures forall r :: r in BatchRows(items, rules) ==> exists i :: 0 <= i < |items| && items[i].id == r.tid
  {
    if items != [] {
      var n := |items| - 1;
      BatchRowsCarryIds(items[..n], rules);
      AnimeRowsCarryId(items[n].id, items[n].titles, rules);
      forall r | r in BatchRows(items[..n], rules) ensures exists i :: 0 <= i < |items| && items[i].id == r.tid {
        var i :| 0 <= i < n && items[..n][i].id == r.tid;
        assert items[i].id == r.tid;
      }
    }
  }

  /** No conflict key (anime, type, language) occurs twice in a batch of different anime. */
  lemma {:induction false} BatchKeysDiffer(items: seq<Anime>, rules: Rules)
    requires forall i, j :: 0 <= i < j < |items| ==> items[i].id != items[j].id
    ensures Apart(BatchRows(items, rules))
  {
    if items != [] {
      var n := |items| - 1;
      var a := items[n];
      var rows, more := BatchRows(items[..n], rules), AnimeRows(a.id, a.titles, rules);
      BatchKeysDiffer(items[..n], rules);
      AnimeRowsApart(a.id, a.titles, rules);
      forall r, s | r in rows && s in more ensures !Clash(r, s) {
        IdsDiffer(items, rules, r, s);
      }
      ApartJoin(rows, more);
    }
  }

  lemma IdsDiffer(items: seq<Anime>, rules: Rules, r: Row, s: Row)
    requires items != [] && forall i, j :: 0 <= i < j < |items| ==> items[i].id != items[j].id
    requires r in BatchRows(items[..|items| - 1], rules)
    requires s in AnimeRows(items[|items| - 1].id, items[|items| - 1].titles, rules)
    ensures r.tid != s.tid
  {
    var n := |items| - 1;
    BatchRowsCarryIds(items[..n], rules);
    AnimeRowsCarryId(items[n].id, items[n].titles, rules);
    var m :| 0 <= m < n && items[..n][m].id == r.tid;
    assert items[m].id != items[n].id;
  }

  // ---------- the loop ----------

  /** What the loop over the titles keeps: the titles chosen so far for a cleaned copy, the year, and how
      often each season was named. */
  datatype Picks = Picks(main: Option<Title>, english: Option<Title>, romaji: Option<Title>, pinyin: Option<Title>,
                         year: string, counts: map<string, nat>)

  const NO_PICKS := Picks(None, None, None, None, "", map[])

  /** The switch on a title's type. */
  function Switch(p: Picks, t: Title, rules: Rules): Picks {
    if t.kind == "main" then p.(main := Some(t))
    else if t.kind == "official" then (if t.lang == "en" then p.(english := Some(t)) else p)
    else if t.kind == "syn" then
      if t.lang == "en" then
        if p.english.None?
           || (p.english.value.kind == t.kind && rules.size(p.english.value.value) < rules.size(t.value))
        then p.(english := Some(t)) else p
      else if SeasonOf(t.value, rules).None? then p
      else if t.lang == "x-jat" then p.(romaji := Some(t))
      else if t.lang == "x-zht" then p.(pinyin := Some(t))
      else p
    else p
  }

  function Count(counts: map<string, nat>, season: string): map<string, nat> {
    counts[season := (if season in counts then counts[season] else 0) + 1]
  }

  /** The season a title votes for. */
  function Vote(t: Title, rules: Rules): Option<string> {
    if t.kind == "short" then None else SeasonOf(t.value, rules)
  }

  function Choose(p: Picks, t: Title, rules: Rules): Picks {
    Switch(p, t, rules).(year := if p.year == "" then YearOf(t.value, rules) else p.year,
                         counts := if Vote(t, rules).Some? then Count(p.counts, Vote(t, rules).value) else p.counts)
  }

  function Chosen(ts: seq<Title>, rules: Rules): Picks {
    if ts == [] then NO_PICKS else Choose(Chosen(ts[..|ts| - 1], rules), ts[|ts| - 1], rules)
  }

  lemma {:induction false} LastSnoc(ts: seq<Title>, t: Title, p: Title -> bool)
    ensures PickLast(ts + [t], p) == if p(t) then Some(t) else PickLast(ts, p)
  {
    assert (ts + [t])[..|ts|] == ts;
  }

  function NamesYear(rules: Rules): Title -> bool {
    (t: Title) => YearOf(t.value, rules) != ""
  }

  /** The year of the first title that names one. */
  function Year(ts: seq<Title>, rules: Rules): string {
    var first := First(ts, NamesYear(rules));
    if first.Some? then YearOf(ts[first.value].value, rules) else ""
  }

  lemma {:induction false} YearSnoc(ts: seq<Title>, t: Title, rules: Rules)
    ensures Year(ts + [t], rules) == if Year(ts, rules) != "" then Year(ts, rules) else YearOf(t.value, rules)
  {
    assert (ts + [t])[..|ts|] == ts;
  }

  /** The loop keeps the year of the first title that names one. */
  lemma {:induction false} ChosenYear(ts: seq<Title>, rules: Rules)
    ensures Chosen(ts, rules).year == Year(ts, rules)
  {
    if ts != [] {
      var init, t := ts[..|ts| - 1], ts[|ts| - 1];
      ChosenYear(init, rules);
      assert ts == init + [t];
      YearSnoc(init, t, rules);
    }
  }

  /** The last main title, the English title, and the last romaji and pinyin synonyms that name a season. */
  ghost predicate Picked(p: Picks, ts: seq<Title>, rules: Rules) {
    && p.main == PickLast(ts, IsMain) && p.english == English(ts, rules)
    && p.romaji == PickLast(ts, SeasonalSynonym("x-jat", rules))
    && p.pinyin == PickLast(ts, SeasonalSynonym("x-zht", rules))
  }

  /** The loop keeps these titles. */
  lemma {:induction false} ChosenAre(ts: seq<Title>, rules: Rules)
    ensures Picked(Chosen(ts, rules), ts, rules)
  {
    if ts != [] {
      var init, t := ts[..|ts| - 1], ts[|ts| - 1];
      ChosenAre(init, rules);
      assert ts == init + [t];
      SwitchPicks(Chosen(init, rules), init, t, rules);
    }
  }

  lemma {:induction false} SwitchPicks(p: Picks, ts: seq<Title>, t: Title, rules: Rules)
    requires Picked(p, ts, rules)
    ensures Picked(Switch(p, t, rules), ts + [t], rules)
  {
    LastSnoc(ts, t, IsMain);
    LastSnoc(ts, t, SeasonalSynonym("x-jat", rules));
    LastSnoc(ts, t, SeasonalSynonym("x-zht", rules));
    assert (ts + [t])[..|ts|] == ts;
  }

  // ---------- the season ----------

  /** How many titles vote for a season. */
  function Votes(ts: seq<Title>, season: string, rules: Rules): nat {
    if ts == [] then 0
    else Votes(ts[..|ts| - 1], season, rules) + if Vote(ts[|ts| - 1], rules) == Some(season) then 1 else 0
  }

  ghost predicate Tallied(ts: seq<Title>, rules: Rules, counts: map<string, nat>) {
    && (forall s :: Votes(ts, s, rules) == if s in counts then counts[s] else 0)
    && (forall s :: s in counts ==> counts[s] > 0)
  }

  lemma {:induction false} CountsAreVotes(ts: seq<Title>, rules: Rules)
    ensures Tallied(ts, rules, Chosen(ts, rules).counts)
  {
    if ts != [] { CountsAreVotes(ts[..|ts| - 1], rules); }
  }

  /** No season has more votes. */
  ghost predicate MostVotes(ts: seq<Title>, rules: Rules, season: string) {
    Votes(ts, season, rules) > 0 && forall s :: Votes(ts, s, rules) <= Votes(ts, season, rules)
  }

  /** The season of an anime: one with the most votes, and "1" without any. Which of several is left to the
      order in which the counts are walked. */
  ghost predicate IsSeason(ts: seq<Title>, rules: Rules, season: string) {
    if forall s :: Votes(ts, s, rules) == 0 then season == "1"
    else MostVotes(ts, rules, season) || (season == "1" && MostVotes(ts, rules, ""))
  }

  /** detectedSeasonCountMap.Season: the counts are walked in an order of Go's choosing. */
  method DetectSeason(counts: map<string, nat>, ghost ts: seq<Title>, ghost rules: Rules) returns (season: string)
    requires Tallied(ts, rules, counts)
    ensures IsSeason(ts, rules, season)
  {
    season := "";
    var max, left := 0, counts.Keys;
    while left != {}
      invariant left <= counts.Keys
      invariant forall s :: s in counts && s !in left ==> counts[s] <= max
      invariant if max == 0 then left == counts.Keys && season == "" else season in counts && counts[season] == max
      decreases left
    {
      var s :| s in left;
      left := left - {s};
      if counts[s] > max { season, max := s, counts[s]; }
    }
    assert max == 0 ==> forall s :: Votes(ts, s, rules) == 0;
    assert max > 0 ==> Votes(ts, season, rules) > 0 && MostVotes(ts, rules, season);
    if season == "" { season := "1"; }
  }

  /** seenAltMap after some titles. */
  function SeenKeys(ts: seq<Title>): set<(string, string)> {
    if ts == [] then {}
    else
      var t := ts[|ts| - 1];
      SeenKeys(ts[..|ts| - 1]) + if Taken(t) then {(t.kind, t.lang)} else {}
  }

  lemma {:induction false} SeenKeysAre(ts: seq<Title>, t: Title)
    requires Taken(t)
    ensures (t.kind, t.lang) in SeenKeys(ts) <==> exists m :: 0 <= m < |ts| && SameKey(ts[m], t)
  {
    if ts != [] {
      var n := |ts| - 1;
      SeenKeysAre(ts[..n], t);
      if m :| 0 <= m < n && SameKey(ts[..n][m], t) {
        assert SameKey(ts[m], t);
      } else {
        assert forall m :: 0 <= m < n ==> ts[m] == ts[..n][m];
      }
    }
  }

  lemma {:induction false} OneMoreTitle(tid: string, ts: seq<Title>, t: Title, rules: Rules)
    ensures Renamed(ts + [t]) == Renamed(ts) + [t.(kind := StoredKind(ts + [t]))]
    ensures Rows(tid, ts + [t])
            == Rows(tid, ts) + if Taken(t) then [Row(tid, StoredKind(ts + [t]), t.lang, t.value)] else []
    ensures !Taken(t) ==> StoredKind(ts + [t]) == t.kind && RepeatCount(ts + [t]) == RepeatCount(ts)
    ensures !Taken(t) ==> SeenKeys(ts + [t]) == SeenKeys(ts)
    ensures Chosen(ts + [t], rules) == Choose(Chosen(ts, rules), t, rules)
  {
    assert (ts + [t])[..|ts|] == ts;
  }

  /** A row as it is written. */
  datatype Record = Record(row: Row, season: string, year: string)

  /** Every row with the same season and year. */
  function Stamped(rows: seq<Row>, season: string, year: string): (r: seq<Record>)
    ensures |r| == |rows| && forall i :: 0 <= i < |r| ==> r[i] == Record(rows[i], season, year)
  {
    if rows == [] then [] else Stamped(rows[..|rows| - 1], season, year) + [Record(rows[|rows| - 1], season, year)]
  }

  /** The rows of one anime, with its season and year; repeated titles are renamed in place. */
  method BuildRows(tid: string, titles: array<Title>, rules: Rules) returns (records: seq<Record>)
    modifies titles
    ensures exists season :: IsSeason(old(titles[..]), rules, season)
                             && records == Stamped(AnimeRows(tid, old(titles[..]), rules), season,
                                                   Year(old(titles[..]), rules))
    ensures Apart(AnimeRows(tid, old(titles[..]), rules)) && titles[..] == Renamed(old(titles[..]))
  {
    ghost var ts := titles[..];
    var rows, picks := StoreTitles(tid, titles, rules);
    ChosenAre(ts, rules);
    ChosenYear(ts, rules);
    CountsAreVotes(ts, rules);
    var copies := CleanCopies(tid, [picks.main, picks.english, picks.romaji, picks.pinyin], rules);
    FourCopies(tid, picks.main, picks.english, picks.romaji, picks.pinyin, rules);
    rows := rows + copies;
    var season := DetectSeason(picks.counts, ts, rules);
    records := Stamp(rows, season, picks.year);
    AnimeRowsApart(tid, ts, rules);
  }

  /** The third loop. */
  method Stamp(rows: seq<Row>, season: string, year: string) returns (records: seq<Record>)
    ensures records == Stamped(rows, season, year)
  {
    records := [];
    for i := 0 to |rows|
      invariant records == Stamped(rows[..i], season, year)
    {
      assert rows[..i + 1][..i] == rows[..i];
      records := records + [Record(rows[i], season, year)];
    }
    assert rows[..|rows|] == rows;
  }

  /** The first loop, over the titles. */
  method StoreTitles(tid: string, titles: array<Title>, rules: Rules) returns (rows: seq<Row>, picks: Picks)
    modifies titles
    ensures rows == Rows(tid, old(titles[..])) && titles[..] == Renamed(old(titles[..]))
    ensures picks == Chosen(old(titles[..]), rules)
  {
    ghost var ts := titles[..];
    rows, picks := [], NO_PICKS;
    var seen: set<(string, string)> := {};
    var altIdx := 0;
    for i := 0 to titles.Length
      invariant titles[..i] == Renamed(ts[..i]) && titles[i..] == ts[i..]
      invariant rows == Rows(tid, ts[..i]) && altIdx == RepeatCount(ts[..i]) && seen == SeenKeys(ts[..i])
      invariant picks == Chosen(ts[..i], rules)
    {
      ghost var done := ts[..i];
      var t := titles[i];
      assert t == ts[i] && ts[..i + 1] == done + [t];
      picks := Choose(picks, t, rules);
      OneMoreTitle(tid, done, t, rules);
      if Taken(t) {
        var stored;
        stored, seen, altIdx := Rename(done, t, seen, altIdx);
        titles[i] := stored;
        rows := rows + [Row(tid, stored.kind, t.lang, t.value)];
      }
      assert titles[..i + 1] == titles[..i] + [titles[i]];
      assert titles[i + 1..] == ts[i..][1..] == ts[i + 1..];
    }
    assert ts[..|ts|] == ts && titles[..titles.Length] == titles[..];
  }

  /** The key test for a stored title. */
  method Rename(ghost ts: seq<Title>, t: Title, seen: set<(string, string)>, altIdx: nat)
    returns (stored: Title, seen': set<(string, string)>, altIdx': nat)
    requires Taken(t) && seen == SeenKeys(ts) && altIdx == RepeatCount(ts)
    ensures stored == t.(kind := StoredKind(ts + [t]))
    ensures seen' == SeenKeys(ts + [t]) && altIdx' == RepeatCount(ts + [t])
  {
    stored, altIdx' := t, altIdx;
    assert (ts + [t])[..|ts|] == ts;
    SeenKeysAre(ts, t);
    assert forall m :: 0 <= m < |ts| ==> (ts + [t])[m] == ts[m];
    assert (t.kind, t.lang) in seen <==> Repeats(ts + [t], |ts|);
    if (t.kind, t.lang) in seen {
      altIdx' := altIdx + 1;
      stored := t.(kind := Alt(t.kind, altIdx'));
    }
    seen' := seen + {(t.kind, t.lang)};
  }

  function CopiesOf(tid: string, chosen: seq<Option<Title>>, rules: Rules): seq<Row> {
    if chosen == [] then [] else CopiesOf(tid, chosen[..|chosen| - 1], rules) + Cleaned(tid, chosen[|chosen| - 1], rules)
  }

  /** The second loop: a cleaned copy of each title chosen. */
  method CleanCopies(tid: string, chosen: seq<Option<Title>>, rules: Rules) returns (rows: seq<Row>)
    ensures rows == CopiesOf(tid, chosen, rules)
  {
    rows := [];
    for i := 0 to |chosen|
      invariant rows == CopiesOf(tid, chosen[..i], rules)
    {
      assert chosen[..i + 1][..i] == chosen[..i];
      if chosen[i].Some? {
        var t := chosen[i].value;
        rows := rows + [Row(tid, "clean-" + t.kind, t.lang, rules.clean(t.value))];
      }
    }
    assert chosen[..|chosen|] == chosen;
  }

  lemma {:induction false} CopiesSnoc(tid: string, chosen: seq<Option<Title>>, t: Option<Title>, rules: Rules)
    ensures CopiesOf(tid, chosen + [t], rules) == CopiesOf(tid, chosen, rules) + Cleaned(tid, t, rules)
  {
    assert (chosen + [t])[..|chosen|] == chosen;
  }

  lemma {:induction false} TwoCopies(tid: string, m: Option<Title>, e: Option<Title>, rules: Rules)
    ensures CopiesOf(tid, [m, e], rules) == Cleaned(tid, m, rules) + Cleaned(tid, e, rules)
  {
    CopiesSnoc(tid, [], m, rules);
    CopiesSnoc(tid, [m], e, rules);
    assert [] + [m] == [m] && [m] + [e] == [m, e];
    assert CopiesOf(tid, [], rules) + Cleaned(tid, m, rules) == Cleaned(tid, m, rules);
  }

  lemma {:induction false} FourCopies(tid: string, m: Option<Title>, e: Option<Title>, r: Option<Title>,
                                      p: Option<Title>, rules: Rules)
    ensures CopiesOf(tid, [m, e, r, p], rules)
            == Cleaned(tid, m, rules) + Cleaned(tid, e, rules) + Cleaned(tid, r, rules) + Cleaned(tid, p, rules)
  {
    TwoCopies(tid, m, e, rules);
    CopiesSnoc(tid, [m, e], r, rules);
    CopiesSnoc(tid, [m, e, r], p, rules);
    assert [m, e] + [r] == [m, e, r] && [m, e, r] + [p] == [m, e, r, p];
  }
}
