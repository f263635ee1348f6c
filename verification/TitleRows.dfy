/** The rows, season and year of Titles in terms of the titles themselves (internal/anidb/title_dataset.go). */
module TitleRows {
  import opened Options
  import opened GoStrings
  import opened Histories
  import opened Titles

  // ---------- the season ----------

  /** The title names season s: it is not a short title, and s has at most two digits and no leading zero. */
  predicate NamesSeason(t: Title, s: string, rules: Rules) {
    t.kind != "short" && rules.season(t.value) == Some(s) && |s| <= 2 && (s == "" || s[0] != '0')
  }

  /** The titles that name season s. */
  function Naming(ts: seq<Title>, s: string, rules: Rules): set<int> {
    set n: int | 0 <= n < |ts| && NamesSeason(ts[n], s, rules)
  }

  lemma VoteNames(t: Title, s: string, rules: Rules)
    ensures Vote(t, rules) == Some(s) <==> NamesSeason(t, s, rules)
  {
    assert s != "" && s[0] == '0' ==> s[..1] == "0";
  }

  lemma NamingStep(ts: seq<Title>, s: string, rules: Rules)
    requires ts != []
    ensures var n := |ts| - 1;
            |Naming(ts, s, rules)| == |Naming(ts[..n], s, rules)| + if NamesSeason(ts[n], s, rules) then 1 else 0
  {
    var n := |ts| - 1;
    var before := Naming(ts[..n], s, rules);
    assert n !in before;
    assert Naming(ts, s, rules) == before + if NamesSeason(ts[n], s, rules) then {n} else {};
  }

  lemma {:induction false} VotesAreNaming(ts: seq<Title>, s: string, rules: Rules)
    ensures Votes(ts, s, rules) == |Naming(ts, s, rules)|
  {
    if ts != [] {
      var n := |ts| - 1;
      VotesAreNaming(ts[..n], s, rules);
      VoteNames(ts[n], s, rules);
      NamingStep(ts, s, rules);
    }
  }

  /** The season is "1" when no title names one. Otherwise it is one that no other is named more often than (which
      stands for "1" should it be the empty text). */
  lemma {:induction false} SeasonIsMostNamed(ts: seq<Title>, rules: Rules, season: string)
    requires IsSeason(ts, rules, season)
    ensures (forall n, s :: 0 <= n < |ts| ==> !NamesSeason(ts[n], s, rules)) ==> season == "1"
    ensures (exists n, s :: 0 <= n < |ts| && NamesSeason(ts[n], s, rules)) ==>
              exists most :: (season == most || (season == "1" && most == "")) && Naming(ts, most, rules) != {}
                             && forall s :: |Naming(ts, s, rules)| <= |Naming(ts, most, rules)|
  {
    forall s ensures Votes(ts, s, rules) == |Naming(ts, s, rules)| {
      VotesAreNaming(ts, s, rules);
    }
    if n, s :| 0 <= n < |ts| && NamesSeason(ts[n], s, rules) {
      assert n in Naming(ts, s, rules);
      assert Votes(ts, s, rules) > 0;
      var most := if MostVotes(ts, rules, season) then season else "";
      assert MostVotes(ts, rules, most);
      assert Naming(ts, most, rules) != {};
    } else {
      forall s ensures Votes(ts, s, rules) == 0 {
        assert Naming(ts, s, rules) == {};
      }
    }
  }

  // ---------- the year ----------

  /** The year is that of the first title that names one. */
  lemma YearIsFirstNamed(ts: seq<Title>, rules: Rules, n: nat, y: string)
    ensures (forall m :: 0 <= m < |ts| ==> rules.year(ts[m].value) in {None, Some("")}) ==> Year(ts, rules) == ""
    ensures n < |ts| && rules.year(ts[n].value) == Some(y) && y != ""
            && (forall m :: 0 <= m < n ==> rules.year(ts[m].value) in {None, Some("")}) ==>
              Year(ts, rules) == y
  {
    var first := First(ts, NamesYear(rules));
    if n < |ts| && rules.year(ts[n].value) == Some(y) && y != "" {
      assert NamesYear(rules)(ts[n]);
    }
  }

  // ---------- the rows ----------

  predicate IsStored(t: Title) {
    t.kind == "main" || t.kind == "official" || t.kind == "syn"
  }

  /** The title is stored, and an earlier one has its type and language. */
  predicate Recurs(ts: seq<Title>, m: nat)
    requires m < |ts|
  {
    IsStored(ts[m]) && exists l :: 0 <= l < m && ts[l].kind == ts[m].kind && ts[l].lang == ts[m].lang
  }

  /** The titles up to n that recur. */
  function Repeated(ts: seq<Title>, n: int): set<int> {
    set m: int | 0 <= m <= n && m < |ts| && Recurs(ts, m)
  }

  lemma RecursInPrefix(ts: seq<Title>, n: nat, m: nat)
    requires m < n <= |ts|
    ensures Recurs(ts[..n], m) <==> Recurs(ts, m)
  {
    assert forall l :: 0 <= l <= m ==> ts[..n][l] == ts[l];
  }

  lemma RepeatedOfPrefix(ts: seq<Title>, n: nat)
    requires n <= |ts|
    ensures Repeated(ts[..n], n - 1) == Repeated(ts, n - 1)
  {
    forall m: nat | m < n ensures Recurs(ts[..n], m) <==> Recurs(ts, m) {
      RecursInPrefix(ts, n, m);
    }
  }

  lemma RepeatedStep(ts: seq<Title>, n: nat)
    requires n < |ts|
    ensures Repeated(ts, n) == Repeated(ts, n - 1) + if Recurs(ts, n) then {n} else {}
    ensures |Repeated(ts, n)| == |Repeated(ts, n - 1)| + if Recurs(ts, n) then 1 else 0
  {
    assert Repeated(ts, n) == Repeated(ts, n - 1) + if Recurs(ts, n) then {n} else {};
    assert n !in Repeated(ts, n - 1);
  }

  lemma {:induction false} RepeatCountIsSize(ts: seq<Title>)
    ensures RepeatCount(ts) == |Repeated(ts, |ts| - 1)|
  {
    if ts != [] {
      var n := |ts| - 1;
      RepeatCountIsSize(ts[..n]);
      RepeatedOfPrefix(ts, n);
      RepeatedStep(ts, n);
      RepeatsRecurs(ts, n);
    } else {
      assert Repeated(ts, -1) == {};
    }
  }

  lemma RepeatsRecurs(ts: seq<Title>, n: nat)
    requires n < |ts|
    ensures Repeats(ts, n) <==> Recurs(ts, n)
  {
    if m :| 0 <= m < n && SameKey(ts[m], ts[n]) {
      assert ts[m].kind == ts[n].kind && ts[m].lang == ts[n].lang;
    }
  }

  /** Each stored title has a row with its language and value. A type and language that occurred before get the type
      "-alt-" and the number of repetitions so far, in the whole anime, behind it. */
  lemma {:induction false} TitleHasRow(tid: string, ts: seq<Title>, n: nat) returns (i: nat)
    requires n < |ts| && IsStored(ts[n])
    ensures i < |Rows(tid, ts)|
    ensures Rows(tid, ts)[i]
            == Row(tid, if n in Repeated(ts, n) then ts[n].kind + "-alt-" + Itoa(|Repeated(ts, n)|) else ts[n].kind,
                   ts[n].lang, ts[n].value)
  {
    i := NoTitleIsLost(tid, ts, n);
    RowsCarryId(tid, ts);
    assert Rows(tid, ts)[i] in Rows(tid, ts);
    StoredKindIs(ts, n);
  }

  lemma {:induction false} StoredKindIs(ts: seq<Title>, n: nat)
    requires n < |ts| && IsStored(ts[n])
    ensures StoredKind(ts[..n + 1])
            == if n in Repeated(ts, n) then ts[n].kind + "-alt-" + Itoa(|Repeated(ts, n)|) else ts[n].kind
  {
    var upTo := ts[..n + 1];
    RepeatCountIsSize(upTo);
    RepeatedOfPrefix(ts, n + 1);
    RecursInPrefix(ts, n + 1, n);
    RepeatsRecurs(upTo, n);
  }

  function Stored(ts: seq<Title>): set<int> {
    set n: int | 0 <= n < |ts| && IsStored(ts[n])
  }

  /** And there are no other rows. */
  lemma {:induction false} RowsAreTitles(tid: string, ts: seq<Title>)
    ensures |Rows(tid, ts)| == |Stored(ts)|
  {
    if ts != [] {
      var k := |ts| - 1;
      RowsAreTitles(tid, ts[..k]);
      assert Stored(ts) == Stored(ts[..k]) + if IsStored(ts[k]) then {k} else {};
    }
  }

  // ---------- the cleaned copies ----------

  function CopyOf(tid: string, t: Title, rules: Rules): Row {
    Row(tid, "clean-" + t.kind, t.lang, rules.clean(t.value))
  }

  /** t is the last title of its type and language, and names a season if it has to. */
  ghost predicate LastOf(ts: seq<Title>, n: nat, p: Title -> bool) {
    n < |ts| && p(ts[n]) && forall m :: n < m < |ts| ==> !p(ts[m])
  }

  function Main(): Title -> bool { (t: Title) => t.kind == "main" }
  function OfficialEnglish(): Title -> bool { (t: Title) => t.kind == "official" && t.lang == "en" }
  function EnglishSynonym(): Title -> bool { (t: Title) => t.kind == "syn" && t.lang == "en" }

  function SeasonSynonym(lang: string, rules: Rules): Title -> bool {
    (t: Title) => t.kind == "syn" && t.lang == lang && rules.season(t.value).Some?
                  && NamesSeason(t, rules.season(t.value).value, rules)
  }

  /** The earliest of the longest. */
  ghost predicate LongestOf(ts: seq<Title>, n: nat, p: Title -> bool, rules: Rules) {
    && n < |ts| && p(ts[n])
    && forall m :: 0 <= m < |ts| && p(ts[m]) ==>
         || rules.size(ts[m].value) < rules.size(ts[n].value)
         || (n <= m && rules.size(ts[m].value) == rules.size(ts[n].value))
  }

  lemma SeasonalNames(lang: string, rules: Rules, t: Title)
    ensures SeasonalSynonym(lang, rules)(t) == SeasonSynonym(lang, rules)(t)
  {
    if rules.season(t.value).Some? && rules.season(t.value).value != "" {
      assert rules.season(t.value).value[0] == '0' <==> "0" <= rules.season(t.value).value;
    }
  }

  lemma {:induction false} LastIsPicked(ts: seq<Title>, n: nat, p: Title -> bool, q: Title -> bool)
    requires forall t :: p(t) == q(t)
    ensures LastOf(ts, n, p) ==> PickLast(ts, q) == Some(ts[n])
    ensures (forall m :: 0 <= m < |ts| ==> !p(ts[m])) ==> PickLast(ts, q).None?
  {
    FoundAlike(ts, ts, p, q);
  }

  /** Four titles get a cleaned copy, in this order: the last main title; the last official English title, or without
      any the earliest of the longest English synonyms; and the last x-jat and the last x-zht synonym that names a
      season. */
  lemma {:induction false} CopiesAre(tid: string, ts: seq<Title>, rules: Rules, m: nat, o: nat, s: nat, j: nat, z: nat)
    requires LastOf(ts, m, Main()) || forall t :: t in ts ==> !Main()(t)
    requires LastOf(ts, o, OfficialEnglish()) || forall t :: t in ts ==> !OfficialEnglish()(t)
    requires LongestOf(ts, s, EnglishSynonym(), rules) || forall t :: t in ts ==> !EnglishSynonym()(t)
    requires LastOf(ts, j, SeasonSynonym("x-jat", rules)) || forall t :: t in ts ==> !SeasonSynonym("x-jat", rules)(t)
    requires LastOf(ts, z, SeasonSynonym("x-zht", rules)) || forall t :: t in ts ==> !SeasonSynonym("x-zht", rules)(t)
    ensures CleanRows(tid, ts, rules)
            == (if LastOf(ts, m, Main()) then [CopyOf(tid, ts[m], rules)] else [])
             + (if LastOf(ts, o, OfficialEnglish()) then [CopyOf(tid, ts[o], rules)]
                else if LongestOf(ts, s, EnglishSynonym(), rules) then [CopyOf(tid, ts[s], rules)] else [])
             + (if LastOf(ts, j, SeasonSynonym("x-jat", rules)) then [CopyOf(tid, ts[j], rules)] else [])
             + (if LastOf(ts, z, SeasonSynonym("x-zht", rules)) then [CopyOf(tid, ts[z], rules)] else [])
  {
    LastIsPicked(ts, m, Main(), IsMain);
    EnglishCopy(ts, rules, o, s);
    forall t ensures SeasonSynonym("x-jat", rules)(t) == SeasonalSynonym("x-jat", rules)(t) {
      SeasonalNames("x-jat", rules, t);
    }
    LastIsPicked(ts, j, SeasonSynonym("x-jat", rules), SeasonalSynonym("x-jat", rules));
    forall t ensures SeasonSynonym("x-zht", rules)(t) == SeasonalSynonym("x-zht", rules)(t) {
      SeasonalNames("x-zht", rules, t);
    }
    LastIsPicked(ts, z, SeasonSynonym("x-zht", rules), SeasonalSynonym("x-zht", rules));
  }

  lemma {:induction false} EnglishCopy(ts: seq<Title>, rules: Rules, o: nat, s: nat)
    requires LastOf(ts, o, OfficialEnglish()) || forall t :: t in ts ==> !OfficialEnglish()(t)
    requires LongestOf(ts, s, EnglishSynonym(), rules) || forall t :: t in ts ==> !EnglishSynonym()(t)
    ensures English(ts, rules) == if LastOf(ts, o, OfficialEnglish()) then Some(ts[o])
                                  else if LongestOf(ts, s, EnglishSynonym(), rules) then Some(ts[s]) else None
  {
    LastIsPicked(ts, o, OfficialEnglish(), IsOfficialEnglish);
    var i := EnglishIsBest(ts, rules);
    if !LastOf(ts, o, OfficialEnglish()) && English(ts, rules).Some? {
      assert EnglishSynonym()(ts[i]) && ts[i] in ts;
      assert i == s;
    }
    assert LongestOf(ts, s, EnglishSynonym(), rules) ==> ts[s] in ts && IsEnglishSynonym(ts[s]);
  }
}
