/** Torznab queries of internal/torznab/query.go: printing to URL values and parsing them, where the map of
    values is walked in an arbitrary order. */
module Torznab {
  import opened Options
  import opened GoStrings
  import opened MapTexts

  /** URL values; a key never has an empty list. */
  type Values = map<string, seq<string>>

  datatype Query = Query(kind: string, q: string, series: string, movie: string, ep: string, season: string,
                         year: GoInt, limit: GoInt, offset: GoInt, extended: bool, categories: seq<GoInt>,
                         apiKey: string, tvdbId: string, tvRageId: string, imdbId: string, tvMazeId: string,
                         traktId: string)

  const EMPTY_QUERY := Query("", "", "", "", "", "", 0, 0, 0, false, [], "", "", "", "", "", "")

  /** The parameters ParseQuery looks at. */
  datatype Field = Kind | Q | Year | Ep | Season | ApiKey | Limit | Offset | Cat | Imdb

  function Name(f: Field): string {
    match f
    case Kind => "t" case Q => "q" case Year => "year" case Ep => "ep" case Season => "season"
    case ApiKey => "apikey" case Limit => "limit" case Offset => "offset" case Cat => "cat" case Imdb => "imdbid"
  }

  function FieldOf(name: string): Option<Field> {
    if name == "t" then Some(Kind) else if name == "q" then Some(Q) else if name == "year" then Some(Year)
    else if name == "ep" then Some(Ep) else if name == "season" then Some(Season)
    else if name == "apikey" then Some(ApiKey) else if name == "limit" then Some(Limit)
    else if name == "offset" then Some(Offset) else if name == "cat" then Some(Cat)
    else if name == "imdbid" then Some(Imdb) else None
  }

  lemma FieldOfName(f: Field)
    ensures FieldOf(Name(f)) == Some(f)
  {
  }

  lemma NameOfField(name: string)
    ensures FieldOf(name).Some? ==> Name(FieldOf(name).value) == name
  {
  }

  lemma SameField(a: string, b: string)
    ensures FieldOf(a).Some? && FieldOf(a) == FieldOf(b) ==> a == b
  {
    NameOfField(a);
    NameOfField(b);
  }

  function LowerChar(c: char): char {
    if 'A' <= c <= 'Z' then (c as int + 32) as char else c
  }

  /** strings.ToLower on ASCII. */
  function Lower(s: string): (r: string)
    ensures |r| == |s| && forall i :: 0 <= i < |s| ==> r[i] == LowerChar(s[i])
  {
    seq(|s|, i requires 0 <= i < |s| => LowerChar(s[i]))
  }

  // ---------- parsing ----------

  function SplitInts(parts: seq<string>): Option<seq<GoInt>> {
    if parts == [] then Some([])
    else
      var init, last := SplitInts(parts[..|parts| - 1]), Atoi(parts[|parts| - 1]);
      if init.None? || last.None? then None else Some(init.value + [last.value])
  }

  /** All category lists of a key, None when one of them does not parse. */
  function Categories(vals: seq<string>): Option<seq<GoInt>> {
    if vals == [] then Some([])
    else
      var init, last := Categories(vals[..|vals| - 1]), SplitInts(Split(vals[|vals| - 1], ','));
      if init.None? || last.None? then None else Some(init.value + last.value)
  }

  function WithPrefix(id: string): string {
    if "tt" <= id then id else "tt" + id
  }

  /** The value of a parameter that may be given once only. */
  function Single(vals: seq<string>): Option<string>
    requires vals != []
  {
    if |vals| > 1 then None else Some(vals[0])
  }

  function SingleInt(vals: seq<string>): Option<GoInt>
    requires vals != []
  {
    if |vals| > 1 then None else Atoi(vals[0])
  }

  /** Whether the values given for a parameter are accepted. */
  predicate Accepts(f: Field, vals: seq<string>)
    requires vals != []
  {
    match f
    case Q => true
    case Cat => Categories(vals).Some?
    case Kind => Single(vals).Some?
    case ApiKey => Single(vals).Some?
    case Imdb => Single(vals).Some?
    case Year => SingleInt(vals).Some?
    case Limit => SingleInt(vals).Some?
    case Offset => SingleInt(vals).Some?
    case Ep => SingleInt(vals).Some?
    case Season => SingleInt(vals).Some?
  }

  lemma {:induction false} SplitIntsWhen(parts: seq<string>)
    ensures SplitInts(parts).Some? <==> forall i :: 0 <= i < |parts| ==> Atoi(parts[i]).Some?
  {
    if parts != [] {
      SplitIntsWhen(parts[..|parts| - 1]);
    }
  }

  lemma {:induction false} CategoriesWhen(vals: seq<string>)
    ensures Categories(vals).Some? <==> forall i :: 0 <= i < |vals| ==> AllIntegers(vals[i])
  {
    if vals != [] {
      CategoriesWhen(vals[..|vals| - 1]);
      SplitIntsWhen(Split(vals[|vals| - 1], ','));
    }
  }

  /** A comma-separated list of integers. */
  predicate AllIntegers(val: string) {
    forall i :: 0 <= i < |Split(val, ',')| ==> Atoi(Split(val, ',')[i]).Some?
  }

  /** q may be given any number of times; cat too, each time as a list of integers; every other parameter once, and
      year, ep, season, limit and offset as an integer. */
  lemma AcceptedWhen(f: Field, vals: seq<string>)
    requires vals != []
    ensures Accepts(f, vals)
            <==> f == Q || (f == Cat && forall i :: 0 <= i < |vals| ==> AllIntegers(vals[i]))
                 || (f in {Kind, ApiKey, Imdb} && |vals| == 1)
                 || (f in {Year, Ep, Season, Limit, Offset} && |vals| == 1 && Atoi(vals[0]).Some?)
  {
    CategoriesWhen(vals);
  }

  /** A key is a parameter's name in upper, lower or mixed case, and nothing else is. */
  lemma NamedInAnyCase(key: string, f: Field)
    ensures FieldOf(Lower(key)) == Some(f)
            <==> |key| == |Name(f)| && forall i :: 0 <= i < |key| ==>
                   || key[i] == Name(f)[i]
                   || ('A' <= key[i] <= 'Z' && key[i] as int + 'a' as int - 'A' as int == Name(f)[i] as int)
  {
    FieldOfName(f);
    NameOfField(Lower(key));
    NamesHaveNoCapitals(f);
    if |key| == |Name(f)| && forall i :: 0 <= i < |key| ==> LowerChar(key[i]) == Name(f)[i] {
      assert Lower(key) == Name(f);
    } else {
      assert Lower(key) != Name(f);
    }
  }

  lemma NamesHaveNoCapitals(f: Field)
    ensures forall i :: 0 <= i < |Name(f)| ==> !('A' <= Name(f)[i] <= 'Z')
  {
  }

  /** What an accepted parameter contributes. */
  function SetField(x: Query, f: Field, vals: seq<string>): Query
    requires vals != [] && Accepts(f, vals)
  {
    match f
    case Q => x.(q := Join(vals, " "))
    case Cat => x.(categories := Categories(vals).value)
    case Kind => x.(kind := vals[0])
    case ApiKey => x.(apiKey := vals[0])
    case Imdb => x.(imdbId := WithPrefix(vals[0]))
    case Year => x.(year := SingleInt(vals).value)
    case Limit => x.(limit := SingleInt(vals).value)
    case Offset => x.(offset := SingleInt(vals).value)
    case Ep => x.(ep := vals[0])
    case Season => x.(season := vals[0])
  }

  /** ParseQuery walking the keys in the given order. */
  function Parse(vs: Values, order: seq<string>): Option<Query>
    requires forall k :: k in order ==> k in vs && vs[k] != []
  {
    if order == [] then Some(EMPTY_QUERY)
    else
      var n := |order| - 1;
      var x, f := Parse(vs, order[..n]), FieldOf(Lower(order[n]));
      if x.None? then None
      else if f.None? then x
      else if Accepts(f.value, vs[order[n]]) then Some(SetField(x.value, f.value, vs[order[n]]))
      else None
  }

  // ---------- independence of the order ----------

  type Fields = map<Field, seq<string>>

  ghost predicate AllAccepted(m: Fields) {
    forall f :: f in m ==> m[f] != [] && Accepts(f, m[f])
  }

  function Get(m: Fields, f: Field): seq<string> {
    if f in m then m[f] else []
  }

  function Text(vals: seq<string>): string {
    if vals == [] then "" else vals[0]
  }

  function Int(vals: seq<string>): GoInt {
    if vals == [] || SingleInt(vals).None? then 0 else SingleInt(vals).value
  }

  function List(vals: seq<string>): seq<GoInt> {
    if Categories(vals).None? then [] else Categories(vals).value
  }

  /** The query with the given parameters and nothing else. */
  function Assemble(kind: string, q: string, ep: string, season: string, year: GoInt, limit: GoInt, offset: GoInt,
                    categories: seq<GoInt>, apiKey: string, imdbId: string): Query {
    Query(kind, q, "", "", ep, season, year, limit, offset, false, categories, apiKey, "", "", imdbId, "", "")
  }

  function Id(vals: seq<string>): string {
    if vals == [] then "" else WithPrefix(vals[0])
  }

  /** The query a set of parameters describes, without any order. */
  function Build(m: Fields): Query {
    Assemble(Text(Get(m, Kind)), Join(Get(m, Q), " "), Text(Get(m, Ep)), Text(Get(m, Season)), Int(Get(m, Year)),
             Int(Get(m, Limit)), Int(Get(m, Offset)), List(Get(m, Cat)), Text(Get(m, ApiKey)), Id(Get(m, Imdb)))
  }

  ghost function Described(m: Fields): Option<Query> {
    if AllAccepted(m) then Some(Build(m)) else None
  }

  lemma GetUpdated(m: Fields, f: Field, vals: seq<string>)
    ensures forall g: Field :: Get(m[f := vals], g) == if g == f then vals else Get(m, g)
  {
    var r := m[f := vals];
    forall g: Field ensures Get(r, g) == if g == f then vals else Get(m, g) {
      assert g in r <==> g == f || g in m;
      if g in r { assert r[g] == if g == f then vals else m[g]; }
    }
  }

  ghost predicate Updates(m: Fields, r: Fields, f: Field, vals: seq<string>) {
    forall g: Field :: Get(r, g) == if g == f then vals else Get(m, g)
  }

  lemma SetText(m: Fields, r: Fields, f: Field, vals: seq<string>)
    requires vals != [] && Accepts(f, vals) && Updates(m, r, f, vals) && f in {Kind, Ep, Season, ApiKey}
    ensures SetField(Build(m), f, vals) == Build(r)
  {
  }

  lemma SetInt(m: Fields, r: Fields, f: Field, vals: seq<string>)
    requires vals != [] && Accepts(f, vals) && Updates(m, r, f, vals) && f in {Year, Limit, Offset}
    ensures SetField(Build(m), f, vals) == Build(r)
  {
  }

  lemma SetOther(m: Fields, r: Fields, f: Field, vals: seq<string>)
    requires vals != [] && Accepts(f, vals) && Updates(m, r, f, vals) && f in {Q, Cat, Imdb}
    ensures SetField(Build(m), f, vals) == Build(r)
  {
  }

  /** Setting one more parameter extends the description. */
  lemma SetFieldDescribes(m: Fields, r: Fields, f: Field, vals: seq<string>)
    requires vals != [] && Accepts(f, vals) && Updates(m, r, f, vals)
    ensures SetField(Build(m), f, vals) == Build(r)
  {
    match f
    case Q => SetOther(m, r, f, vals);
    case Cat => SetOther(m, r, f, vals);
    case Imdb => SetOther(m, r, f, vals);
    case Kind => SetText(m, r, f, vals);
    case Ep => SetText(m, r, f, vals);
    case Season => SetText(m, r, f, vals);
    case ApiKey => SetText(m, r, f, vals);
    case Year => SetInt(m, r, f, vals);
    case Limit => SetInt(m, r, f, vals);
    case Offset => SetInt(m, r, f, vals);
  }

  /** The parameters among the keys of an order. */
  function FieldsOf(vs: Values, order: seq<string>): Fields
    requires forall k :: k in order ==> k in vs
  {
    if order == [] then map[]
    else
      var n := |order| - 1;
      var m, f := FieldsOf(vs, order[..n]), FieldOf(Lower(order[n]));
      if f.None? then m else m[f.value := vs[order[n]]]
  }

  /** No two keys are the same up to case. */
  ghost predicate CaseDistinct(order: seq<string>) {
    forall i, j :: 0 <= i < j < |order| ==> Lower(order[i]) != Lower(order[j])
  }

  lemma {:induction false} FieldFrom(vs: Values, order: seq<string>, f: Field) returns (k: string)
    requires forall k :: k in order ==> k in vs
    requires f in FieldsOf(vs, order)
    ensures k in order && FieldOf(Lower(k)) == Some(f) && FieldsOf(vs, order)[f] == vs[k]
  {
    var n := |order| - 1;
    k := order[n];
    if FieldOf(Lower(k)) != Some(f) { k := FieldFrom(vs, order[..n], f); }
  }

  lemma {:induction false} FieldGiven(vs: Values, order: seq<string>, i: nat, f: Field)
    requires CaseDistinct(order) && forall k :: k in order ==> k in vs
    requires i < |order| && FieldOf(Lower(order[i])) == Some(f)
    ensures f in FieldsOf(vs, order) && FieldsOf(vs, order)[f] == vs[order[i]]
  {
    var n := |order| - 1;
    if i < n {
      FieldGiven(vs, order[..n], i, f);
      SameField(Lower(order[i]), Lower(order[n]));
    }
  }

  /** Parsing along an order gives what its parameters describe. */
  lemma {:induction false} ParseDescribes(vs: Values, order: seq<string>)
    requires CaseDistinct(order) && forall k :: k in order ==> k in vs && vs[k] != []
    ensures Parse(vs, order) == Described(FieldsOf(vs, order))
  {
    if order != [] {
      var n := |order| - 1;
      var m, f := FieldsOf(vs, order[..n]), FieldOf(Lower(order[n]));
      ParseDescribes(vs, order[..n]);
      if f.Some? {
        if f.value in m {
          var k := FieldFrom(vs, order[..n], f.value);
          SameField(Lower(k), Lower(order[n]));
          assert false;
        }
        ExtendDescription(m, f.value, vs[order[n]]);
      }
    }
  }

  lemma AcceptedMore(m: Fields, f: Field, vals: seq<string>)
    requires f !in m && vals != []
    ensures AllAccepted(m[f := vals]) <==> AllAccepted(m) && Accepts(f, vals)
  {
    var r := m[f := vals];
    assert r[f] == vals && forall g :: g in m ==> g in r && r[g] == m[g];
  }

  lemma ExtendDescription(m: Fields, f: Field, vals: seq<string>)
    requires f !in m && vals != []
    ensures Described(m[f := vals])
            == if Described(m).Some? && Accepts(f, vals) then Some(SetField(Described(m).value, f, vals)) else None
  {
    AcceptedMore(m, f, vals);
    GetUpdated(m, f, vals);
    if Accepts(f, vals) {
      SetFieldDescribes(m, m[f := vals], f, vals);
    }
  }

  lemma {:induction false} SameFieldsEitherWay(vs: Values, a: seq<string>, b: seq<string>, f: Field)
    requires Enumerates(a, vs.Keys) && Enumerates(b, vs.Keys) && CaseDistinct(b)
    requires f in FieldsOf(vs, a)
    ensures f in FieldsOf(vs, b) && FieldsOf(vs, a)[f] == FieldsOf(vs, b)[f]
  {
    var k := FieldFrom(vs, a, f);
    var i :| 0 <= i < |b| && b[i] == k;
    FieldGiven(vs, b, i, f);
  }

  /** With keys distinct up to case, neither success nor the parsed query depends on the order in which
      the values are walked. */
  lemma {:induction false} OrderDoesNotMatter(vs: Values, a: seq<string>, b: seq<string>)
    requires Enumerates(a, vs.Keys) && Enumerates(b, vs.Keys) && CaseDistinct(a) && CaseDistinct(b)
    requires forall k :: k in vs ==> vs[k] != []
    ensures Parse(vs, a) == Parse(vs, b)
  {
    ParseDescribes(vs, a);
    ParseDescribes(vs, b);
    forall f: Field | f in FieldsOf(vs, a) ensures f in FieldsOf(vs, b) && FieldsOf(vs, a)[f] == FieldsOf(vs, b)[f] {
      SameFieldsEitherWay(vs, a, b, f);
    }
    forall f: Field | f in FieldsOf(vs, b) ensures f in FieldsOf(vs, a) {
      SameFieldsEitherWay(vs, b, a, f);
    }
    assert FieldsOf(vs, a) == FieldsOf(vs, b);
  }

  /** The loop of ParseQuery over the keys in an order of Go's choosing. */
  method ParseQuery(vs: Values) returns (r: Option<Query>)
    requires forall k :: k in vs ==> vs[k] != []
    ensures r.Some? ==> exists order :: Enumerates(order, vs.Keys) && r == Parse(vs, order)
    ensures r.None? ==> exists k :: k in vs && FieldOf(Lower(k)).Some? && !Accepts(FieldOf(Lower(k)).value, vs[k])
  {
    var x := EMPTY_QUERY;
    ghost var order := [];
    var left, done := vs.Keys, {};
    while left != {}
      invariant done + left == vs.Keys && done !! left && Enumerates(order, done)
      invariant Some(x) == Parse(vs, order)
      decreases left
    {
      var k :| k in left;
      EnumeratesSnoc(order, done, k);
      assert (order + [k])[..|order|] == order;
      var f := FieldOf(Lower(k));
      if f.Some? {
        if !Accepts(f.value, vs[k]) { return None; }
        x := SetField(x, f.value, vs[k]);
      }
      left, done, order := left - {k}, done + {k}, order + [k];
    }
    assert done == vs.Keys;
    return Some(x);
  }

  // ---------- printing ----------

  function TrimTT(id: string): string {
    if "tt" <= id then id[2..] else id
  }

  /** The value printed for a parameter that is read back. */
  function Printed(x: Query, f: Field): Option<string> {
    match f
    case Kind => Some(if x.kind != "" then x.kind else "search")
    case Q => if x.q != "" then Some(x.q) else None
    case Year => if x.year != 0 then Some(Itoa(x.year)) else None
    case Ep => if x.ep != "" then Some(x.ep) else None
    case Season => if x.season != "" then Some(x.season) else None
    case ApiKey => if x.apiKey != "" then Some(x.apiKey) else None
    case Limit => if x.limit != 0 then Some(Itoa(x.limit)) else None
    case Offset => if x.offset != 0 then Some(Itoa(x.offset)) else None
    case Cat => if x.categories != [] then Some(Join(Itoas(x.categories), ",")) else None
    case Imdb => if x.imdbId != "" then Some(TrimTT(x.imdbId)) else None
  }

  /** The keys that are printed: the parameters, and seven that are not read back. */
  datatype Key = Param(field: Field) | Movie | Series | Extended | TVDB | TVRage | TVMaze | Trakt

  function KeyName(k: Key): string {
    match k
    case Param(f) => Name(f)
    case Movie => "movie" case Series => "series" case Extended => "extended" case TVDB => "tvdbid"
    case TVRage => "rid" case TVMaze => "tvmazeid" case Trakt => "traktid"
  }

  function KeyOf(name: string): Option<Key> {
    if FieldOf(name).Some? then Some(Param(FieldOf(name).value))
    else if name == "movie" then Some(Movie) else if name == "series" then Some(Series)
    else if name == "extended" then Some(Extended) else if name == "tvdbid" then Some(TVDB)
    else if name == "rid" then Some(TVRage) else if name == "tvmazeid" then Some(TVMaze)
    else if name == "traktid" then Some(Trakt) else None
  }

  lemma KeyOfName(k: Key)
    ensures KeyOf(KeyName(k)) == Some(k)
  {
    if k.Param? { FieldOfName(k.field); }
  }

  lemma NameOfKey(name: string)
    ensures KeyOf(name).Some? ==> KeyName(KeyOf(name).value) == name
  {
    NameOfField(name);
  }

  function IfSet(s: string): Option<string> {
    if s != "" then Some(s) else None
  }

  /** What is printed under a key. */
  function PrintedKey(x: Query, k: Key): Option<string> {
    match k
    case Param(f) => Printed(x, f)
    case Movie => IfSet(x.movie)
    case Series => IfSet(x.series)
    case Extended => if x.extended then Some("1") else None
    case TVDB => IfSet(x.tvdbId)
    case TVRage => IfSet(x.tvRageId)
    case TVMaze => IfSet(x.tvMazeId)
    case Trakt => IfSet(x.traktId)
  }

  ghost predicate PrintsKey(v: Values, x: Query, k: Key) {
    && (KeyName(k) in v <==> PrintedKey(x, k).Some?)
    && (KeyName(k) in v ==> v[KeyName(k)] == [PrintedKey(x, k).value])
  }

  /** A complete print of a query. */
  ghost predicate Prints(v: Values, x: Query) {
    && (forall k: Key :: PrintsKey(v, x, k))
    && (forall name :: name in v ==> v[name] != [] && KeyOf(name).Some?)
  }

  function SetTo(v: Values, name: string, o: Option<string>): Values {
    if o.Some? then v[name := [o.value]] else v
  }

  /** The keys set one after the other. */
  function Print(x: Query, keys: seq<Key>): Values {
    if keys == [] then map[]
    else
      var k := keys[|keys| - 1];
      SetTo(Print(x, keys[..|keys| - 1]), KeyName(k), PrintedKey(x, k))
  }

  /** Of some keys set once each, exactly those the query has something for are in the result, each with its
      one printed value, and nothing else is. */
  lemma {:induction false} PrintsOnly(x: Query, keys: seq<Key>)
    requires forall i, j :: 0 <= i < j < |keys| ==> keys[i] != keys[j]
    ensures forall k :: k in keys ==> PrintsKey(Print(x, keys), x, k)
    ensures forall name :: name in Print(x, keys) ==>
              Print(x, keys)[name] != [] && KeyOf(name).Some? && KeyOf(name).value in keys
  {
    if keys != [] {
      var init, k := keys[..|keys| - 1], keys[|keys| - 1];
      PrintsOnly(x, init);
      KeyOfName(k);
      forall j | j in keys ensures PrintsKey(Print(x, keys), x, j) {
        KeyOfName(j);
        if j != k { assert PrintsKey(Print(x, init), x, j); }
      }
    }
  }

  const KEYS: seq<Key> := [Param(Kind), Param(Q), Param(Ep), Param(Season), Movie, Param(Year), Series,
                           Param(Offset), Param(Limit), Extended, Param(ApiKey), Param(Cat),
                           TVDB, TVRage, TVMaze, Trakt, Param(Imdb)]

  /** Position of a key in the order they are set. */
  function Position(k: Key): nat {
    match k
    case Param(Kind) => 0 case Param(Q) => 1 case Param(Ep) => 2 case Param(Season) => 3 case Movie => 4
    case Param(Year) => 5 case Series => 6 case Param(Offset) => 7 case Param(Limit) => 8 case Extended => 9
    case Param(ApiKey) => 10 case Param(Cat) => 11 case TVDB => 12 case TVRage => 13 case TVMaze => 14
    case Trakt => 15 case Param(Imdb) => 16
  }

  lemma AllKeysOnce()
    ensures |KEYS| == 17 && forall k: Key :: Position(k) < 17 && KEYS[Position(k)] == k
    ensures forall i, j :: 0 <= i < j < |KEYS| ==> KEYS[i] != KEYS[j]
  {
    forall i | 0 <= i < |KEYS| ensures Position(KEYS[i]) == i {
    }
  }

  /** The map when it is the turn of the i-th key. */
  ghost predicate Before(v: Values, x: Query, i: nat) {
    i <= |KEYS| && v == Print(x, KEYS[..i])
  }

  lemma {:induction false} NextKey(u: Values, v: Values, x: Query, k: Key)
    requires Before(u, x, Position(k)) && v == SetTo(u, KeyName(k), PrintedKey(x, k))
    ensures Before(v, x, Position(k) + 1)
  {
    AllKeysOnce();
    var i := Position(k);
    assert KEYS[..i + 1][..i] == KEYS[..i];
  }

  /** The key has the value, once, unless it is empty, and then the key is missing. */
  predicate IsPrinted(v: Values, key: string, value: string) {
    if value != "" then key in v && v[key] == [value] else key !in v
  }

  /** The keys that are not read back. */
  lemma IgnoredArePrinted(v: Values, x: Query)
    requires Prints(v, x)
    ensures IsPrinted(v, "movie", x.movie) && IsPrinted(v, "series", x.series)
    ensures IsPrinted(v, "extended", if x.extended then "1" else "")
    ensures IsPrinted(v, "tvdbid", x.tvdbId) && IsPrinted(v, "rid", x.tvRageId)
    ensures IsPrinted(v, "tvmazeid", x.tvMazeId) && IsPrinted(v, "traktid", x.traktId)
  {
    assert PrintsKey(v, x, Movie) && PrintsKey(v, x, Series) && PrintsKey(v, x, Extended) && PrintsKey(v, x, TVDB);
    assert PrintsKey(v, x, TVRage) && PrintsKey(v, x, TVMaze) && PrintsKey(v, x, Trakt);
  }

  /** ToValues: every key exactly its printed value, under each parameter and under the keys not read back. */
  method ToValues(x: Query) returns (v: Values)
    ensures Prints(v, x)
    ensures IsPrinted(v, "movie", x.movie) && IsPrinted(v, "series", x.series)
    ensures IsPrinted(v, "extended", if x.extended then "1" else "")
    ensures IsPrinted(v, "tvdbid", x.tvdbId) && IsPrinted(v, "rid", x.tvRageId)
    ensures IsPrinted(v, "tvmazeid", x.tvMazeId) && IsPrinted(v, "traktid", x.traktId)
  {
    v := map[];
    v := SetTerms(x, v);
    v := SetTitles(x, v);
    v := SetPaging(x, v);
    v := SetAccess(x, v);
    v := SetCategories(x, v);
    v := SetTvIds(x, v);
    v := SetOtherIds(x, v);
    AllKeysOnce();
    assert KEYS[..17] == KEYS;
    PrintsOnly(x, KEYS);
    forall k: Key ensures PrintsKey(v, x, k) {
      assert KEYS[Position(k)] == k;
    }
    IgnoredArePrinted(v, x);
  }

  method PrintCategories(categories: seq<GoInt>) returns (cats: seq<string>)
    ensures cats == Itoas(categories)
  {
    cats := [];
    for i := 0 to |categories|
      invariant cats == Itoas(categories[..i])
    {
      assert categories[..i + 1][..i] == categories[..i];
      cats := cats + [Itoa(categories[i])];
    }
    assert categories[..|categories|] == categories;
  }

  // The tests of ToValues, a few at a time.

  method SetTerms(x: Query, before: Values) returns (v: Values)
    requires Before(before, x, 0)
    ensures Before(v, x, 4)
  {
    v := before;
    if x.kind != "" { v := v["t" := [x.kind]]; } else { v := v["t" := ["search"]]; }
    NextKey(before, v, x, Param(Kind));
    ghost var u := v;
    if x.q != "" { v := v["q" := [x.q]]; }
    NextKey(u, v, x, Param(Q));
    u := v;
    if x.ep != "" { v := v["ep" := [x.ep]]; }
    NextKey(u, v, x, Param(Ep));
    u := v;
    if x.season != "" { v := v["season" := [x.season]]; }
    NextKey(u, v, x, Param(Season));
  }

  method SetTitles(x: Query, before: Values) returns (v: Values)
    requires Before(before, x, 4)
    ensures Before(v, x, 7)
  {
    v := before;
    if x.movie != "" { v := v["movie" := [x.movie]]; }
    NextKey(before, v, x, Movie);
    ghost var u := v;
    if x.year != 0 { v := v["year" := [Itoa(x.year)]]; }
    NextKey(u, v, x, Param(Year));
    u := v;
    if x.series != "" { v := v["series" := [x.series]]; }
    NextKey(u, v, x, Series);
  }

  method SetPaging(x: Query, before: Values) returns (v: Values)
    requires Before(before, x, 7)
    ensures Before(v, x, 10)
  {
    v := before;
    if x.offset != 0 { v := v["offset" := [Itoa(x.offset)]]; }
    NextKey(before, v, x, Param(Offset));
    ghost var u := v;
    if x.limit != 0 { v := v["limit" := [Itoa(x.limit)]]; }
    NextKey(u, v, x, Param(Limit));
    u := v;
    if x.extended { v := v["extended" := ["1"]]; }
    NextKey(u, v, x, Extended);
  }

  method SetAccess(x: Query, before: Values) returns (v: Values)
    requires Before(before, x, 10)
    ensures Before(v, x, 11)
  {
    v := before;
    if x.apiKey != "" { v := v["apikey" := [x.apiKey]]; }
    NextKey(before, v, x, Param(ApiKey));
  }

  method SetCategories(x: Query, before: Values) returns (v: Values)
    requires Before(before, x, 11)
    ensures Before(v, x, 12)
  {
    v := before;
    if |x.categories| > 0 {
      var cats := PrintCategories(x.categories);
      v := v["cat" := [Join(cats, ",")]];
    }
    NextKey(before, v, x, Param(Cat));
  }

  method SetTvIds(x: Query, before: Values) returns (v: Values)
    requires Before(before, x, 12)
    ensures Before(v, x, 15)
  {
    v := before;
    if x.tvdbId != "" { v := v["tvdbid" := [x.tvdbId]]; }
    NextKey(before, v, x, TVDB);
    ghost var u := v;
    if x.tvRageId != "" { v := v["rid" := [x.tvRageId]]; }
    NextKey(u, v, x, TVRage);
    u := v;
    if x.tvMazeId != "" { v := v["tvmazeid" := [x.tvMazeId]]; }
    NextKey(u, v, x, TVMaze);
  }

  method SetOtherIds(x: Query, before: Values) returns (v: Values)
    requires Before(before, x, 15)
    ensures Before(v, x, 17)
  {
    v := before;
    if x.traktId != "" { v := v["traktid" := [x.traktId]]; }
    NextKey(before, v, x, Trakt);
    ghost var u := v;
    if x.imdbId != "" { v := v["imdbid" := [TrimTT(x.imdbId)]]; }
    NextKey(u, v, x, Param(Imdb));
  }

  // ---------- printing, then parsing ----------

  lemma NamesAreLower(k: Key)
    ensures Lower(KeyName(k)) == KeyName(k)
  {
  }

  lemma PrintedKeysAreLower(name: string)
    ensures KeyOf(name).Some? ==> Lower(name) == name
  {
    NameOfKey(name);
    if KeyOf(name).Some? { NamesAreLower(KeyOf(name).value); }
  }

  lemma {:induction false} SplitIntsOfTexts(parts: seq<string>, cs: seq<GoInt>)
    requires |parts| == |cs| && forall i :: 0 <= i < |parts| ==> Atoi(parts[i]) == Some(cs[i])
    ensures SplitInts(parts) == Some(cs)
  {
    if parts != [] {
      var n := |parts| - 1;
      SplitIntsOfTexts(parts[..n], cs[..n]);
      assert cs == cs[..n] + [cs[n]];
    }
  }

  lemma {:induction false} CategoriesReadBack(cs: seq<GoInt>)
    ensures SplitInts(Itoas(cs)) == Some(cs)
  {
    forall i | 0 <= i < |cs| ensures Atoi(Itoas(cs)[i]) == Some(cs[i]) {
      AtoiItoa(cs[i]);
    }
    SplitIntsOfTexts(Itoas(cs), cs);
  }

  lemma {:induction false} CategoryTextReadsBack(cs: seq<GoInt>)
    requires cs != []
    ensures Categories([Join(Itoas(cs), ",")]) == Some(cs)
  {
    var text := Join(Itoas(cs), ",");
    CategoriesReadBack(cs);
    ItoasShape(cs);
    SplitJoin(Itoas(cs), ',');
    OneCategoryText(text);
  }

  lemma {:induction false} OneCategoryText(text: string)
    ensures Categories([text]) == SplitInts(Split(text, ','))
  {
    assert [text][..0] == [];
    assert Categories([]) == Some([]);
    var last := SplitInts(Split(text, ','));
    assert last.Some? ==> [] + last.value == last.value;
  }

  /** What is left of a query: a missing type becomes "search", the keys that are not read are lost, and
      an IMDb id ends up with "tt" in front. */
  function Survivor(x: Query): Query {
    Assemble(if x.kind != "" then x.kind else "search", x.q, x.ep, x.season, x.year, x.limit, x.offset, x.categories,
             x.apiKey, if x.imdbId == "" then "" else WithPrefix(TrimTT(x.imdbId)))
  }

  /** Episode and season are empty or integers. */
  predicate Parses(x: Query) {
    (x.ep == "" || Atoi(x.ep).Some?) && (x.season == "" || Atoi(x.season).Some?)
  }

  /** The parameters are exactly the printed ones. */
  ghost predicate Carries(m: Fields, x: Query) {
    forall f: Field :: Get(m, f) == if Printed(x, f).Some? then [Printed(x, f).value] else []
  }

  lemma {:induction false} PrintedFields(vs: Values, x: Query, order: seq<string>)
    requires Prints(vs, x) && Enumerates(order, vs.Keys)
    ensures CaseDistinct(order) && Carries(FieldsOf(vs, order), x)
  {
    forall k | k in order ensures Lower(k) == k && (FieldOf(k).Some? ==> Name(FieldOf(k).value) == k) {
      PrintedKeysAreLower(k);
      NameOfField(k);
    }
    forall f: Field ensures Get(FieldsOf(vs, order), f) == if Printed(x, f).Some? then [Printed(x, f).value] else [] {
      FieldOfName(f);
      assert PrintsKey(vs, x, Param(f));
      if Name(f) in vs {
        var i :| 0 <= i < |order| && order[i] == Name(f);
        FieldGiven(vs, order, i, f);
      } else if f in FieldsOf(vs, order) {
        var k := FieldFrom(vs, order, f);
        assert false;
      }
    }
  }

  lemma PrintedAccepted(m: Fields, x: Query, f: Field)
    requires Get(m, f) == if Printed(x, f).Some? then [Printed(x, f).value] else []
    requires f in m
    ensures m[f] != [] ==>
              (Accepts(f, m[f]) <==> (f == Ep ==> Atoi(x.ep).Some?) && (f == Season ==> Atoi(x.season).Some?))
  {
    AtoiItoa(x.year);
    AtoiItoa(x.limit);
    AtoiItoa(x.offset);
    if f == Cat && x.categories != [] { CategoryTextReadsBack(x.categories); }
  }

  lemma IntReadsBack(n: GoInt)
    ensures Int([Itoa(n)]) == n && Int([]) == 0
  {
    AtoiItoa(n);
  }

  lemma {:induction false} ListReadsBack(cs: seq<GoInt>)
    ensures List(if cs != [] then [Join(Itoas(cs), ",")] else []) == cs
  {
    if cs != [] { CategoryTextReadsBack(cs); }
    assert Categories([]) == Some([]);
  }

  lemma CarriedInt(m: Fields, x: Query, f: Field)
    requires Carries(m, x) && f in {Year, Limit, Offset}
    ensures Int(Get(m, f)) == match f case Year => x.year case Limit => x.limit case _ => x.offset
  {
    IntReadsBack(x.year);
    IntReadsBack(x.limit);
    IntReadsBack(x.offset);
  }

  lemma CarriedQuery(m: Fields, x: Query)
    requires Carries(m, x)
    ensures Join(Get(m, Q), " ") == x.q
  {
    assert Get(m, Q) == if x.q != "" then [x.q] else [];
  }

  lemma CarriedCategories(m: Fields, x: Query)
    requires Carries(m, x)
    ensures List(Get(m, Cat)) == x.categories
  {
    assert Get(m, Cat) == if x.categories != [] then [Join(Itoas(x.categories), ",")] else [];
    ListReadsBack(x.categories);
  }

  lemma CarriedText(m: Fields, x: Query, f: Field)
    requires Carries(m, x) && f in {Kind, Ep, Season, ApiKey}
    ensures Text(Get(m, f)) == match f case Kind => Survivor(x).kind case Ep => x.ep case Season => x.season
                                       case _ => x.apiKey
  {
    assert Get(m, f) == if Printed(x, f).Some? then [Printed(x, f).value] else [];
  }

  lemma CarriedId(m: Fields, x: Query)
    requires Carries(m, x)
    ensures Id(Get(m, Imdb)) == Survivor(x).imdbId
  {
    assert Get(m, Imdb) == if x.imdbId != "" then [TrimTT(x.imdbId)] else [];
  }

  lemma CarriedBuild(m: Fields, x: Query)
    requires Carries(m, x)
    ensures Build(m) == Survivor(x)
  {
    var s := Survivor(x);
    assert Text(Get(m, Kind)) == s.kind by { CarriedText(m, x, Kind); }
    assert Text(Get(m, Ep)) == s.ep by { CarriedText(m, x, Ep); }
    assert Text(Get(m, Season)) == s.season by { CarriedText(m, x, Season); }
    assert Text(Get(m, ApiKey)) == s.apiKey by { CarriedText(m, x, ApiKey); }
    assert Int(Get(m, Year)) == s.year by { CarriedInt(m, x, Year); }
    assert Int(Get(m, Limit)) == s.limit by { CarriedInt(m, x, Limit); }
    assert Int(Get(m, Offset)) == s.offset by { CarriedInt(m, x, Offset); }
    assert Join(Get(m, Q), " ") == s.q by { CarriedQuery(m, x); }
    assert List(Get(m, Cat)) == s.categories by { CarriedCategories(m, x); }
    assert Id(Get(m, Imdb)) == s.imdbId by { CarriedId(m, x); }
  }

  /** Parsing what was printed, in any order: it fails exactly when episode or season is neither empty nor
      an integer, and otherwise gives the survivor. */
  lemma {:induction false} QueryRoundTrip(vs: Values, x: Query, order: seq<string>)
    requires Prints(vs, x) && Enumerates(order, vs.Keys)
    ensures Parse(vs, order) == if Parses(x) then Some(Survivor(x)) else None
  {
    PrintedFields(vs, x, order);
    ParseDescribes(vs, order);
    var m := FieldsOf(vs, order);
    CarriedBuild(m, x);
    forall f | f in m ensures m[f] != [] {
      var k := FieldFrom(vs, order, f);
    }
    forall f | f in m { PrintedAccepted(m, x, f); }
    if x.ep != "" { assert Get(m, Ep) == [x.ep]; }
    if x.season != "" { assert Get(m, Season) == [x.season]; }
  }

  /** An IMDb id comes back unchanged exactly when it is empty or has one "tt" in front, not two. */
  lemma ImdbIdRoundTrip(x: Query)
    ensures Survivor(x).imdbId == x.imdbId
            <==> x.imdbId == "" || ("tt" <= x.imdbId && !("tt" <= x.imdbId[2..]))
  {
    if "tt" <= x.imdbId {
      assert x.imdbId == "tt" + x.imdbId[2..];
      if "tt" <= x.imdbId[2..] { assert |Survivor(x).imdbId| < |x.imdbId|; }
    }
  }
}
