/** The text columns `before` and `map` of internal/anidb/tvdb_episode_map.db.go: what their Value
    methods write, what their Scan methods read, and what survives one after the other. Both are
    ";key-value;key-value;" texts and differ in the value. */
module EpisodeCodec {
  import opened Options
  import opened GoStrings
  import opened MapTexts

  type BeforeMap = map<GoInt, GoInt>
  type TargetMap = map<GoInt, seq<GoInt>>

  // ---------- the common frame ----------

  function Entries(es: seq<string>): string {
    if es == [] then "" else es[0] + ";" + Entries(es[1..])
  }

  /** ";" before the first entry and after every entry; nothing at all for no entry. */
  function Render(es: seq<string>): string {
    if es == [] then "" else ";" + Entries(es)
  }

  function Parts(value: string): seq<string> {
    Fields(Trim(value, ';'), ';')
  }

  lemma {:induction false} PartsOfEntries(es: seq<string>)
    requires forall e :: e in es ==> e != "" && ';' !in e
    ensures Fields(Entries(es), ';') == es
  {
    if es != [] {
      assert forall e :: e in es[1..] ==> e in es;
      PartsOfEntries(es[1..]);
      assert es[0] + ";" + Entries(es[1..]) == es[0] + [';'] + Entries(es[1..]);
      SplitCons(es[0], ';', Entries(es[1..]));
      NonEmptyAppend([es[0]], Split(Entries(es[1..]), ';'));
      assert [es[0]] + es[1..] == es;
    }
  }

  /** Cutting up a rendered text gives the entries back. */
  lemma PartsOfRender(es: seq<string>)
    requires forall e :: e in es ==> e != "" && ';' !in e
    ensures Parts(Render(es)) == es
  {
    FieldsTrim(Render(es), ';');
    if es != [] {
      PartsOfEntries(es);
      assert (";" + Entries(es))[1..] == Entries(es);
      NonEmptyAppend([""], Split(Entries(es), ';'));
    }
  }

  lemma {:induction false} FrameRoundTrip<K(!new), V(!new)>(m: map<K, V>, order: seq<K>, entry: K -> string,
                                step: (map<K, V>, string) -> map<K, V>, kept: K -> bool)
    requires Enumerates(order, m.Keys)
    requires forall k :: k in m ==> entry(k) != "" && ';' !in entry(k)
    requires forall r, k :: k in m && k !in r ==> step(r, entry(k)) == if kept(k) then r[k := m[k]] else r
    ensures Fold(step, map[], Parts(Render(Texts(entry, order)))) == Kept(m, kept)
  {
    PartsOfRender(Texts(entry, order));
    FoldTexts(m, order, entry, step, kept);
    KeptInAll(m, order, kept);
  }

  lemma {:induction false} EntriesSnoc(es: seq<string>, e: string)
    ensures Entries(es + [e]) == Entries(es) + e + ";"
  {
    if es == [] {
      assert es + [e] == [e] && [e][1..] == [];
    } else {
      EntriesSnoc(es[1..], e);
      assert (es + [e])[1..] == es[1..] + [e];
    }
  }

  lemma {:induction false} TextsSnoc<K>(entry: K -> string, order: seq<K>, k: K)
    ensures ";" + Entries(Texts(entry, order + [k])) == ";" + Entries(Texts(entry, order)) + entry(k) + ";"
  {
    assert (order + [k])[..|order|] == order;
    EntriesSnoc(Texts(entry, order), entry(k));
  }

  /** Both Value methods: the map is walked in an order of Go's choosing. */
  method Value<K(!new, ==)>(keys: set<K>, entry: K -> string) returns (s: string)
    ensures exists order :: Enumerates(order, keys) && s == Render(Texts(entry, order))
  {
    ghost var order: seq<K> := [];
    if |keys| == 0 {
      assert Enumerates(order, keys);
      return "";
    }
    s := ";";
    var left := keys;
    ghost var done: set<K> := {};
    while left != {}
      invariant done + left == keys && done !! left
      invariant Enumerates(order, done)
      invariant s == ";" + Entries(Texts(entry, order))
      invariant done != {} ==> order != []
      decreases left
    {
      var k :| k in left;
      EnumeratesSnoc(order, done, k);
      TextsSnoc(entry, order, k);
      left := left - {k};
      s := s + entry(k) + ";";
      order, done := order + [k], done + {k};
    }
    assert done == keys;
  }

  // ---------- before: a special episode to one regular episode ----------

  function BeforeEntry(k: GoInt, v: GoInt): string {
    Itoa(k) + "-" + Itoa(v)
  }

  function ScanBeforePart(m: BeforeMap, part: string): BeforeMap {
    var (special, regular, ok) := Cut(part, "-");
    if !ok || Atoi(special).None? || Atoi(regular).None? then m
    else m[Atoi(special).value := Atoi(regular).value]
  }

  /** What is written for a key of m. */
  function BeforeWriter(m: BeforeMap): GoInt -> string {
    k => if k in m then BeforeEntry(k, m[k]) else ""
  }

  function BeforeText(m: BeforeMap, order: seq<GoInt>): string {
    Render(Texts(BeforeWriter(m), order))
  }

  function ScanBefore(m: BeforeMap, value: string): BeforeMap {
    Fold(ScanBeforePart, m, Parts(value))
  }

  predicate NonNegative(k: GoInt) {
    k >= 0
  }

  lemma {:induction false} KeyShape(k: GoInt, rest: string)
    ensures k >= 0 ==> Cut(Itoa(k) + "-" + rest, "-") == (Itoa(k), rest, true) && Atoi(Itoa(k)) == Some(k)
    ensures k < 0 ==> Atoi(Cut(Itoa(k) + "-" + rest, "-").0).None?
    ensures ';' !in rest ==> Itoa(k) + "-" + rest != "" && ';' !in Itoa(k) + "-" + rest
  {
    ItoaCharacters(k);
    AtoiItoa(k);
    if k >= 0 {
      CutAtChar(Itoa(k), '-', rest);
    }
  }

  lemma ScanBeforeEntry(m: BeforeMap, k: GoInt, v: GoInt)
    ensures ScanBeforePart(m, BeforeEntry(k, v)) == if k >= 0 then m[k := v] else m
    ensures BeforeEntry(k, v) != "" && ';' !in BeforeEntry(k, v)
  {
    ItoaCharacters(v);
    KeyShape(k, Itoa(v));
    AtoiItoa(v);
  }

  /** Reading back what was written, in whatever order the map was walked, gives the map without its
      negative keys: their leading "-" is taken for the separator. */
  lemma BeforeRoundTrip(m: BeforeMap, order: seq<GoInt>)
    requires Enumerates(order, m.Keys)
    ensures ScanBefore(map[], BeforeText(m, order)) == Kept(m, NonNegative)
    ensures ScanBefore(map[], BeforeText(m, order)) == m <==> forall k :: k in m ==> k >= 0
  {
    BeforeWriterShape(m);
    BeforeStepShape(m);
    FrameRoundTrip(m, order, BeforeWriter(m), ScanBeforePart, NonNegative);
    KeptAll(m, NonNegative);
  }

  lemma BeforeWriterShape(m: BeforeMap)
    ensures forall k :: k in m ==> BeforeWriter(m)(k) != "" && ';' !in BeforeWriter(m)(k)
  {
    forall k | k in m ensures BeforeWriter(m)(k) != "" && ';' !in BeforeWriter(m)(k) {
      ScanBeforeEntry(m, k, m[k]);
    }
  }

  lemma BeforeStepShape(m: BeforeMap)
    ensures forall r, k :: k in m && k !in r ==>
              ScanBeforePart(r, BeforeWriter(m)(k)) == if NonNegative(k) then r[k := m[k]] else r
  {
    forall r: BeforeMap, k | k in m && k !in r
      ensures ScanBeforePart(r, BeforeWriter(m)(k)) == if NonNegative(k) then r[k := m[k]] else r
    {
      ScanBeforeEntry(r, k, m[k]);
    }
  }

  /** Before.Scan adds to the map it is called on. */
  method BeforeScan(m: BeforeMap, value: string) returns (r: BeforeMap)
    ensures r == ScanBefore(m, value)
  {
    r := m;
    var parts := Parts(value);
    for i := 0 to |parts|
      invariant r == Fold(ScanBeforePart, m, parts[..i])
    {
      assert parts[..i + 1][..i] == parts[..i];
      var (specialStr, regularStr, ok) := Cut(parts[i], "-");
      if ok {
        var special, regular := Atoi(specialStr), Atoi(regularStr);
        if special.Some? && regular.Some? {
          r := r[special.value := regular.value];
        }
      }
    }
    assert parts[..|parts|] == parts;
  }

  // ---------- map: an episode to a list of episodes ----------

  function MapEntry(k: GoInt, vs: seq<GoInt>): string {
    Itoa(k) + "-" + Join(Itoas(vs), "+")
  }

  function MapWriter(m: TargetMap): GoInt -> string {
    k => if k in m then MapEntry(k, m[k]) else ""
  }

  function MapText(m: TargetMap, order: seq<GoInt>): string {
    Render(Texts(MapWriter(m), order))
  }

  function AddTarget(m: TargetMap, k: GoInt, s: string): TargetMap {
    if Atoi(s).None? then m else m[k := (if k in m then m[k] else []) + [Atoi(s).value]]
  }

  function AddTargets(m: TargetMap, k: GoInt, ss: seq<string>): TargetMap {
    if ss == [] then m else AddTarget(AddTargets(m, k, ss[..|ss| - 1]), k, ss[|ss| - 1])
  }

  function ScanMapPart(m: TargetMap, part: string): TargetMap {
    var (anidb, tvdb, ok) := Cut(part, "-");
    if !ok || Atoi(anidb).None? then m else AddTargets(m, Atoi(anidb).value, Split(tvdb, '+'))
  }

  function ScanMap(m: TargetMap, value: string): TargetMap {
    Fold(ScanMapPart, m, Parts(value))
  }

  lemma {:induction false} JoinAvoids(ss: seq<string>, sep: string, c: char)
    requires c !in sep && forall s :: s in ss ==> c !in s
    ensures c !in Join(ss, sep)
  {
    if |ss| > 1 {
      assert forall s :: s in ss[1..] ==> s in ss;
      JoinAvoids(ss[1..], sep, c);
    }
  }

  lemma {:induction false} AddTargetsOfTexts(m: TargetMap, k: GoInt, ss: seq<string>, vs: seq<GoInt>)
    requires k !in m && |ss| == |vs| && forall i :: 0 <= i < |ss| ==> Atoi(ss[i]) == Some(vs[i])
    ensures AddTargets(m, k, ss) == if vs == [] then m else m[k := vs]
  {
    if ss != [] {
      var n := |ss| - 1;
      AddTargetsOfTexts(m, k, ss[..n], vs[..n]);
      assert vs == vs[..n] + [vs[n]];
      assert m[k := vs[..n]][k := vs] == m[k := vs];
    }
  }

  lemma {:induction false} AddTargetsOfItoas(m: TargetMap, k: GoInt, vs: seq<GoInt>)
    requires k !in m
    ensures AddTargets(m, k, Itoas(vs)) == if vs == [] then m else m[k := vs]
  {
    forall i | 0 <= i < |vs| ensures Atoi(Itoas(vs)[i]) == Some(vs[i]) {
      AtoiItoa(vs[i]);
    }
    AddTargetsOfTexts(m, k, Itoas(vs), vs);
  }

  lemma ScanMapEntry(m: TargetMap, k: GoInt, vs: seq<GoInt>)
    ensures k !in m ==> ScanMapPart(m, MapEntry(k, vs)) == if k >= 0 && vs != [] then m[k := vs] else m
    ensures MapEntry(k, vs) != "" && ';' !in MapEntry(k, vs)
  {
    var list := Join(Itoas(vs), "+");
    ItoasShape(vs);
    JoinAvoids(Itoas(vs), "+", ';');
    KeyShape(k, list);
    if k >= 0 && k !in m {
      if vs == [] {
        assert Split(list, '+') == [""];
        assert [""][..0] == [];
        assert AddTargets(m, k, [""]) == AddTarget(AddTargets(m, k, []), k, "");
      } else {
        SplitJoin(Itoas(vs), '+');
        AddTargetsOfItoas(m, k, vs);
      }
    }
  }

  /** The entries Scan can read back. */
  function Readable(m: TargetMap): GoInt -> bool {
    k => k >= 0 && k in m && m[k] != []
  }

  /** Reading back what was written, in whatever order the map was walked, gives exactly the entries
      with a non-negative key and a non-empty list, each list in its order. */
  lemma MapRoundTrip(m: TargetMap, order: seq<GoInt>)
    requires Enumerates(order, m.Keys)
    ensures ScanMap(map[], MapText(m, order)) == Kept(m, Readable(m))
    ensures ScanMap(map[], MapText(m, order)) == m <==> forall k :: k in m ==> k >= 0 && m[k] != []
  {
    MapWriterShape(m);
    MapStepShape(m);
    FrameRoundTrip(m, order, MapWriter(m), ScanMapPart, Readable(m));
    KeptAll(m, Readable(m));
  }

  lemma MapWriterShape(m: TargetMap)
    ensures forall k :: k in m ==> MapWriter(m)(k) != "" && ';' !in MapWriter(m)(k)
  {
    forall k | k in m ensures MapWriter(m)(k) != "" && ';' !in MapWriter(m)(k) {
      ScanMapEntry(m, k, m[k]);
    }
  }

  lemma MapStepShape(m: TargetMap)
    ensures forall r, k :: k in m && k !in r ==>
              ScanMapPart(r, MapWriter(m)(k)) == if Readable(m)(k) then r[k := m[k]] else r
  {
    forall r: TargetMap, k | k in m && k !in r
      ensures ScanMapPart(r, MapWriter(m)(k)) == if Readable(m)(k) then r[k := m[k]] else r
    {
      ScanMapEntry(r, k, m[k]);
    }
  }

  /** The inner loop of Map.Scan. */
  method ScanTargets(m: TargetMap, k: GoInt, strs: seq<string>) returns (r: TargetMap)
    ensures r == AddTargets(m, k, strs)
  {
    r := m;
    for j := 0 to |strs|
      invariant r == AddTargets(m, k, strs[..j])
    {
      assert strs[..j + 1][..j] == strs[..j];
      var tvdb := Atoi(strs[j]);
      if tvdb.Some? {
        if k !in r { r := r[k := []]; }
        r := r[k := r[k] + [tvdb.value]];
      }
    }
    assert strs[..|strs|] == strs;
  }

  /** Map.Scan adds to the map it is called on. */
  method MapScan(m: TargetMap, value: string) returns (r: TargetMap)
    ensures r == ScanMap(m, value)
  {
    r := m;
    var parts := Parts(value);
    for i := 0 to |parts|
      invariant r == Fold(ScanMapPart, m, parts[..i])
    {
      assert parts[..i + 1][..i] == parts[..i];
      var (anidbStr, tvdbStr, ok) := Cut(parts[i], "-");
      var anidb := Atoi(anidbStr);
      if ok && anidb.Some? {
        r := ScanTargets(r, anidb.value, Split(tvdbStr, '+'));
      }
    }
    assert parts[..|parts|] == parts;
  }
}
