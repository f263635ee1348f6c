/** Writing a map as one text per entry, in an arbitrary order, and collecting it again by scanning the
    texts one after the other. */
module MapTexts {
  /** order lists the keys of a map in some order, as a Go map iteration does. */
  ghost predicate Enumerates<K(!new)>(order: seq<K>, keys: set<K>) {
    && (forall i, j :: 0 <= i < j < |order| ==> order[i] != order[j])
    && (forall k :: k in order <==> k in keys)
  }

  function Texts<K>(entry: K -> string, order: seq<K>): (r: seq<string>)
    ensures |r| == |order| && forall i :: 0 <= i < |r| ==> r[i] == entry(order[i])
  {
    if order == [] then [] else Texts(entry, order[..|order| - 1]) + [entry(order[|order| - 1])]
  }

  function Fold<M>(step: (M, string) -> M, m: M, parts: seq<string>): M {
    if parts == [] then m else step(Fold(step, m, parts[..|parts| - 1]), parts[|parts| - 1])
  }

  lemma EnumeratesSnoc<K(!new)>(order: seq<K>, keys: set<K>, k: K)
    requires Enumerates(order, keys) && k !in keys
    ensures Enumerates(order + [k], keys + {k})
  {
  }

  /** The entries of m whose key satisfies kept, or those of them that are listed in order. */
  function Kept<K, V>(m: map<K, V>, kept: K -> bool): map<K, V> {
    map k | k in m && kept(k) :: m[k]
  }

  function KeptIn<K, V>(m: map<K, V>, order: seq<K>, kept: K -> bool): map<K, V> {
    map k | k in m && k in order && kept(k) :: m[k]
  }

  lemma KeptInAll<K(!new), V>(m: map<K, V>, order: seq<K>, kept: K -> bool)
    requires Enumerates(order, m.Keys)
    ensures KeptIn(m, order, kept) == Kept(m, kept)
  {
  }

  /** Scanning the entries of distinct keys one by one collects exactly the entries that are kept. */
  lemma {:induction false} FoldTexts<K(!new), V(!new)>(m: map<K, V>, order: seq<K>, entry: K -> string,
                                              step: (map<K, V>, string) -> map<K, V>, kept: K -> bool)
    requires forall i :: 0 <= i < |order| ==> order[i] in m
    requires forall i, j :: 0 <= i < j < |order| ==> order[i] != order[j]
    requires forall r, k :: k in m && k !in r ==> step(r, entry(k)) == if kept(k) then r[k := m[k]] else r
    ensures Fold(step, map[], Texts(entry, order)) == KeptIn(m, order, kept)
  {
    if order != [] {
      var n := |order| - 1;
      var k := order[n];
      FoldTexts(m, order[..n], entry, step, kept);
      assert Texts(entry, order)[..n] == Texts(entry, order[..n]);
      assert order == order[..n] + [k];
      var r := Fold(step, map[], Texts(entry, order[..n]));
      assert k !in r;
    }
  }

  lemma KeptAll<K(!new), V(!new)>(m: map<K, V>, kept: K -> bool)
    ensures Kept(m, kept) == m <==> forall k :: k in m ==> kept(k)
  {
    if Kept(m, kept) == m {
      assert forall k :: k in m ==> k in Kept(m, kept);
    }
  }
}
