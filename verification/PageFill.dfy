/** Filling a list from pages fetched in parallel: dynamicListMeta.Fetch of internal/tmdb/list.go and the
    loop of internal/tmdb/db_sync.go that drops the slots left empty. */
module PageFill {
  import opened Options

  /** A slot of the result list: Some for a fetched entry, None for the zero value the list is made of. */
  type Slot<T> = Option<T>

  /** What the server answers for page numbers 1, 2, ...: the entries, or an error. */
  datatype Page<T> = Entries(items: seq<T>) | Failed

  /** A list item as syncList builds it: its number and the entry. */
  datatype Item<T> = Item(idx: nat, value: T)

  datatype Fetched<T> = List(slots: seq<Slot<T>>) | FetchError | Panicked

  function Filled<T>(items: seq<T>, size: nat): (r: seq<Slot<T>>)
    requires |items| <= size
    ensures |r| == size
  {
    seq(size, i requires 0 <= i < size => if i < |items| then Some(items[i]) else None)
  }

  /** Pages 1 to n one after the other, each padded to the size of the first. */
  function Padded<T>(page: nat -> Page<T>, n: nat, size: nat): (r: seq<Slot<T>>)
    requires forall p :: 1 <= p <= n ==> page(p).Entries? && |page(p).items| <= size
    ensures |r| == n * size
  {
    if n == 0 then [] else Padded(page, n - 1, size) + Filled(page(n).items, size)
  }

  function Concat<T>(page: nat -> Page<T>, n: nat): seq<T>
    requires forall p :: 1 <= p <= n ==> page(p).Entries?
  {
    if n == 0 then [] else Concat(page, n - 1) + page(n).items
  }

  /** The loop of syncList: entries with their slot number; empty slots and entries without a media type or
      data, which are not `typed`, are left out. */
  function Numbered<T>(slots: seq<Slot<T>>, typed: T -> bool): seq<Item<T>> {
    if slots == [] then []
    else
      var n := |slots| - 1;
      var r := Numbered(slots[..n], typed);
      if slots[n].Some? && typed(slots[n].value) then r + [Item(n, slots[n].value)] else r
  }

  /** The typed ones of some entries. */
  function Typed<T>(items: seq<T>, typed: T -> bool): seq<T> {
    if items == [] then []
    else
      var r := Typed(items[..|items| - 1], typed);
      if typed(items[|items| - 1]) then r + [items[|items| - 1]] else r
  }

  function Entries<T>(ns: seq<Item<T>>): seq<T> {
    if ns == [] then [] else Entries(ns[..|ns| - 1]) + [ns[|ns| - 1].value]
  }

  /** The items' numbers are the numbers of their slots, increasing. */
  ghost predicate InOrder<T(!new)>(ns: seq<Item<T>>, slots: seq<Slot<T>>) {
    && (forall i :: 0 <= i < |ns| ==> ns[i].idx < |slots| && slots[ns[i].idx] == Some(ns[i].value))
    && (forall i, j :: 0 <= i < j < |ns| ==> ns[i].idx < ns[j].idx)
  }

  lemma {:induction false} NumbersIncrease<T(!new)>(slots: seq<Slot<T>>, typed: T -> bool)
    ensures InOrder(Numbered(slots, typed), slots)
  {
    if slots != [] {
      var n := |slots| - 1;
      NumbersIncrease(slots[..n], typed);
      var ns := Numbered(slots[..n], typed);
      assert InOrder(ns, slots[..n]);
    }
  }

  /** The entries of some slots, empty slots left out. */
  function Values<T>(slots: seq<Slot<T>>): seq<T> {
    if slots == [] then []
    else
      var x := slots[|slots| - 1];
      Values(slots[..|slots| - 1]) + if x.Some? then [x.value] else []
  }

  lemma {:induction false} EntriesSnoc<T>(ns: seq<Item<T>>, n: Item<T>)
    ensures Entries(ns + [n]) == Entries(ns) + [n.value]
  {
    assert (ns + [n])[..|ns|] == ns;
  }

  lemma {:induction false} EntriesAreValues<T>(slots: seq<Slot<T>>, typed: T -> bool)
    ensures Entries(Numbered(slots, typed)) == Typed(Values(slots), typed)
  {
    if slots != [] {
      var n := |slots| - 1;
      EntriesAreValues(slots[..n], typed);
      if slots[n].Some? {
        EntriesSnoc(Numbered(slots[..n], typed), Item(n, slots[n].value));
        TypedSnoc(Values(slots[..n]), slots[n].value, typed);
      } else {
        assert Values(slots) == Values(slots[..n]);
      }
    }
  }

  lemma {:induction false} TypedSnoc<T>(items: seq<T>, x: T, typed: T -> bool)
    ensures Typed(items + [x], typed) == if typed(x) then Typed(items, typed) + [x] else Typed(items, typed)
  {
    assert (items + [x])[..|items|] == items;
  }

  lemma {:induction false} ValuesAppend<T>(a: seq<Slot<T>>, b: seq<Slot<T>>)
    ensures Values(a + b) == Values(a) + Values(b)
  {
    if b == [] {
      assert a + b == a;
    } else {
      ValuesAppend(a, b[..|b| - 1]);
      assert (a + b)[..|a + b| - 1] == a + b[..|b| - 1];
    }
  }

  lemma {:induction false} ValuesOfPage<T>(items: seq<T>, size: nat)
    requires |items| <= size
    ensures Values(Filled(items, size)) == items
  {
    if size > |items| {
      ValuesOfPage(items, size - 1);
      assert Filled(items, size)[..size - 1] == Filled(items, size - 1);
    } else if items != [] {
      var n := |items| - 1;
      ValuesOfPage(items[..n], n);
      assert Filled(items, size)[..n] == Filled(items[..n], n);
      assert items == items[..n] + [items[n]];
    }
  }

  lemma {:induction false} ValuesOfPadded<T>(page: nat -> Page<T>, n: nat, size: nat)
    requires forall p :: 1 <= p <= n ==> page(p).Entries? && |page(p).items| <= size
    ensures Values(Padded(page, n, size)) == Concat(page, n)
  {
    if n > 0 {
      ValuesOfPadded(page, n - 1, size);
      ValuesAppend(Padded(page, n - 1, size), Filled(page(n).items, size));
      ValuesOfPage(page(n).items, size);
    }
  }

  // ---------- slots by page ----------

  /** A slot of the padded list, by page and position. */
  function SlotOf(size: nat, p: nat, i: nat): int {
    (p - 1) * size + i
  }

  /** Slots of different pages do not meet. */
  lemma {:induction false} SlotOrder(size: nat, p: nat, i: nat, q: nat)
    requires 1 <= p < q && i < size
    ensures SlotOf(size, p, i) < SlotOf(size, q, 0)
  {
    assert SlotOf(size, q, 0) == SlotOf(size, q - 1, 0) + size;
    if q - 1 > p { SlotOrder(size, p, i, q - 1); }
  }

  lemma SlotBound(size: nat, n: nat, p: nat, i: nat)
    requires 1 <= p <= n && i < size
    ensures 0 <= SlotOf(size, p, i) < n * size
  {
    SlotOrder(size, p, i, n + 1);
    assert (p - 1) * size >= 0;
  }

  /** The slots hold the pages in `done` and nothing else. */
  ghost predicate Holds<T(!new)>(s: seq<Slot<T>>, page: nat -> Page<T>, done: set<nat>, n: nat, size: nat) {
    && |s| == n * size
    && forall p: nat, i: nat :: 1 <= p <= n && i < size ==> SlotHolds(s, page, done, n, size, p, i)
  }

  ghost predicate SlotHolds<T(!new)>(s: seq<Slot<T>>, page: nat -> Page<T>, done: set<nat>, n: nat, size: nat,
                                     p: nat, i: nat)
    requires |s| == n * size && 1 <= p <= n && i < size
  {
    SlotBound(size, n, p, i);
    s[SlotOf(size, p, i)]
    == if p in done && page(p).Entries? && i < |page(p).items| then Some(page(p).items[i]) else None
  }

  function Write<T>(s: seq<Slot<T>>, start: nat, items: seq<T>): (r: seq<Slot<T>>)
    requires start + |items| <= |s|
    ensures |r| == |s|
    ensures forall k :: 0 <= k < |s| ==> r[k] == if start <= k < start + |items| then Some(items[k - start]) else s[k]
  {
    s[..start] + seq(|items|, i requires 0 <= i < |items| => Some(items[i])) + s[start + |items|..]
  }

  lemma PageFits(size: nat, n: nat, q: nat, len: nat)
    requires 1 <= q <= n && len <= size
    ensures 0 <= SlotOf(size, q, 0) && SlotOf(size, q, 0) + len <= n * size
  {
    assert n * size == (q - 1) * size + size + (n - q) * size;
    assert (n - q) * size >= 0 && (q - 1) * size >= 0;
  }

  /** Writing one more page, whichever it is, adds it and disturbs no other. */
  lemma HoldsMore<T(!new)>(s: seq<Slot<T>>, page: nat -> Page<T>, done: set<nat>, n: nat, size: nat, q: nat)
    requires Holds(s, page, done, n, size) && 1 <= q <= n && q !in done
    requires page(q).Entries? && |page(q).items| <= size
    ensures 0 <= SlotOf(size, q, 0) && SlotOf(size, q, 0) + |page(q).items| <= |s|
    ensures Holds(Write(s, SlotOf(size, q, 0), page(q).items), page, done + {q}, n, size)
  {
    PageFits(size, n, q, |page(q).items|);
    var r := Write(s, SlotOf(size, q, 0), page(q).items);
    forall p: nat, i: nat | 1 <= p <= n && i < size
      ensures SlotHolds(r, page, done + {q}, n, size, p, i)
    {
      SlotBound(size, n, p, i);
      assert SlotHolds(s, page, done, n, size, p, i);
      if p < q { SlotOrder(size, p, i, q); }
      if q < p { SlotOrder(size, q, size - 1, p); }
    }
  }

  lemma HoldsFailed<T(!new)>(s: seq<Slot<T>>, page: nat -> Page<T>, done: set<nat>, n: nat, size: nat, q: nat)
    requires Holds(s, page, done, n, size) && page(q).Failed?
    ensures Holds(s, page, done + {q}, n, size)
  {
    forall p: nat, i: nat | 1 <= p <= n && i < size ensures SlotHolds(s, page, done + {q}, n, size, p, i) {
      assert SlotHolds(s, page, done, n, size, p, i);
    }
  }

  lemma HoldsFewer<T(!new)>(s: seq<Slot<T>>, page: nat -> Page<T>, done: set<nat>, n: nat, size: nat)
    requires n > 0 && Holds(s, page, done, n, size)
    ensures (n - 1) * size <= |s| && Holds(s[..(n - 1) * size], page, done, n - 1, size)
  {
    var k, m := n - 1, (n - 1) * size;
    assert |s| == m + size && m >= 0;
    forall p: nat, i: nat | 1 <= p <= k && i < size ensures SlotHolds(s[..m], page, done, k, size, p, i) {
      SlotBound(size, k, p, i);
      assert SlotHolds(s, page, done, n, size, p, i);
    }
  }

  lemma HoldsLast<T(!new)>(s: seq<Slot<T>>, page: nat -> Page<T>, done: set<nat>, n: nat, size: nat)
    requires n > 0 && Holds(s, page, done, n, size)
    requires n in done && page(n).Entries? && |page(n).items| <= size
    ensures 0 <= (n - 1) * size <= |s| && s[(n - 1) * size..] == Filled(page(n).items, size)
  {
    var m := (n - 1) * size;
    assert |s| == m + size && m >= 0;
    forall i: nat | i < size ensures s[m + i] == Filled(page(n).items, size)[i] {
      assert SlotHolds(s, page, done, n, size, n, i);
      assert SlotOf(size, n, i) == m + i;
    }
  }

  /** With every page in place the slots are the padded pages in order. */
  lemma {:induction false} HoldsAll<T(!new)>(s: seq<Slot<T>>, page: nat -> Page<T>, done: set<nat>, n: nat, size: nat)
    requires Holds(s, page, done, n, size)
    requires forall p :: 1 <= p <= n ==> p in done && page(p).Entries? && |page(p).items| <= size
    ensures s == Padded(page, n, size)
  {
    if n > 0 {
      HoldsFewer(s, page, done, n, size);
      HoldsLast(s, page, done, n, size);
      HoldsAll(s[..(n - 1) * size], page, done, n - 1, size);
    }
  }

  // ---------- the fetch ----------

  /** The page numbers from lo up to, not including, hi. */
  function Pages(lo: nat, hi: nat): (r: set<nat>)
    ensures forall p :: p in r <==> lo <= p < hi
  {
    if hi <= lo then {} else Pages(lo, hi - 1) + {hi - 1}
  }

  const MAX_PAGES := 25
  const WORKERS := 4

  /** No page is longer than the first. */
  ghost predicate AllFit<T(!new)>(page: nat -> Page<T>, n: nat) {
    page(1).Entries? && forall p :: 1 <= p <= n && page(p).Entries? ==> |page(p).items| <= |page(1).items|
  }

  function PageCount(totalPages: int): int {
    if totalPages < MAX_PAGES then totalPages else MAX_PAGES
  }

  /** Writing one page's entries into its slots; what a worker does while it holds the mutex. */
  method WritePage<T>(a: array<Slot<T>>, start: nat, items: seq<T>)
    requires start + |items| <= a.Length
    modifies a
    ensures a[..] == Write(old(a[..]), start, items)
  {
    for i := 0 to |items|
      invariant forall k :: 0 <= k < a.Length ==>
                  a[k] == if start <= k < start + i then Some(items[k - start]) else old(a[k])
    {
      a[start + i] := Some(items[i]);
    }
  }

  // ---------- completion orders ----------

  /** Where a page's slots begin. */
  function Start(size: nat, q: nat): (k: nat)
    requires q >= 1
    ensures k == SlotOf(size, q, 0)
  {
    assert (q - 1) * size >= 0;
    (q - 1) * size
  }

  /** A page that does not run past the end of the list, on which its worker would panic. */
  predicate InRange<T>(page: nat -> Page<T>, q: nat, size: nat, slots: nat) {
    q >= 1 && (page(q).Entries? ==> Start(size, q) + |page(q).items| <= slots)
  }

  predicate AllInRange<T>(page: nat -> Page<T>, order: seq<nat>, size: nat, slots: nat) {
    forall q :: q in order ==> InRange(page, q, size, slots)
  }

  lemma JoinInRange<T>(page: nat -> Page<T>, order: seq<nat>, more: seq<nat>, size: nat, slots: nat)
    ensures AllInRange(page, order + more, size, slots)
            <==> AllInRange(page, order, size, slots) && AllInRange(page, more, size, slots)
  {
    assert forall q :: q in order + more <==> q in order || q in more;
  }

  /** Pages written one after the other as their workers finish; a failed one writes nothing. */
  function Land<T>(s: seq<Slot<T>>, page: nat -> Page<T>, order: seq<nat>, size: nat): (r: seq<Slot<T>>)
    requires AllInRange(page, order, size, |s|)
    ensures |r| == |s|
  {
    if order == [] then s
    else
      var init, q := order[..|order| - 1], order[|order| - 1];
      assert AllInRange(page, init, size, |s|) && q in order && InRange(page, q, size, |s|);
      var t := Land(s, page, init, size);
      if page(q).Failed? then t else Write(t, Start(size, q), page(q).items)
  }

  /** order lists the pages from lo up to, not including, hi. */
  ghost predicate Finishes(order: seq<nat>, lo: nat, hi: nat) {
    && (forall i, j :: 0 <= i < j < |order| ==> order[i] != order[j])
    && (forall q :: q in order <==> lo <= q < hi)
  }

  /** The chunk a later page is fetched in. */
  function ChunkOf(q: nat): int {
    (q - 2) / 4
  }

  /** An order in which the pages 2 to n may finish: chunk by chunk, and inside a chunk in any order. */
  ghost predicate Completion(order: seq<nat>, n: nat) {
    && Finishes(order, 2, n + 1)
    && (forall i, j :: 0 <= i < j < |order| ==> ChunkOf(order[i]) <= ChunkOf(order[j]))
  }

  // ---------- chunks ----------

  datatype ChunkEnd = AllDone | SomeFailed | OutOfRange

  /** How the chunk of the pages lo to hi - 1 ends, in whatever order. */
  ghost function EndOf<T(!new)>(page: nat -> Page<T>, lo: nat, hi: nat, size: nat, slots: nat): ChunkEnd {
    if exists q :: lo <= q < hi && !InRange(page, q, size, slots) then OutOfRange
    else if exists q :: lo <= q < hi && page(q).Failed? then SomeFailed
    else AllDone
  }

  lemma {:induction false} LandSnoc<T>(s: seq<Slot<T>>, page: nat -> Page<T>, order: seq<nat>, q: nat, size: nat)
    requires AllInRange(page, order, size, |s|) && InRange(page, q, size, |s|)
    ensures AllInRange(page, order + [q], size, |s|)
    ensures Land(s, page, order + [q], size)
            == var t := Land(s, page, order, size);
               if page(q).Failed? then t else Write(t, Start(size, q), page(q).items)
  {
    JoinInRange(page, order, [q], size, |s|);
    assert (order + [q])[..|order|] == order;
  }

  /** One worker: fetch, then write under the mutex. */
  method Finish<T(!new)>(page: nat -> Page<T>, a: array<Slot<T>>, q: nat, size: nat) returns (ok: bool)
    requires q >= 1
    modifies a
    ensures ok <==> InRange(page, q, size, a.Length)
    ensures page(q).Failed? ==> a[..] == old(a[..])
    ensures page(q).Entries? && ok ==> a[..] == Write(old(a[..]), Start(size, q), page(q).items)
  {
    if page(q).Failed? { return true; }
    var start := Start(size, q);
    if start + |page(q).items| > a.Length { return false; }
    WritePage(a, start, page(q).items);
    return true;
  }

  /** One chunk of workers, finishing in any order. */
  method FetchChunk<T(!new)>(page: nat -> Page<T>, a: array<Slot<T>>, lo: nat, hi: nat, size: nat)
    returns (r: ChunkEnd, ghost order: seq<nat>)
    requires 2 <= lo <= hi
    modifies a
    ensures r == EndOf(page, lo, hi, size, a.Length)
    ensures !r.OutOfRange? ==> Finishes(order, lo, hi) && AllInRange(page, order, size, a.Length)
    ensures !r.OutOfRange? ==> a[..] == Land(old(a[..]), page, order, size)
  {
    var pending, failed := Pages(lo, hi), false;
    ghost var was := a[..];
    order := [];
    while pending != {}
      invariant pending <= Pages(lo, hi) && Finished(order, lo, hi, pending)
      invariant failed <==> exists p :: p in order && page(p).Failed?
      invariant AllInRange(page, order, size, a.Length)
      invariant a[..] == Land(was, page, order, size)
      decreases pending
    {
      var q :| q in pending;
      pending := pending - {q};
      var ok := Finish(page, a, q, size);
      if !ok { return OutOfRange, order; }
      if page(q).Failed? { failed := true; }
      LandSnoc(was, page, order, q, size);
      order := order + [q];
    }
    r := if failed then SomeFailed else AllDone;
  }

  /** order lists the pages from lo to hi - 1 that are no longer pending. */
  ghost predicate Finished(order: seq<nat>, lo: nat, hi: nat, pending: set<nat>) {
    && (forall i, j :: 0 <= i < j < |order| ==> order[i] != order[j])
    && (forall q :: q in order <==> lo <= q < hi && q !in pending)
  }

  // ---------- the whole fetch ----------

  /** How the first chunk from lo on that does not end well ends; AllDone if there is none. */
  ghost function Verdict<T(!new)>(page: nat -> Page<T>, lo: nat, n: nat, size: nat, slots: nat): ChunkEnd
    decreases n + 1 - lo
  {
    if lo > n then AllDone
    else
      var hi := NextChunk(lo, n);
      var end := EndOf(page, lo, hi, size, slots);
      if end.AllDone? then Verdict(page, hi, n, size, slots) else end
  }

  /** Page q is fetched, and its entries fit into the list. */
  predicate IsFine<T>(page: nat -> Page<T>, q: nat, size: nat, slots: nat) {
    page(q).Entries? && !IsOver(page, q, size, slots)
  }

  predicate IsOver<T>(page: nat -> Page<T>, q: nat, size: nat, slots: nat) {
    page(q).Entries? && (q - 1) * size + |page(q).items| > slots
  }

  /** Page q runs over, and the pages of the chunks before it are fine. */
  ghost predicate RunsOverFirst<T(!new)>(page: nat -> Page<T>, lo: nat, n: nat, size: nat, slots: nat, q: nat) {
    && lo <= q <= n && IsOver(page, q, size, slots)
    && forall p :: lo <= p <= n && ChunkOf(p) < ChunkOf(q) ==> IsFine(page, p, size, slots)
  }

  lemma ChunkMates(lo: nat, n: nat, q: nat)
    requires 2 <= lo <= n && (lo - 2) % 4 == 0 && lo <= q <= n
    ensures q < NextChunk(lo, n) <==> ChunkOf(q) == ChunkOf(lo)
    ensures ChunkOf(q) >= ChunkOf(lo)
  {
  }

  /** All is done when every page is fine; and otherwise the first chunk with a page that is not decides: a page that
      runs over makes it panic, failed pages alone make it fail. */
  lemma {:induction false} VerdictWhen<T(!new)>(page: nat -> Page<T>, lo: nat, n: nat, size: nat, slots: nat)
    requires lo >= 2 && ((lo - 2) % 4 == 0 || lo == n + 1)
    ensures var v := Verdict(page, lo, n, size, slots);
            && (v.AllDone? <==> forall q :: lo <= q <= n ==> IsFine(page, q, size, slots))
            && (v.OutOfRange? <==> exists q :: RunsOverFirst(page, lo, n, size, slots, q))
    decreases n + 1 - lo
  {
    if lo <= n {
      var hi := NextChunk(lo, n);
      forall q: nat | lo <= q <= n
        ensures q < hi <==> ChunkOf(q) == ChunkOf(lo)
        ensures ChunkOf(q) >= ChunkOf(lo)
        ensures InRange(page, q, size, slots) <==> !IsOver(page, q, size, slots)
      {
        ChunkMates(lo, n, q);
      }
      var end := EndOf(page, lo, hi, size, slots);
      if end.OutOfRange? {
        var q :| lo <= q < hi && !InRange(page, q, size, slots);
        assert RunsOverFirst(page, lo, n, size, slots, q) && !IsFine(page, q, size, slots);
      } else if end.SomeFailed? {
        var f :| lo <= f < hi && page(f).Failed?;
        assert !IsFine(page, f, size, slots);
        forall q: nat ensures !RunsOverFirst(page, lo, n, size, slots, q) {
        }
      } else {
        VerdictWhen(page, hi, n, size, slots);
        forall q: nat
          ensures RunsOverFirst(page, lo, n, size, slots, q) <==> RunsOverFirst(page, hi, n, size, slots, q)
        {
        }
      }
    }
  }

  function NextChunk(lo: nat, n: nat): (hi: nat)
    requires lo <= n
    ensures lo < hi <= lo + WORKERS && hi <= n + 1
    ensures (lo - 2) % WORKERS == 0 ==> (hi - 2) % WORKERS == 0 || hi == n + 1
  {
    if lo + WORKERS <= n + 1 then lo + WORKERS else n + 1
  }

  function Empty<T>(slots: nat): (r: seq<Slot<T>>)
    ensures |r| == slots
  {
    seq(slots, _ => None)
  }

  /** A list of that many slots after the first page and then the others, in the given order, have been written. */
  function Landed<T>(page: nat -> Page<T>, slots: nat, order: seq<nat>): (r: seq<Slot<T>>)
    requires page(1).Entries? && AllInRange(page, [1] + order, |page(1).items|, slots)
    ensures |r| == slots
  {
    Land(Empty(slots), page, [1] + order, |page(1).items|)
  }

  lemma {:induction false} LandAppend<T>(s: seq<Slot<T>>, page: nat -> Page<T>, order: seq<nat>, more: seq<nat>,
                                         size: nat)
    requires AllInRange(page, order, size, |s|) && AllInRange(page, more, size, |s|)
    ensures AllInRange(page, order + more, size, |s|)
    ensures Land(s, page, order + more, size) == Land(Land(s, page, order, size), page, more, size)
  {
    JoinInRange(page, order, more, size, |s|);
    if more == [] {
      assert order + more == order;
    } else {
      var k := |more| - 1;
      var init, q := more[..k], more[k];
      assert AllInRange(page, init, size, |s|) && q in more;
      LandAppend(s, page, order, init, size);
      LandSnoc(s, page, order + init, q, size);
      LandSnoc(Land(s, page, order, size), page, init, q, size);
      LastApart(order, more);
    }
  }

  lemma LastApart(order: seq<nat>, more: seq<nat>)
    requires more != []
    ensures var init, q := more[..|more| - 1], more[|more| - 1];
            more == init + [q] && order + more == order + init + [q]
  {
  }

  /** One more chunk of an order. */
  lemma FinishesMore(order: seq<nat>, more: seq<nat>, lo: nat, hi: nat)
    requires 2 <= lo <= hi <= lo + WORKERS && (lo - 2) % WORKERS == 0
    requires Finishes(more, lo, hi) && Completion(order, lo - 1)
    ensures Completion(order + more, hi - 1)
  {
    var all := order + more;
    forall q ensures q in all <==> 2 <= q < hi {
      assert q in all <==> q in order || q in more;
    }
    forall i, j | 0 <= i < j < |all| ensures all[i] != all[j] && ChunkOf(all[i]) <= ChunkOf(all[j]) {
      if j >= |order| {
        assert all[j] == more[j - |order|] && all[j] in more;
        if i < |order| {
          assert all[i] in order;
        } else {
          assert all[i] == more[i - |order|] && all[i] in more;
        }
      }
    }
  }

  /** What the fetch ends with once the first page is there, for some order of the others. */
  ghost predicate Outcome<T(!new)>(page: nat -> Page<T>, n: nat, order: seq<nat>, r: Fetched<T>)
    requires page(1).Entries?
  {
    var size := |page(1).items|;
    match Verdict(page, 2, n, size, n * size)
    case OutOfRange => r == Panicked
    case SomeFailed => r == FetchError
    case AllDone =>
      && Completion(order, n)
      && AllInRange(page, [1] + order, size, n * size)
      && r == List(Landed(page, n * size, order))
  }

  /** The whole fetch, for every server. Allocating a list of negative length panics. Otherwise the first chunk
      with a page that runs past the list makes it panic, the first with a failed page makes it fail, and without
      either the list is what the pages leave behind, written in some order of completion. */
  method Fetch<T(!new)>(page: nat -> Page<T>, totalPages: int) returns (r: Fetched<T>, ghost order: seq<nat>)
    ensures page(1).Failed? ==> r == FetchError
    ensures page(1).Entries? && totalPages <= 0 ==>
              r == if totalPages < 0 && |page(1).items| > 0 then Panicked else List([])
    ensures page(1).Entries? && totalPages > 0 ==> Outcome(page, PageCount(totalPages), order, r)
    ensures page(1).Entries? && totalPages > 25 ==> Outcome(page, 25, order, r)
    ensures page(1).Entries? && 0 < totalPages <= 25 ==> Outcome(page, totalPages, order, r)
    ensures totalPages >= 0 && AllFit(page, PageCount(totalPages)) ==>
              r == if exists p :: 1 <= p <= PageCount(totalPages) && page(p).Failed? then FetchError
                   else List(Padded(page, PageCount(totalPages), |page(1).items|))
  {
    order := [];
    if page(1).Failed? { return FetchError, []; }
    var size, n := |page(1).items|, PageCount(totalPages);
    NegativeLength(size, n);
    if n * size < 0 { return Panicked, []; }
    if n <= 0 { return List([]), []; }
    var a := new Slot<T>[n * size](_ => None);
    PageFits(size, n, 1, size);
    var first := Finish(page, a, 1, size);
    FirstPage(page, n, n * size);
    var lo := 2;
    while lo <= n
      invariant Reached(page, n, n * size, lo, order, a[..])
    {
      var hi := NextChunk(lo, n);
      ghost var was := a[..];
      var end, more := FetchChunk(page, a, lo, hi, size);
      if !end.AllDone? {
        FitOutcome(page, n, order, if end.OutOfRange? then Panicked else FetchError);
        return if end.OutOfRange? then Panicked else FetchError, order;
      }
      ReachedMore(page, n, n * size, lo, order, more, was);
      order := order + more;
      lo := hi;
    }
    r := List(a[..]);
    FitOutcome(page, n, order, r);
  }

  /** The chunks before page lo ended well, and the list holds what they left behind. */
  ghost predicate Reached<T(!new)>(page: nat -> Page<T>, n: nat, slots: nat, lo: nat, order: seq<nat>,
                                   s: seq<Slot<T>>)
  {
    && page(1).Entries? && 2 <= lo <= n + 1 && ((lo - 2) % WORKERS == 0 || lo == n + 1)
    && Completion(order, lo - 1)
    && Verdict(page, 2, n, |page(1).items|, slots) == Verdict(page, lo, n, |page(1).items|, slots)
    && AllInRange(page, [1] + order, |page(1).items|, slots)
    && s == Landed(page, slots, order)
  }

  lemma FirstPage<T(!new)>(page: nat -> Page<T>, n: nat, slots: nat)
    requires n >= 1 && page(1).Entries? && |page(1).items| <= slots
    ensures Reached(page, n, slots, 2, [], Write(Empty(slots), 0, page(1).items))
  {
    LandSnoc(Empty(slots), page, [], 1, |page(1).items|);
    assert [] + [1] == [1] + [] && Completion([], 1);
  }

  lemma {:induction false} ReachedMore<T(!new)>(page: nat -> Page<T>, n: nat, slots: nat, lo: nat, order: seq<nat>,
                                                more: seq<nat>, s: seq<Slot<T>>)
    requires lo <= n && Reached(page, n, slots, lo, order, s)
    requires EndOf(page, lo, NextChunk(lo, n), |page(1).items|, slots) == AllDone
    requires Finishes(more, lo, NextChunk(lo, n)) && AllInRange(page, more, |page(1).items|, slots)
    ensures Reached(page, n, slots, NextChunk(lo, n), order + more, Land(s, page, more, |page(1).items|))
  {
    FinishesMore(order, more, lo, NextChunk(lo, n));
    assert [1] + order + more == [1] + (order + more);
    LandAppend(Empty(slots), page, [1] + order, more, |page(1).items|);
  }

  lemma NegativeLength(size: nat, n: int)
    ensures n * size < 0 <==> n < 0 && size > 0
  {
    if n < 0 && size > 0 {
      assert n * size <= -1 * size;
    } else if n >= 0 {
      assert n * size >= 0;
    }
  }

  /** When no page is longer than the first none runs past the list. */
  lemma {:induction false} FitVerdict<T(!new)>(page: nat -> Page<T>, lo: nat, n: nat)
    requires page(1).Entries? && lo >= 2
    ensures AllFit(page, n) ==>
              Verdict(page, lo, n, |page(1).items|, n * |page(1).items|)
              == if exists p :: lo <= p <= n && page(p).Failed? then SomeFailed else AllDone
    decreases n + 1 - lo
  {
    var size := |page(1).items|;
    if AllFit(page, n) && lo <= n {
      var hi := NextChunk(lo, n);
      forall q | lo <= q < hi ensures InRange(page, q, size, n * size) {
        if page(q).Entries? { PageFits(size, n, q, |page(q).items|); }
      }
      FitVerdict(page, hi, n);
    }
  }

  function Elements(order: seq<nat>): (r: set<nat>)
    ensures forall q :: q in r <==> q in order
  {
    set q | q in order
  }

  /** Writing the pages of a chunk, in whatever order, adds them and disturbs no other. */
  lemma {:induction false} LandHolds<T(!new)>(s: seq<Slot<T>>, page: nat -> Page<T>, done: set<nat>, n: nat,
                                              order: seq<nat>, size: nat)
    requires AllFit(page, n) && size == |page(1).items| && Holds(s, page, done, n, size)
    requires AllInRange(page, order, size, |s|) && forall q :: q in order ==> 1 <= q <= n && q !in done
    requires forall i, j :: 0 <= i < j < |order| ==> order[i] != order[j]
    ensures Holds(Land(s, page, order, size), page, done + Elements(order), n, size)
  {
    if order == [] {
      assert done + Elements(order) == done;
    } else {
      var k := |order| - 1;
      var init, q := order[..k], order[k];
      assert q in order && forall p :: p in init ==> p in order;
      LandHolds(s, page, done, n, init, size);
      var t, filled := Land(s, page, init, size), done + Elements(init);
      assert done + Elements(order) == filled + {q};
      if page(q).Failed? {
        HoldsFailed(t, page, filled, n, size, q);
      } else {
        HoldsMore(t, page, filled, n, size, q);
      }
    }
  }

  lemma NothingHolds<T(!new)>(page: nat -> Page<T>, n: nat, size: nat)
    ensures Holds(Empty(n * size), page, {}, n, size)
  {
    forall p: nat, i: nat | 1 <= p <= n && i < size ensures SlotHolds(Empty(n * size), page, {}, n, size, p, i) {
      SlotBound(size, n, p, i);
    }
  }

  /** When no page is longer than the first the order is not to be seen. */
  lemma {:induction false} FitLanded<T(!new)>(page: nat -> Page<T>, n: nat, order: seq<nat>)
    requires n >= 1 && AllFit(page, n) && forall p :: 1 <= p <= n ==> page(p).Entries?
    requires Completion(order, n) && AllInRange(page, [1] + order, |page(1).items|, n * |page(1).items|)
    ensures Landed(page, n * |page(1).items|, order) == Padded(page, n, |page(1).items|)
  {
    var all, size := [1] + order, |page(1).items|;
    forall q ensures q in all <==> 1 <= q <= n {
      assert q in all <==> q == 1 || q in order;
    }
    assert forall i :: 1 <= i < |all| ==> all[i] in order && all[i] == order[i - 1];
    NothingHolds(page, n, size);
    LandHolds(Empty(n * size), page, {}, n, all, size);
    HoldsAll(Landed(page, n * size, order), page, {} + Elements(all), n, size);
  }

  lemma {:induction false} FitOutcome<T(!new)>(page: nat -> Page<T>, n: nat, order: seq<nat>, r: Fetched<T>)
    requires n >= 1 && page(1).Entries? && Outcome(page, n, order, r)
    ensures AllFit(page, n) ==>
              r == if exists p :: 1 <= p <= n && page(p).Failed? then FetchError
                   else List(Padded(page, n, |page(1).items|))
  {
    FitVerdict(page, 2, n);
    if AllFit(page, n) && forall p :: 1 <= p <= n ==> page(p).Entries? {
      FitLanded(page, n, order);
    }
  }

  /** Dropping the empty slots and the entries without a media type leaves the others of the pages' entries, in
      order, with increasing numbers. */
  lemma {:induction false} FetchedEntries<T(!new)>(page: nat -> Page<T>, n: nat, typed: T -> bool)
    requires AllFit(page, n) && forall p :: 1 <= p <= n ==> page(p).Entries?
    ensures var ns := Numbered(Padded(page, n, |page(1).items|), typed);
            && Entries(ns) == Typed(Concat(page, n), typed)
            && InOrder(ns, Padded(page, n, |page(1).items|))
  {
    ValuesOfPadded(page, n, |page(1).items|);
    EntriesAreValues(Padded(page, n, |page(1).items|), typed);
    NumbersIncrease(Padded(page, n, |page(1).items|), typed);
  }

  /** The filtering loop of syncList. */
  method DropEmpty<T>(slots: seq<Slot<T>>, typed: T -> bool) returns (items: seq<Item<T>>)
    ensures items == Numbered(slots, typed)
  {
    items := [];
    for i := 0 to |slots|
      invariant items == Numbered(slots[..i], typed)
    {
      assert slots[..i + 1][..i] == slots[..i];
      if slots[i].None? || !typed(slots[i].value) { continue; }
      items := items + [Item(i, slots[i].value)];
    }
    assert slots[..|slots|] == slots;
  }
}
