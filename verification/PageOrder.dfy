/** When the order in which the workers of internal/tmdb/list.go finish can be seen in the list: pages longer than
    the first one run over their neighbours' slots. */
module PageOrder {
  import opened Options
  import opened Histories
  import opened PageFill

  /** The page writes slot k. */
  predicate Covers<T>(page: nat -> Page<T>, size: nat, q: nat, k: nat) {
    q >= 1 && page(q).Entries? && Start(size, q) <= k < Start(size, q) + |page(q).items|
  }

  function EntryAt<T>(page: nat -> Page<T>, size: nat, q: nat, k: nat): T
    requires Covers(page, size, q, k)
  {
    page(q).items[k - Start(size, q)]
  }

  function Covering<T>(page: nat -> Page<T>, size: nat, k: nat): nat -> bool {
    (q: nat) => Covers(page, size, q, k)
  }

  /** A slot holds the entry of the last page written over it. */
  lemma {:induction false} LandAt<T>(s: seq<Slot<T>>, page: nat -> Page<T>, order: seq<nat>, size: nat, k: nat)
    requires AllInRange(page, order, size, |s|) && k < |s|
    ensures var last := Last(order, Covering(page, size, k));
            Land(s, page, order, size)[k]
            == if last.Some? then Some(EntryAt(page, size, order[last.value], k)) else s[k]
  {
    if order != [] {
      var init, q := order[..|order| - 1], order[|order| - 1];
      assert AllInRange(page, init, size, |s|) && q in order && InRange(page, q, size, |s|);
      LandAt(s, page, init, size, k);
    }
  }

  /** The pages 1 to n, none of them failed, fit into the list together. */
  ghost predicate Ready<T(!new)>(page: nat -> Page<T>, n: nat, size: nat, slots: nat) {
    && n >= 1 && page(1).Entries? && size == |page(1).items|
    && forall q :: 1 <= q <= n ==> page(q).Entries? && InRange(page, q, size, slots)
  }

  lemma ReadyInRange<T(!new)>(page: nat -> Page<T>, n: nat, size: nat, slots: nat, order: seq<nat>)
    requires Ready(page, n, size, slots) && Completion(order, n)
    ensures AllInRange(page, [1] + order, size, slots)
  {
    forall q | q in [1] + order ensures InRange(page, q, size, slots) {
      assert q == 1 || q in order;
    }
  }

  /** Pages p and q of one chunk write slot k, and no page of a later chunk does. */
  ghost predicate Contested<T(!new)>(page: nat -> Page<T>, n: nat, size: nat, p: nat, q: nat, k: nat) {
    && 2 <= p <= n && 2 <= q <= n && ChunkOf(p) == ChunkOf(q)
    && Covers(page, size, p, k) && Covers(page, size, q, k)
    && forall r :: 2 <= r <= n && ChunkOf(r) > ChunkOf(p) ==> !Covers(page, size, r, k)
  }

  /** Whoever comes last, the slot gets the same entry. */
  ghost predicate Agreed<T(!new)>(page: nat -> Page<T>, n: nat, size: nat) {
    forall p: nat, q: nat, k: nat :: Contested(page, n, size, p, q, k) ==>
      EntryAt(page, size, p, k) == EntryAt(page, size, q, k)
  }

  /** The list for one completion order. */
  ghost function ListFor<T(!new)>(page: nat -> Page<T>, n: nat, slots: nat, order: seq<nat>): seq<Slot<T>>
    requires page(1).Entries? && Ready(page, n, |page(1).items|, slots) && Completion(order, n)
  {
    ReadyInRange(page, n, |page(1).items|, slots, order);
    Landed(page, slots, order)
  }

  /** The position of the last page to write slot k. */
  function Writer<T>(page: nat -> Page<T>, order: seq<nat>, size: nat, k: nat): (r: Option<nat>)
    ensures r.Some? ==> r.value <= |order| && Covers(page, size, ([1] + order)[r.value], k)
    ensures r.Some? ==> forall j :: r.value <= j < |order| ==> !Covers(page, size, order[j], k)
  {
    var r := Last([1] + order, Covering(page, size, k));
    assert forall j :: 0 <= j < |order| ==> ([1] + order)[j + 1] == order[j];
    r
  }

  /** Nothing is written to a slot that no page covers; otherwise it is written last by a page of the last chunk that
      covers it, or by the first page. */
  lemma LastWriter<T>(page: nat -> Page<T>, n: nat, order: seq<nat>, size: nat, k: nat)
    requires n >= 1 && Completion(order, n)
    ensures var w := Writer(page, order, size, k);
            && (w.None? ==> forall q :: 1 <= q <= n ==> !Covers(page, size, q, k))
            && (w.Some? ==> 1 <= ([1] + order)[w.value] <= n)
            && (w.Some? ==> forall q :: 2 <= q <= n && Covers(page, size, q, k) ==>
                  w.value >= 1 && ChunkOf(q) <= ChunkOf(order[w.value - 1]))
  {
    var all, w := [1] + order, Writer(page, order, size, k);
    forall q | 2 <= q <= n && Covers(page, size, q, k)
      ensures w.Some? && w.value >= 1 && ChunkOf(q) <= ChunkOf(order[w.value - 1])
    {
      assert q in order;
      var j :| 0 <= j < |order| && order[j] == q;
      assert all[j + 1] == q;
    }
    assert all[0] == 1;
    assert w.Some? && w.value >= 1 ==> all[w.value] in order;
  }

  lemma WrittenBy<T(!new)>(page: nat -> Page<T>, n: nat, slots: nat, order: seq<nat>, k: nat)
    requires page(1).Entries? && Ready(page, n, |page(1).items|, slots) && Completion(order, n) && k < slots
    ensures var w := Writer(page, order, |page(1).items|, k);
            ListFor(page, n, slots, order)[k]
            == if w.Some? then Some(EntryAt(page, |page(1).items|, ([1] + order)[w.value], k)) else None
  {
    ReadyInRange(page, n, |page(1).items|, slots, order);
    LandAt(Empty(slots), page, [1] + order, |page(1).items|, k);
  }

  lemma AgreedSlot<T(!new)>(page: nat -> Page<T>, n: nat, slots: nat, o: seq<nat>, u: seq<nat>, k: nat)
    requires page(1).Entries? && Ready(page, n, |page(1).items|, slots) && Agreed(page, n, |page(1).items|)
    requires Completion(o, n) && Completion(u, n) && k < slots
    ensures ListFor(page, n, slots, o)[k] == ListFor(page, n, slots, u)[k]
  {
    var size := |page(1).items|;
    WrittenBy(page, n, slots, o, k);
    WrittenBy(page, n, slots, u, k);
    LastWriter(page, n, o, size, k);
    LastWriter(page, n, u, size, k);
    var i, j := Writer(page, o, size, k), Writer(page, u, size, k);
    if i.Some? && j.Some? {
      var p, q := ([1] + o)[i.value], ([1] + u)[j.value];
      if p != q {
        assert Contested(page, n, size, p, q, k);
      }
    }
  }

  /** The first page of the next chunk, n + 1 when there is none. */
  function NextAfter(p: nat, n: nat): int {
    var next := WORKERS * ChunkOf(p) + WORKERS + 2;
    if next <= n + 1 then next else n + 1
  }

  /** The order in which everything finishes in turn, except that p is the last of its chunk. */
  function LastInChunk(p: nat, n: nat): (o: seq<nat>)
    requires 2 <= p <= n
    ensures |o| == n - 1
  {
    var hi := NextAfter(p, n);
    seq(n - 1, i requires 0 <= i < n - 1 =>
      if p <= i + 2 < hi - 1 then i + 3 else if i + 2 == hi - 1 then p else i + 2)
  }

  lemma LastInChunkLists(p: nat, n: nat)
    requires 2 <= p <= n
    ensures Finishes(LastInChunk(p, n), 2, n + 1)
  {
    var o, hi := LastInChunk(p, n), NextAfter(p, n);
    forall q ensures q in o <==> 2 <= q < n + 1 {
      if 2 <= q <= n {
        assert o[if q == p then hi - 3 else if p < q < hi then q - 3 else q - 2] == q;
      }
    }
  }

  lemma LastInChunkCompletes(p: nat, n: nat)
    requires 2 <= p <= n
    ensures var o, at := LastInChunk(p, n), NextAfter(p, n) - 3;
            && Completion(o, n) && 0 <= at < |o| && o[at] == p
            && forall j :: at < j < |o| ==> ChunkOf(o[j]) > ChunkOf(p)
  {
    var o, hi := LastInChunk(p, n), NextAfter(p, n);
    LastInChunkLists(p, n);
    assert p < hi && o[hi - 3] == p;
  }

  /** The slot's entry when p comes last in its chunk. */
  lemma LastInChunkWrites<T(!new)>(page: nat -> Page<T>, n: nat, slots: nat, p: nat, q: nat, k: nat)
    requires page(1).Entries? && Ready(page, n, |page(1).items|, slots) && k < slots
    requires Contested(page, n, |page(1).items|, p, q, k)
    ensures Completion(LastInChunk(p, n), n)
    ensures ListFor(page, n, slots, LastInChunk(p, n))[k] == Some(EntryAt(page, |page(1).items|, p, k))
  {
    var o, at := LastInChunk(p, n), NextAfter(p, n) - 3;
    var size, all := |page(1).items|, [1] + o;
    LastInChunkCompletes(p, n);
    WrittenBy(page, n, slots, o, k);
    assert all[at + 1] == p && Covering(page, size, k)(p);
    forall j | at + 1 < j < |all| ensures !Covers(page, size, all[j], k) {
      assert all[j] == o[j - 1] && o[j - 1] in o;
    }
  }

  /** Every completion order gives the same list. */
  ghost predicate Unseen<T(!new)>(page: nat -> Page<T>, n: nat, slots: nat)
    requires page(1).Entries? && Ready(page, n, |page(1).items|, slots)
  {
    forall o, u :: Completion(o, n) && Completion(u, n) ==> ListFor(page, n, slots, o) == ListFor(page, n, slots, u)
  }

  /** The order cannot be seen if and only if the pages agree on every slot contested inside a chunk. */
  lemma OrderUnseenWhen<T(!new)>(page: nat -> Page<T>, n: nat, slots: nat)
    requires page(1).Entries? && Ready(page, n, |page(1).items|, slots)
    ensures Unseen(page, n, slots) <==> Agreed(page, n, |page(1).items|)
  {
    var size := |page(1).items|;
    if Agreed(page, n, size) {
      forall o, u | Completion(o, n) && Completion(u, n)
        ensures ListFor(page, n, slots, o) == ListFor(page, n, slots, u)
      {
        forall k | 0 <= k < slots ensures ListFor(page, n, slots, o)[k] == ListFor(page, n, slots, u)[k] {
          AgreedSlot(page, n, slots, o, u, k);
        }
      }
    }
    if Unseen(page, n, slots) {
      forall p: nat, q: nat, k: nat | Contested(page, n, size, p, q, k)
        ensures EntryAt(page, size, p, k) == EntryAt(page, size, q, k)
      {
        assert InRange(page, p, size, slots);
        LastInChunkWrites(page, n, slots, p, q, k);
        LastInChunkWrites(page, n, slots, q, p, k);
      }
    }
  }

  // ---------- by the lengths alone ----------

  ghost predicate HasLengths<T(!new)>(page: nat -> Page<T>, len: nat -> nat, n: nat, slots: nat) {
    Ready(page, n, len(1), slots) && forall q :: 1 <= q <= n ==> |page(q).items| == len(q)
  }

  /** No page runs into a non-empty one of its own chunk. */
  ghost predicate NoOverrun(len: nat -> nat, n: nat) {
    forall p, q :: 2 <= p < q <= n && ChunkOf(p) == ChunkOf(q) && len(q) > 0 ==> len(p) <= (q - p) * len(1)
  }

  lemma StartsApart(size: nat, p: nat, q: nat)
    requires 1 <= p <= q
    ensures Start(size, q) == Start(size, p) + (q - p) * size
  {
    assert (q - 1) * size == (p - 1) * size + (q - p) * size;
  }

  lemma PagesApart<T(!new)>(page: nat -> Page<T>, len: nat -> nat, n: nat, slots: nat, p: nat, q: nat, k: nat)
    requires HasLengths(page, len, n, slots) && NoOverrun(len, n)
    requires 2 <= p < q <= n && ChunkOf(p) == ChunkOf(q)
    ensures !(Covers(page, len(1), p, k) && Covers(page, len(1), q, k))
  {
    StartsApart(len(1), p, q);
    assert |page(p).items| == len(p) && |page(q).items| == len(q);
  }

  lemma NoOverrunAgrees<T(!new)>(page: nat -> Page<T>, len: nat -> nat, n: nat, slots: nat)
    requires HasLengths(page, len, n, slots) && NoOverrun(len, n)
    ensures Agreed(page, n, len(1))
  {
    forall p: nat, q: nat, k: nat | Contested(page, n, len(1), p, q, k)
      ensures EntryAt(page, len(1), p, k) == EntryAt(page, len(1), q, k)
    {
      if p < q {
        PagesApart(page, len, n, slots, p, q, k);
      } else if q < p {
        PagesApart(page, len, n, slots, q, p, k);
      }
    }
  }

  /** Pages of given lengths, with b in page q and a in all others. */
  function Marked<T>(len: nat -> nat, q: nat, a: T, b: T): nat -> Page<T> {
    (x: nat) => Entries(seq(len(x), _ => if x == q then b else a))
  }

  predicate Fits(len: nat -> nat, n: nat, slots: nat) {
    forall x :: 1 <= x <= n ==> Start(len(1), x) + len(x) <= slots
  }

  lemma MarkedHasLengths<T(!new)>(len: nat -> nat, n: nat, slots: nat, q: nat, a: T, b: T)
    requires n >= 1 && Fits(len, n, slots)
    ensures HasLengths(Marked(len, q, a, b), len, n, slots)
  {
    var page := Marked(len, q, a, b);
    assert page(1).Entries? && |page(1).items| == len(1);
    forall x | 1 <= x <= n ensures page(x).Entries? && InRange(page, x, len(1), slots) && |page(x).items| == len(x) {
    }
  }

  /** A server that shows the order. */
  lemma OverrunDisagrees<T(!new)>(len: nat -> nat, n: nat, p: nat, q: nat, a: T, b: T)
    requires a != b && len(1) > 0
    requires 2 <= p < q <= n && ChunkOf(p) == ChunkOf(q) && len(q) > 0 && len(p) > (q - p) * len(1)
    ensures !Agreed(Marked(len, q, a, b), n, len(1))
  {
    var page, size, k := Marked(len, q, a, b), len(1), Start(len(1), q);
    StartsApart(size, p, q);
    SlotOrder(size, p, 0, q);
    assert Covers(page, size, p, k) && Covers(page, size, q, k);
    forall r | 2 <= r <= n && ChunkOf(r) > ChunkOf(p) ensures !Covers(page, size, r, k) {
      SlotOrder(size, q, 0, r);
    }
    assert Contested(page, n, size, p, q, k);
  }

  lemma UnseenByLength<T(!new)>(len: nat -> nat, n: nat, slots: nat, a: T, b: T)
    requires a != b && n >= 1 && Fits(len, n, slots) && (len(1) == 0 ==> slots == 0)
    ensures (forall page: nat -> Page<T> :: HasLengths(page, len, n, slots) ==> Unseen(page, n, slots))
            <==> NoOverrun(len, n)
  {
    if NoOverrun(len, n) {
      forall page: nat -> Page<T> | HasLengths(page, len, n, slots) ensures Unseen(page, n, slots) {
        NoOverrunAgrees(page, len, n, slots);
        OrderUnseenWhen(page, n, slots);
      }
    } else {
      var p: nat, q: nat :| 2 <= p < q <= n && ChunkOf(p) == ChunkOf(q) && len(q) > 0 && len(p) > (q - p) * len(1);
      assert Start(len(1), q) + len(q) <= slots;
      MarkedHasLengths(len, n, slots, q, a, b);
      OverrunDisagrees(len, n, p, q, a, b);
      OrderUnseenWhen(Marked(len, q, a, b), n, slots);
    }
  }

  /** For all contents of pages of these lengths the order cannot be seen if and only if no page runs into a
      non-empty one of its own chunk. */
  lemma OrderUnseenByLength<T(!new)>(len: nat -> nat, n: nat, a: T, b: T)
    requires a != b && n >= 1 && Fits(len, n, n * len(1))
    ensures (forall page: nat -> Page<T> :: HasLengths(page, len, n, n * len(1)) ==> Unseen(page, n, n * len(1)))
            <==> NoOverrun(len, n)
  {
    UnseenByLength(len, n, n * len(1), a, b);
  }
}
