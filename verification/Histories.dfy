/** First and latest element with a property, for closed forms of what a sequence of writes leaves behind. */
module Histories {
  import opened Options

  function First<T>(hs: seq<T>, p: T -> bool): (r: Option<nat>)
    ensures r.Some? ==> r.value < |hs| && p(hs[r.value]) && forall i :: 0 <= i < r.value ==> !p(hs[i])
    ensures r.None? ==> forall i :: 0 <= i < |hs| ==> !p(hs[i])
  {
    if hs == [] then None
    else
      var r := First(hs[..|hs| - 1], p);
      if r.Some? then r else if p(hs[|hs| - 1]) then Some(|hs| - 1) else None
  }

  function Last<T>(hs: seq<T>, p: T -> bool): (r: Option<nat>)
    ensures r.Some? ==> r.value < |hs| && p(hs[r.value]) && forall i :: r.value < i < |hs| ==> !p(hs[i])
    ensures r.None? ==> forall i :: 0 <= i < |hs| ==> !p(hs[i])
  {
    if hs == [] then None
    else if p(hs[|hs| - 1]) then Some(|hs| - 1) else Last(hs[..|hs| - 1], p)
  }

  lemma {:induction false} FirstStays<T>(hs: seq<T>, more: seq<T>, p: T -> bool)
    requires First(hs, p).Some?
    ensures First(hs + more, p) == First(hs, p)
  {
    var i, all := First(hs, p).value, hs + more;
    assert all[i] == hs[i] && p(all[i]);
    forall j | 0 <= j < i ensures !p(all[j]) {
      assert all[j] == hs[j];
    }
  }

  /** Sequences whose elements agree on their properties agree on where these come first and last. */
  lemma {:induction false} FoundAlike<S, T>(a: seq<S>, b: seq<T>, p: S -> bool, q: T -> bool)
    requires |a| == |b| && forall i :: 0 <= i < |a| ==> p(a[i]) == q(b[i])
    ensures First(a, p) == First(b, q) && Last(a, p) == Last(b, q)
  {
    if a != [] {
      FoundAlike(a[..|a| - 1], b[..|b| - 1], p, q);
    }
  }

  lemma JoinAll<T>(a: seq<T>, b: seq<T>, c: seq<T>)
    ensures a + b + c == a + (b + c)
  {
  }

  lemma JoinNone<T>(a: seq<T>)
    ensures a + [] == a
  {
  }
}
