/** The proxy lookup of internal/config/http.go, which writes its answers into the map it searches. */
module TunnelMap {
  import opened Options
  import opened GoStrings

  /** A proxy URL; which one is all that matters here. */
  type Url = string

  /** The search without any caching: the host itself, then what follows each dot in turn. */
  function Lookup(tm: map<string, Url>, host: string): Option<Url>
    decreases |host|
  {
    if host in tm then Some(tm[host])
    else
      var rest := Cut(host, ".").1;
      CutShortens(host);
      if rest == "" then None else Lookup(tm, rest)
  }

  lemma {:induction false} CutShortens(s: string)
    ensures s != "" ==> |Cut(s, ".").1| < |s|
    ensures s == "" ==> Cut(s, ".").1 == ""
  {
    CutParts(s, ".");
  }

  // ---------- the search is a longest-suffix search ----------

  /** s is the host, or what follows one of its dots (and is not empty). */
  ghost predicate LabelSuffix(s: string, host: string) {
    s == host || (s != "" && exists i :: 0 <= i < |host| && host[i] == '.' && s == host[i + 1..])
  }

  lemma {:induction false} CutAtFirstDot(host: string)
    ensures var (before, after, found) := Cut(host, ".");
            && (found <==> '.' in host)
            && (found ==> |before| < |host| && host[|before|] == '.' && after == host[|before| + 1..])
            && (found ==> '.' !in host[..|before|])
            && (!found ==> after == "")
  {
    CutParts(host, ".");
    var (before, after, found) := Cut(host, ".");
    NoDot(before);
    if found {
      assert host[|before|] == '.';
    } else {
      NoDot(host);
    }
  }

  lemma {:induction false} NoDot(s: string)
    ensures !Contains(s, ".") <==> '.' !in s
  {
    if s != "" {
      NoDot(s[1..]);
      assert s == [s[0]] + s[1..];
      assert "." <= s <==> s[0] == '.';
    }
  }

  lemma SuffixOfRest(s: string, host: string, k: nat)
    requires 0 < k < |host| && host[k - 1] == '.' && '.' !in host[..k - 1] && s != host
    ensures LabelSuffix(s, host) ==> LabelSuffix(s, host[k..])
  {
    forall m | 0 <= m < k - 1 ensures host[m] != '.' {
      assert host[..k - 1][m] in host[..k - 1];
    }
    if i :| 0 <= i < |host| && host[i] == '.' && s == host[i + 1..] && s != "" {
      if i >= k { assert host[k..][i - k] == '.' && host[k..][i - k + 1..] == s; }
    }
  }

  lemma SuffixOfHost(s: string, host: string, k: nat)
    requires 0 < k < |host| && host[k - 1] == '.' && LabelSuffix(s, host[k..])
    ensures LabelSuffix(s, host)
  {
    if i :| 0 <= i < |host| - k && host[k..][i] == '.' && s == host[k..][i + 1..] && s != "" {
      assert host[k + i] == '.' && s == host[k + i + 1..];
    } else {
      assert s == host[k - 1 + 1..];
    }
  }

  /** The suffixes of a host are the host itself and the suffixes of its tail. */
  lemma {:induction false} SuffixOfTail(s: string, host: string)
    ensures var rest := Cut(host, ".").1;
            LabelSuffix(s, host) <==> s == host || (rest != "" && LabelSuffix(s, rest))
  {
    CutAtFirstDot(host);
    var (before, rest, found) := Cut(host, ".");
    var k := |before| + 1;
    if found && rest != "" {
      if s != host { SuffixOfRest(s, host, k); }
      if LabelSuffix(s, rest) { SuffixOfHost(s, host, k); }
    } else {
      assert forall i :: 0 <= i < |host| && host[i] == '.' ==> i + 1 == |host|;
    }
  }

  /** The answer comes from the longest suffix the map has, and there is none only if no suffix is in
      the map. */
  lemma {:induction false} LookupIsLongestSuffix(tm: map<string, Url>, host: string)
    ensures match Lookup(tm, host)
            case None => forall s :: LabelSuffix(s, host) ==> s !in tm
            case Some(u) => exists s :: LabelSuffix(s, host) && s in tm && tm[s] == u
                                        && forall l :: LabelSuffix(l, host) && l in tm ==> |l| <= |s|
    decreases |host|
  {
    var rest := Cut(host, ".").1;
    CutShortens(host);
    forall s ensures LabelSuffix(s, host) ==> |s| <= |host| { }
    if host in tm {
      assert LabelSuffix(host, host);
    } else {
      forall s { SuffixOfTail(s, host); }
      if rest != "" { LookupIsLongestSuffix(tm, rest); }
    }
  }

  // ---------- caching ----------

  /** Both maps give every host the same answer. */
  ghost predicate SameAnswers(a: map<string, Url>, b: map<string, Url>) {
    forall h :: Lookup(a, h) == Lookup(b, h)
  }

  lemma {:induction false} CachingOne(tm: map<string, Url>, host: string, u: Url, h: string)
    requires Lookup(tm, host) == Some(u)
    ensures Lookup(tm[host := u], h) == Lookup(tm, h)
    decreases |h|
  {
    if h != host && h !in tm {
      CutShortens(h);
      if Cut(h, ".").1 != "" { CachingOne(tm, host, u, Cut(h, ".").1); }
    }
  }

  /** Writing an answer into the map changes no answer, for any host. */
  lemma {:induction false} CachingIsInvisible(tm: map<string, Url>, host: string, u: Url)
    requires Lookup(tm, host) == Some(u)
    ensures SameAnswers(tm[host := u], tm)
  {
    forall h ensures Lookup(tm[host := u], h) == Lookup(tm, h) {
      CachingOne(tm, host, u, h);
    }
  }

  class Tunnels {
    var tm: map<string, Url>

    constructor (tm: map<string, Url>)
      ensures this.tm == tm
    {
      this.tm := tm;
    }

    /** However often it is called and for whatever hosts: every call answers as a search of the map
        the first call saw, and only answers are ever added. */
    method GetProxy(hostname: string) returns (r: Option<Url>)
      modifies this
      ensures r == Lookup(old(tm), hostname)
      ensures SameAnswers(tm, old(tm))
      ensures tm == if r.Some? then old(tm)[hostname := r.value] else old(tm)
    {
      var hn := hostname;
      while true
        invariant tm == old(tm) && Lookup(tm, hostname) == Lookup(tm, hn)
        decreases |hn|
      {
        if hn in tm {
          r := Some(tm[hn]);
          assert hn == hostname ==> tm[hostname := r.value] == tm;
          if hn != hostname {
            CachingIsInvisible(tm, hostname, r.value);
            tm := tm[hostname := r.value];
          }
          return;
        }
        CutShortens(hn);
        hn := Cut(hn, ".").1;
        if hn == "" { return None; }
      }
    }

    /** A run of lookups, each leaving its cache entry for the next. */
    method GetAll(hosts: seq<string>) returns (rs: seq<Option<Url>>)
      modifies this
      ensures |rs| == |hosts| && forall i :: 0 <= i < |hosts| ==> rs[i] == Lookup(old(tm), hosts[i])
    {
      rs := [];
      for i := 0 to |hosts|
        invariant |rs| == i && SameAnswers(tm, old(tm))
        invariant forall j :: 0 <= j < i ==> rs[j] == Lookup(old(tm), hosts[j])
      {
        var r := GetProxy(hosts[i]);
        rs := rs + [r];
      }
    }
  }
}
