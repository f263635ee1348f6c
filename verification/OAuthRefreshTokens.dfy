/** Which refresh token a refresh presents (section 6 of RFC 6749). Token() refreshes through an oauth2
    token source that was built from the token given at construction and afterwards remembers what it was
    issued itself (internal/oauth/token_source.go); it is not told about the row just re-read. */
module OAuthRefreshTokens {
  import opened Options
  import opened Histories
  import opened OAuthProtocol

  function RefreshBy(n: NodeId): Event -> bool {
    (e: Event) => e.Refresh? && e.n == n
  }

  /** The last refresh of n in a run. */
  function LastRefresh(es: seq<Event>, n: NodeId): (r: Option<nat>)
    ensures r.Some? ==> r.value < |es| && es[r.value].Refresh? && es[r.value].n == n
  {
    Last(es, RefreshBy(n))
  }

  /** The refresh token the source of n holds; `own` is what it was built with. */
  function Held(own: string, es: seq<Event>, n: NodeId): string {
    if LastRefresh(es, n).Some? then es[LastRefresh(es, n).value].issued.refresh else own
  }

  /** The refresh whose token is stored, None for the row of the start. */
  function Origin(s0: State, es: seq<Event>): (r: Option<nat>)
    requires Run(s0, es).Some?
    ensures r.Some? ==> r.value < |es| && es[r.value].Refresh?
  {
    if es == [] then None
    else
      var init, e := es[..|es| - 1], es[|es| - 1];
      if e.Save? && Run(s0, es).value.saves > Run(s0, init).value.saves then LastRefresh(init, e.n)
      else Origin(s0, init)
  }

  function StoredBy(s0: State, es: seq<Event>, o: Option<nat>): Token
    requires s0.row.Some? && (o.Some? ==> o.value < |es| && es[o.value].Refresh?)
  {
    if o.Some? then es[o.value].issued else s0.row.value.token
  }

  /** A node that has refreshed carries the token of its last refresh. */
  ghost predicate Carries(s: State, es: seq<Event>, n: NodeId)
    requires n in s.nodes
  {
    var r := LastRefresh(es, n);
    && (s.nodes[n].pc.Refreshed? ==> r.Some? && es[r.value].issued == s.nodes[n].pc.issued)
    && (s.nodes[n].pc.Identified? ==> r.Some? && es[r.value].issued == s.nodes[n].tok)
  }

  lemma {:induction false} LastRefreshSnoc(es: seq<Event>, e: Event, n: NodeId)
    ensures LastRefresh(es + [e], n) == if e.Refresh? && e.n == n then Some(|es|) else LastRefresh(es, n)
  {
    assert (es + [e])[..|es|] == es;
  }

  lemma {:induction false} CarriesStep(s: State, es: seq<Event>, e: Event, n: NodeId)
    requires Next(s, e).Some? && n in Next(s, e).value.nodes && n in s.nodes && Carries(s, es, n)
    ensures Carries(Next(s, e).value, es + [e], n)
  {
    LastRefreshSnoc(es, e, n);
  }

  lemma {:induction false} AlwaysCarries(s0: State, es: seq<Event>, n: NodeId)
    requires Init(s0) && Run(s0, es).Some? && n in Run(s0, es).value.nodes
    ensures Carries(Run(s0, es).value, es, n)
  {
    if es != [] {
      var init, e := es[..|es| - 1], es[|es| - 1];
      AlwaysCarries(s0, init, n);
      CarriesStep(Run(s0, init).value, init, e, n);
      assert es == init + [e];
    }
  }

  /** The stored token is the one of its origin. */
  lemma {:induction false} RowComesFromOrigin(s0: State, es: seq<Event>)
    requires Init(s0) && Run(s0, es).Some? && Run(s0, es).value.row.Some?
    ensures s0.row.Some? && Run(s0, es).value.row.value.token == StoredBy(s0, es, Origin(s0, es))
  {
    if es != [] {
      var init, e := es[..|es| - 1], es[|es| - 1];
      var s := Run(s0, init).value;
      InvHolds(s0, es);
      if e.Save? && Run(s0, es).value.saves > s.saves {
        AlwaysCarries(s0, init, e.n);
      } else {
        RowComesFromOrigin(s0, init);
      }
    }
  }

  /** Without any assumption about the provider: the source holds the stored refresh token whenever the stored
      token was issued in its own last refresh, or nothing has been stored and it has not refreshed yet. */
  lemma {:induction false} HoldsOwnStored(s0: State, es: seq<Event>, n: NodeId, own: string)
    requires Init(s0) && Run(s0, es).Some? && Run(s0, es).value.row.Some?
    requires s0.row.Some? ==> own == s0.row.value.token.refresh
    requires LastRefresh(es, n) == Origin(s0, es)
    ensures Held(own, es, n) == Run(s0, es).value.row.value.token.refresh
  {
    RowComesFromOrigin(s0, es);
  }

  /** The provider issues a new refresh token every time, as section 6 of RFC 6749 allows. */
  ghost predicate Rotates(first: string, es: seq<Event>) {
    && (forall i :: 0 <= i < |es| && es[i].Refresh? ==> es[i].issued.refresh != first)
    && (forall i, j :: 0 <= i < j < |es| && es[i].Refresh? && es[j].Refresh? ==>
          es[i].issued.refresh != es[j].issued.refresh)
  }

  /** With a provider that rotates refresh tokens, a node about to refresh holds the refresh token of the
      row it has just re-read if and only if that row comes from its own last refresh (or nothing has
      been stored since the start and it has not refreshed). After another node's refresh, or after one of its own
      that was not stored, it presents a token other than the stored one. */
  lemma {:induction false} PresentsStoredToken(s0: State, es: seq<Event>, n: NodeId)
    requires Init(s0) && s0.row.Some? && Rotates(s0.row.value.token.refresh, es)
    requires Run(s0, es).Some? && n in Run(s0, es).value.nodes && Run(s0, es).value.nodes[n].pc.MustRefresh?
    ensures Held(s0.row.value.token.refresh, es, n) == Run(s0, es).value.nodes[n].pc.seen.token.refresh
            <==> LastRefresh(es, n) == Origin(s0, es)
  {
    InvHolds(s0, es);
    RowComesFromOrigin(s0, es);
    var o, l := Origin(s0, es), LastRefresh(es, n);
    if o.Some? && l.Some? && o != l {
      assert es[if o.value < l.value then o.value else l.value].issued.refresh
          != es[if o.value < l.value then l.value else o.value].issued.refresh;
    }
  }
}
