/** Proxy link tokens of internal/shared/store.go. JSON, base64, JWT and cipher are taken as exact
    inverses under the right key; modelled are the blob the link and its headers are packed into,
    how it is cut apart again, the checks on the way, and the token cache. */
module ProxyLink {
  import opened Options
  import opened GoStrings
  import opened MapTexts

  type Headers = map<string, string>

  /** A token as decoding sees it. Plain carries user and password as one text; a signed token carries
      the key it was signed with, and a blob that is encrypted with a key or only base64-encoded. */
  datatype Token =
    | Plain(credentials: string, link: string, headers: Headers, tunnel: string)
    | Signed(user: string, key: string, blob: string, blobKey: Option<string>, tunnel: string, expiresAt: Option<int>)

  datatype Data = Data(user: string, link: string, headers: Headers, tunnel: string)

  datatype Result = Ok(data: Data) | Unauthorized | BadToken

  // ---------- the blob ----------

  function Line(headers: Headers): string -> string {
    k => if k in headers then k + ": " + headers[k] else ""
  }

  function Tail(lines: seq<string>): string {
    if lines == [] then "" else Tail(lines[..|lines| - 1]) + "\n" + lines[|lines| - 1]
  }

  /** The link, then a line for each header, in the order the header map is walked. */
  function Blob(link: string, headers: Headers, order: seq<string>): string {
    link + Tail(Texts(Line(headers), order))
  }

  function ReadHeader(m: Headers, line: string): Headers {
    var (k, v, ok) := Cut(line, ": ");
    if ok then m[k := v] else m
  }

  function LinkOf(blob: string): string {
    Cut(blob, "\n").0
  }

  function HeadersOf(blob: string): Headers {
    var (_, lines, ok) := Cut(blob, "\n");
    if ok then Fold(ReadHeader, map[], Split(lines, '\n')) else map[]
  }

  /** What survives the blob. */
  ghost predicate OneLine(link: string, headers: Headers) {
    && '\n' !in link
    && forall k :: k in headers ==> '\n' !in k && '\n' !in headers[k] && !Contains(k, ": ")
  }

  lemma {:induction false} ContainsNewline(s: string)
    ensures Contains(s, "\n") <==> '\n' in s
  {
    if s != "" {
      ContainsNewline(s[1..]);
      assert s == [s[0]] + s[1..];
      assert "\n" <= s <==> s[0] == '\n';
    }
  }

  lemma {:induction false} ContainsTail(s: string, sub: string, i: nat)
    requires i <= |s| && sub <= s[i..]
    ensures Contains(s, sub)
  {
    if i > 0 {
      assert s[1..][i - 1..] == s[i..];
      ContainsTail(s[1..], sub, i - 1);
    } else {
      assert s[0..] == s;
    }
  }

  /** The first ": " of a header line is the one after the key. */
  lemma {:induction false} HeaderLine(k: string, v: string)
    requires !Contains(k, ": ")
    ensures Cut(k + ": " + v, ": ") == (k, v, true)
  {
    var s := k + ": " + v;
    assert s[|k|] == ':';
    forall i | 0 <= i < |k| ensures !(": " <= s[i..]) {
      if ": " <= s[i..] {
        assert s[i..][0] == ':' && s[i..][1] == ' ';
        assert s[i] == ':' && s[i + 1] == ' ';
        assert k[i..][0] == ':' && k[i..][1] == ' ';
        ContainsTail(k, ": ", i);
      }
    }
    CutJoined(k, ": ", v);
  }

  lemma {:induction false} TailLines(lines: seq<string>)
    requires lines != []
    ensures Tail(lines) == "\n" + Join(lines, "\n")
  {
    if |lines| == 1 {
      assert lines[..0] == [];
    } else {
      var init, last := lines[..|lines| - 1], lines[|lines| - 1];
      var text := Join(init, "\n");
      TailLines(init);
      JoinSnoc(init, last, "\n");
      assert init + [last] == lines;
      assert "\n" + text + "\n" + last == "\n" + (text + "\n" + last);
    }
  }

  lemma {:induction false} JoinSnoc(a: seq<string>, x: string, sep: string)
    requires a != []
    ensures Join(a + [x], sep) == Join(a, sep) + sep + x
  {
    if |a| == 1 {
      assert (a + [x])[1..] == [x];
    } else {
      JoinSnoc(a[1..], x, sep);
      assert (a + [x])[1..] == a[1..] + [x];
    }
  }

  lemma {:induction false} LinesShape(link: string, headers: Headers, order: seq<string>)
    requires OneLine(link, headers) && Enumerates(order, headers.Keys)
    ensures forall l :: l in Texts(Line(headers), order) ==> '\n' !in l
    ensures forall r, k :: k in headers && k !in r ==> ReadHeader(r, Line(headers)(k)) == r[k := headers[k]]
  {
    forall l | l in Texts(Line(headers), order) ensures '\n' !in l {
      var i :| 0 <= i < |order| && Texts(Line(headers), order)[i] == l;
      assert order[i] in headers;
    }
    forall r: Headers, k | k in headers && k !in r ensures ReadHeader(r, Line(headers)(k)) == r[k := headers[k]] {
      HeaderLine(k, headers[k]);
    }
  }

  predicate Always(k: string) { true }

  lemma {:induction false} ReadLines(headers: Headers, order: seq<string>)
    requires OneLine("", headers) && Enumerates(order, headers.Keys)
    ensures Fold(ReadHeader, map[], Texts(Line(headers), order)) == headers
  {
    LinesShape("", headers, order);
    FoldTexts(headers, order, Line(headers), ReadHeader, Always);
    KeptInAll(headers, order, Always);
    KeptAll(headers, Always);
  }

  lemma {:induction false} LinesAreRead(link: string, lines: seq<string>)
    requires '\n' !in link && forall l :: l in lines ==> '\n' !in l
    ensures LinkOf(link + Tail(lines)) == link
    ensures HeadersOf(link + Tail(lines)) == Fold(ReadHeader, map[], lines)
  {
    if lines == [] {
      assert link + Tail(lines) == link;
      CutAbsent(link, '\n');
    } else {
      TailLines(lines);
      assert link + Tail(lines) == link + ['\n'] + Join(lines, "\n");
      CutAtChar(link, '\n', Join(lines, "\n"));
      SplitJoin(lines, '\n');
    }
  }

  lemma BlobSurvives(link: string, headers: Headers, order: seq<string>)
    requires OneLine(link, headers) && Enumerates(order, headers.Keys)
    ensures LinkOf(Blob(link, headers, order)) == link && HeadersOf(Blob(link, headers, order)) == headers
  {
    LinesShape(link, headers, order);
    LinesAreRead(link, Texts(Line(headers), order));
    ReadLines(headers, order);
  }

  /** Whatever blob is read: the link and the headers that come out are single lines. */
  lemma BlobReadsOneLine(blob: string)
    ensures OneLine(LinkOf(blob), HeadersOf(blob))
  {
    CutParts(blob, "\n");
    ContainsNewline(LinkOf(blob));
    var (_, lines, ok) := Cut(blob, "\n");
    if ok { ReadOneLine(Split(lines, '\n')); }
  }

  lemma {:induction false} ReadOneLine(lines: seq<string>)
    requires forall l :: l in lines ==> '\n' !in l
    ensures OneLine("", Fold(ReadHeader, map[], lines))
  {
    if lines != [] {
      var n := |lines| - 1;
      ReadOneLine(lines[..n]);
      CutParts(lines[n], ": ");
      assert '\n' !in lines[n];
      var (k, v, ok) := Cut(lines[n], ": ");
      if ok {
        assert lines[n] == k + ": " + v;
        assert forall c :: c in k || c in v ==> c in lines[n];
      }
    }
  }

  /** The blob gives link and headers back exactly when they are single lines without ": " in a
      header's name, for every order in which the headers were walked. */
  lemma BlobRoundTrip(link: string, headers: Headers, order: seq<string>)
    requires Enumerates(order, headers.Keys)
    ensures LinkOf(Blob(link, headers, order)) == link && HeadersOf(Blob(link, headers, order)) == headers
            <==> OneLine(link, headers)
  {
    if OneLine(link, headers) {
      BlobSurvives(link, headers, order);
    } else {
      BlobReadsOneLine(Blob(link, headers, order));
    }
  }

  // ---------- creating and unwrapping ----------

  /** The configured passwords; an unknown user has the empty one. */
  function PasswordOf(passwords: map<string, string>, user: string): string {
    if user in passwords then passwords[user] else ""
  }

  function Decode(t: Token, passwords: map<string, string>, now: int): Result {
    match t
    case Plain(credentials, link, headers, tunnel) =>
      var (user, pass, _) := Cut(credentials, ":");
      if pass != PasswordOf(passwords, user) then Unauthorized else Ok(Data(user, link, headers, tunnel))
    case Signed(user, key, blob, blobKey, tunnel, expiresAt) =>
      if PasswordOf(passwords, user) != key then BadToken
      else if expiresAt.Some? && now >= expiresAt.value then Unauthorized
      else if blobKey.Some? && blobKey.value != key then BadToken
      else Ok(Data(user, LinkOf(blob), HeadersOf(blob), tunnel))
  }

  /** The token made when the headers are walked in the given order: plain only when it is neither
      encrypted nor expiring. */
  function Created(d: Data, order: seq<string>, password: string, encrypt: bool, expiresAt: Option<int>): Token {
    if !encrypt && expiresAt.None? then Plain(d.user + ":" + password, d.link, d.headers, d.tunnel)
    else Signed(d.user, password, Blob(d.link, d.headers, order), if encrypt then Some(password) else None,
                d.tunnel, expiresAt)
  }

  /** CreateProxyLink's token. */
  method Create(link: string, headers: Headers, tunnel: string, expiresAt: Option<int>, user: string, password: string,
                encrypt: bool)
    returns (t: Token)
    ensures exists order :: Enumerates(order, headers.Keys)
                            && t == Created(Data(user, link, headers, tunnel), order, password, encrypt, expiresAt)
    ensures t.Plain? <==> !encrypt && expiresAt.None?
    ensures t.Plain? ==> t == Plain(user + ":" + password, link, headers, tunnel)
    ensures t.Signed? ==> t.user == user && t.key == password && t.tunnel == tunnel && t.expiresAt == expiresAt
    ensures t.Signed? ==> t.blobKey == if encrypt then Some(password) else None
  {
    var blob := link;
    ghost var order := [];
    var left, done := headers.Keys, {};
    while left != {}
      invariant done + left == headers.Keys && done !! left
      invariant Enumerates(order, done)
      invariant blob == Blob(link, headers, order)
      decreases left
    {
      var k :| k in left;
      EnumeratesSnoc(order, done, k);
      BlobSnoc(link, headers, order, k);
      blob := blob + "\n" + k + ": " + headers[k];
      left, done, order := left - {k}, done + {k}, order + [k];
    }
    assert done == headers.Keys;
    if !encrypt && expiresAt.None? {
      t := Plain(user + ":" + password, link, headers, tunnel);
    } else {
      t := Signed(user, password, blob, if encrypt then Some(password) else None, tunnel, expiresAt);
    }
  }

  lemma BlobSnoc(link: string, headers: Headers, order: seq<string>, k: string)
    requires k in headers
    ensures Blob(link, headers, order + [k]) == Blob(link, headers, order) + "\n" + k + ": " + headers[k]
  {
    assert (order + [k])[..|order|] == order;
    var lines := Texts(Line(headers), order);
    assert Texts(Line(headers), order + [k]) == lines + [k + ": " + headers[k]];
    assert (lines + [k + ": " + headers[k]])[..|lines|] == lines;
  }

  /** Unwrapping what was created gives user, link, headers and tunnel type back, before it expires and
      while the password is the configured one, exactly when: for the plain form, the user has no ":";
      for the signed forms, link and headers are single lines and no header name has ": ". */
  lemma TokenRoundTrip(d: Data, order: seq<string>, password: string, encrypt: bool, expiresAt: Option<int>,
                       passwords: map<string, string>, now: int)
    requires Enumerates(order, d.headers.Keys) && PasswordOf(passwords, d.user) == password
    requires expiresAt.Some? ==> now < expiresAt.value
    ensures Decode(Created(d, order, password, encrypt, expiresAt), passwords, now) == Ok(d)
            <==> if !encrypt && expiresAt.None? then ':' !in d.user else OneLine(d.link, d.headers)
  {
    if !encrypt && expiresAt.None? {
      if ':' !in d.user {
        CutAtChar(d.user, ':', password);
      } else {
        CutParts(d.user + ":" + password, ":");
        var user := Cut(d.user + ":" + password, ":").0;
        if ':' in user { ColonContained(user); }
      }
    } else {
      BlobRoundTrip(d.link, d.headers, order);
    }
  }

  /** Nothing is answered for a token that carries another password than the configured one (the empty one for a user
      without any), is encrypted with another key, or has expired. */
  lemma RejectedWhen(t: Token, passwords: map<string, string>, now: int)
    requires Decode(t, passwords, now).Ok?
    ensures var d := Decode(t, passwords, now).data;
            var password := if d.user in passwords then passwords[d.user] else "";
            && d.tunnel == t.tunnel
            && (t.Plain? ==> d.link == t.link && d.headers == t.headers
                             && (t.credentials == d.user + ":" + password
                                 || (t.credentials == d.user && password == "")))
            && (t.Signed? ==> d.user == t.user && t.key == password && (t.blobKey.Some? ==> t.blobKey.value == password)
                              && (t.expiresAt.Some? ==> now < t.expiresAt.value))
  {
    if t.Plain? { CutParts(t.credentials, ":"); }
  }

  /** What becomes of a created token, whatever the passwords are later and whenever it is unwrapped. */
  lemma TokenOutcome(d: Data, order: seq<string>, password: string, encrypt: bool, expiresAt: Option<int>,
                     passwords: map<string, string>, now: int)
    requires Enumerates(order, d.headers.Keys)
    requires if !encrypt && expiresAt.None? then ':' !in d.user else OneLine(d.link, d.headers)
    ensures var current := if d.user in passwords then passwords[d.user] else "";
            Decode(Created(d, order, password, encrypt, expiresAt), passwords, now)
            == if current != password then (if !encrypt && expiresAt.None? then Unauthorized else BadToken)
               else if expiresAt.Some? && now >= expiresAt.value then Unauthorized
               else Ok(d)
  {
    if PasswordOf(passwords, d.user) == password && (expiresAt.Some? ==> now < expiresAt.value) {
      TokenRoundTrip(d, order, password, encrypt, expiresAt, passwords, now);
    } else if !encrypt && expiresAt.None? {
      CutAtChar(d.user, ':', password);
    }
  }

  lemma {:induction false} ColonContained(s: string)
    requires ':' in s
    ensures Contains(s, ":")
  {
    if s[0] != ':' {
      assert s == [s[0]] + s[1..];
      ColonContained(s[1..]);
    }
  }

  // ---------- the cache ----------

  class Unwrapper {
    const passwords: map<string, string>
    var cache: map<Token, Data>

    /** Every cached answer is what decoding its token gives at some time. */
    ghost predicate Valid()
      reads this
    {
      forall t :: t in cache ==> Answers(t, cache[t])
    }

    ghost predicate Answers(t: Token, d: Data) {
      exists at: int :: Decode(t, passwords, at) == Ok(d)
    }

    constructor (passwords: map<string, string>)
      ensures Valid() && this.passwords == passwords && cache == map[]
    {
      this.passwords, cache := passwords, map[];
    }

    /** A cached token is answered from the cache, unless the entry has been dropped, and so also after its
        expiry; any other token is decoded. Either way an answer is the one decoding gives, and before the
        token's expiry the outcome is the same with and without the cache. A token that decoding rejects is
        answered if and only if its entry is still in the cache. */
    method Unwrap(t: Token, now: int, dropped: bool) returns (r: Result)
      requires Valid()
      modifies this
      ensures Valid()
      ensures dropped || t !in old(cache) ==> r == Decode(t, passwords, now)
      ensures !dropped && t in old(cache) ==> r == Ok(old(cache)[t])
      ensures !Decode(t, passwords, now).Ok? ==> (r.Ok? <==> !dropped && t in old(cache))
      ensures r.Ok? ==> Answers(t, r.data)
      ensures Decode(t, passwords, now).Ok? ==> r == Decode(t, passwords, now)
      ensures cache == if r.Ok? then old(cache)[t := r.data] else old(cache) - {t}
    {
      if !dropped && t in cache {
        r := Ok(cache[t]);
        if Decode(t, passwords, now).Ok? {
          ghost var at :| Decode(t, passwords, at) == Ok(cache[t]);
        }
        assert cache == cache[t := cache[t]];
        return;
      }
      cache := cache - {t};
      r := Decode(t, passwords, now);
      if r.Ok? {
        assert Answers(t, r.data);
        cache := cache[t := r.data];
      }
    }
  }
}
