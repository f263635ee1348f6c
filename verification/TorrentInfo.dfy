/** The torrent_info table of internal/torrent_info/db.go: the row after any history of upserts, and the
    statements Upsert builds. */
module TorrentInfo {
  import opened Options
  import opened Histories
  import TorrentStream

  /** A torrent's columns that Upsert writes, apart from the hash and the timestamps. */
  datatype Row = Row(title: string, size: int, indexer: string, source: string, category: string,
                     seeders: int, leechers: int, isPrivate: bool)

  predicate Settled(source: string) {
    source in {"dht", "tio", "ad", "dl", "rd"}
  }

  /** Whether an upsert from source `ex` takes over title and source of a row from source `ti`. */
  predicate TakesOver(ex: string, ti: string) {
    ex == "dht" || (ex != "ato" && !Settled(ti))
  }

  /** ON CONFLICT DO UPDATE: ti is the stored row, ex the new one. */
  function Merge(ti: Row, ex: Row): Row {
    var dht := ex.source == "dht";
    Row(
      if TakesOver(ex.source, ti.source) then ex.title else ti.title,
      if dht || ti.size < 1 then ex.size else ti.size,
      if ex.indexer != "" then ex.indexer else ti.indexer,
      if TakesOver(ex.source, ti.source) then ex.source else ti.source,
      if ti.category == "" then ex.category else ti.category,
      if dht || (ti.source != "dht" && ex.seeders > 0) then ex.seeders else ti.seeders,
      if dht then ex.leechers else ti.leechers,
      if dht || (ti.source != "dht" && ti.isPrivate) then ti.isPrivate else ex.isPrivate)
  }

  /** The row after it was inserted with hs[0] and then met the other upserts in order. */
  function After(hs: seq<Row>): Row
    requires hs != []
  {
    if |hs| == 1 then hs[0] else Merge(After(hs[..|hs| - 1]), hs[|hs| - 1])
  }

  predicate IsDht(r: Row) { r.source == "dht" }
  predicate IsSettled(r: Row) { Settled(r.source) }
  predicate IsOpen(r: Row) { r.source != "ato" }
  predicate HasIndexer(r: Row) { r.indexer != "" }
  predicate HasCategory(r: Row) { r.category != "" }
  predicate HasSize(r: Row) { r.size >= 1 }

  function Or(a: Option<nat>, b: nat): nat {
    if a.Some? then a.value else b
  }

  /** The upsert the row's title and source come from: the latest dht one; without any, the first
      from a settled source; without any, the latest that is not from ato; else the very first. */
  function Owner(hs: seq<Row>): (i: nat)
    requires hs != []
    ensures i < |hs|
  {
    Or(Last(hs, IsDht), Or(First(hs, IsSettled), Or(Last(hs, IsOpen), 0)))
  }

  /** Title and source always come from one and the same upsert, the owner. */
  lemma {:induction false} TitleOfHistory(hs: seq<Row>)
    requires hs != []
    ensures After(hs).title == hs[Owner(hs)].title && After(hs).source == hs[Owner(hs)].source
  {
    if |hs| > 1 {
      var init, n := hs[..|hs| - 1], |hs| - 1;
      TitleOfHistory(init);
      assert Last(hs, IsDht) == if IsDht(hs[n]) then Some(n) else Last(init, IsDht);
      assert Last(hs, IsOpen) == if IsOpen(hs[n]) then Some(n) else Last(init, IsOpen);
      assert First(hs, IsSettled) == if First(init, IsSettled).Some? then First(init, IsSettled)
                                     else if IsSettled(hs[n]) then Some(n) else None;
    }
  }

  /** Seeders: once a dht upsert has been applied, those of the latest one. Leechers: the same, and
      before it those of the first insert, since only dht upserts replace them. */
  lemma {:induction false} PeersOfHistory(hs: seq<Row>)
    requires hs != []
    ensures var dht := Last(hs, IsDht);
            && After(hs).leechers == hs[Or(dht, 0)].leechers
            && (dht.Some? ==> After(hs).seeders == hs[dht.value].seeders)
    ensures Last(hs, IsDht).Some? <==> After(hs).source == "dht"
  {
    TitleOfHistory(hs);
    if |hs| > 1 {
      PeersOfHistory(hs[..|hs| - 1]);
    }
  }

  predicate HasSeeders(r: Row) { r.seeders > 0 }

  /** Without a dht upsert the seeders are those of the latest upsert that reports any, else the first's. */
  lemma {:induction false} SeedersWithoutDht(hs: seq<Row>)
    requires hs != [] && Last(hs, IsDht).None?
    ensures After(hs).seeders == hs[Or(Last(hs, HasSeeders), 0)].seeders
  {
    PeersOfHistory(hs);
    if |hs| > 1 {
      assert Last(hs[..|hs| - 1], IsDht).None?;
      PeersOfHistory(hs[..|hs| - 1]);
      SeedersWithoutDht(hs[..|hs| - 1]);
    }
  }

  /** The latest named indexer and the first named category. */
  lemma {:induction false} LabelsOfHistory(hs: seq<Row>)
    requires hs != []
    ensures var indexer, category := Last(hs, HasIndexer), First(hs, HasCategory);
            && After(hs).indexer == (if indexer.Some? then hs[indexer.value].indexer else "")
            && After(hs).category == (if category.Some? then hs[category.value].category else "")
  {
    if |hs| > 1 {
      LabelsOfHistory(hs[..|hs| - 1]);
    }
  }

  /** The size: of the upserts from the latest dht one on (from the first on without any), the first with a
      size; when none has one, the latest. */
  lemma {:induction false} SizeOfHistory(hs: seq<Row>)
    requires hs != []
    ensures var since := hs[Or(Last(hs, IsDht), 0)..];
            After(hs).size == since[Or(First(since, HasSize), |since| - 1)].size
  {
    if |hs| > 1 {
      var n := |hs| - 1;
      SizeOfHistory(hs[..n]);
      if IsDht(hs[n]) {
        assert hs[n..] == [hs[n]];
      } else {
        var b := Or(Last(hs, IsDht), 0);
        assert Last(hs[..n], IsDht) == Last(hs, IsDht);
        assert hs[b..][..|hs[b..]| - 1] == hs[..n][b..];
      }
    }
  }

  predicate NotDht(r: Row) { r.source != "dht" }

  /** Without a dht upsert the torrent is private as soon as one upsert says so. */
  lemma {:induction false} PrivateWithoutDht(hs: seq<Row>)
    requires hs != [] && First(hs, IsDht).None?
    ensures After(hs).isPrivate <==> exists i :: 0 <= i < |hs| && hs[i].isPrivate
  {
    if |hs| > 1 {
      var n := |hs| - 1;
      PrivateWithoutDht(hs[..n]);
      PeersOfHistory(hs[..n]);
      if i :| 0 <= i < n && hs[..n][i].isPrivate { assert hs[i].isPrivate; }
      if i :| 0 <= i < n && hs[i].isPrivate { assert hs[..n][i].isPrivate; }
    }
  }

  /** Once dht upsert d has been applied, the latest upsert that is not from dht says whether the torrent is
      private; before one comes, it stays as it was when d arrived. */
  lemma {:induction false} PrivateSinceDht(hs: seq<Row>, d: nat)
    requires First(hs, IsDht) == Some(d)
    ensures var other := Last(hs, NotDht);
            After(hs).isPrivate == if other.Some? && other.value > d then hs[other.value].isPrivate
                                   else if d == 0 then hs[0].isPrivate
                                   else After(hs[..d]).isPrivate
  {
    var n := |hs| - 1;
    if n > 0 && d < n {
      assert First(hs[..n], IsDht) == Some(d) && hs[..n][..d] == hs[..d];
      PrivateSinceDht(hs[..n], d);
      PeersOfHistory(hs[..n]);
    } else if d > 0 {
      assert Last(hs, NotDht) == Last(hs[..n], NotDht);
    }
  }

  /** Once the source is tio, ad, dl or rd, any upserts without a dht one leave the title alone. */
  lemma {:induction false} SettledTitleStays(hs: seq<Row>, more: seq<Row>)
    requires hs != [] && Settled(After(hs).source)
    requires forall i :: 0 <= i < |more| ==> more[i].source != "dht"
    ensures After(hs + more).title == After(hs).title && After(hs + more).source == After(hs).source
  {
    if more == [] {
      assert hs + more == hs;
    } else {
      SettledTitleStays(hs, more[..|more| - 1]);
      assert (hs + more)[..|hs + more| - 1] == hs + more[..|more| - 1];
    }
  }

  // ---------- the statements ----------

  datatype File = File(path: string, source: string, isVideo: bool, row: TorrentStream.Row)

  datatype Item = Item(hash: string, row: Row, files: seq<File>)

  predicate UsableTitle(item: Item) {
    item.row.title != "" && item.row.title != item.hash && !("magnet:?" <= item.row.title)
  }

  /** Whether item n of a chunk goes into the statement. Only the first item of a hash is looked at. */
  predicate Sent(items: seq<Item>, n: nat)
    requires n < |items|
  {
    FirstOfHash(items, n) && |items[n].hash| == 40 && UsableTitle(items[n])
  }

  predicate FirstOfHash(items: seq<Item>, n: nat)
    requires n < |items|
  {
    forall m :: 0 <= m < n ==> items[m].hash != items[n].hash
  }

  function WithCategory(row: Row, category: string): Row {
    if row.category == "" then row.(category := category) else row
  }

  /** Hashes and rows of a chunk's statement. */
  function Hashes(items: seq<Item>): seq<string> {
    if items == [] then []
    else
      var n := |items| - 1;
      if Sent(items, n) then Hashes(items[..n]) + [items[n].hash] else Hashes(items[..n])
  }

  function Rows(items: seq<Item>, category: string): (r: seq<Row>)
    ensures |r| == |Hashes(items)|
  {
    if items == [] then []
    else
      var n := |items| - 1;
      var r := Rows(items[..n], category);
      if Sent(items, n) then r + [WithCategory(items[n].row, category)] else r
  }

  predicate EndsWith(s: string, suffix: string) {
    |suffix| <= |s| && s[|s| - |suffix|..] == suffix
  }

  predicate Kept(item: Item, f: File) {
    && TorrentStream.Rooted(f.path)
    && !(item.row.source == "dr" && EndsWith(f.path, "__archive__.zip"))
  }

  function Streams(item: Item, fs: seq<File>): seq<TorrentStream.Item> {
    if fs == [] then []
    else
      var n := |fs| - 1;
      var f := fs[n];
      var r := Streams(item, fs[..n]);
      if Kept(item, f) then
        var source := if f.source == "" then item.row.source else f.source;
        r + [TorrentStream.Item(item.hash, f.path, f.row.(source := source))]
      else r
  }

  predicate HasVideo(fs: seq<File>) {
    exists i :: 0 <= i < |fs| && fs[i].isVideo
  }

  /** Files of a chunk handed on to the stream table. */
  function ChunkStreams(items: seq<Item>): seq<TorrentStream.Item> {
    if items == [] then []
    else
      var n := |items| - 1;
      var r := ChunkStreams(items[..n]);
      if FirstOfHash(items, n) && |items[n].hash| == 40 && !(items[n].row.source == "pm" && !HasVideo(items[n].files))
      then r + Streams(items[n], items[n].files) else r
  }

  lemma {:induction false} StreamsRooted(item: Item, fs: seq<File>)
    ensures forall x :: x in Streams(item, fs) ==> TorrentStream.Rooted(x.path)
  {
    if fs != [] { StreamsRooted(item, fs[..|fs| - 1]); }
  }

  lemma {:induction false} ChunkStreamsRooted(items: seq<Item>)
    ensures forall x :: x in ChunkStreams(items) ==> TorrentStream.Rooted(x.path)
  {
    if items != [] {
      ChunkStreamsRooted(items[..|items| - 1]);
      StreamsRooted(items[|items| - 1], items[|items| - 1].files);
    }
  }

  lemma {:induction false} HashesComeFromItems(items: seq<Item>, h: string)
    ensures h in Hashes(items) ==> |h| == 40 && exists m :: 0 <= m < |items| && items[m].hash == h
  {
    if items != [] {
      var n := |items| - 1;
      HashesComeFromItems(items[..n], h);
      if h in Hashes(items[..n]) {
        var m :| 0 <= m < n && items[..n][m].hash == h;
        assert items[m].hash == h;
      }
    }
  }

  /** No hash occurs twice in a statement. */
  lemma {:induction false} HashesDiffer(items: seq<Item>)
    ensures forall i, j :: 0 <= i < j < |Hashes(items)| ==> Hashes(items)[i] != Hashes(items)[j]
  {
    if items != [] {
      var n := |items| - 1;
      HashesDiffer(items[..n]);
      HashesComeFromItems(items[..n], items[n].hash);
      if items[n].hash in Hashes(items[..n]) {
        var m :| 0 <= m < n && items[..n][m].hash == items[n].hash;
        assert items[m].hash == items[n].hash;
        assert !FirstOfHash(items, n);
      }
    }
  }

  datatype Arg = Text(s: string) | Number(i: int) | Flag(b: bool)

  /** The nine arguments of a row. */
  function Args(hash: string, row: Row): (r: seq<Arg>)
    ensures |r| == 9
  {
    [Text(hash), Text(row.title), Number(row.size), Text(row.indexer), Text(row.source), Text(row.category),
     Number(row.seeders), Number(row.leechers), Flag(row.isPrivate)]
  }

  function AllArgs(hashes: seq<string>, rows: seq<Row>): (r: seq<Arg>)
    requires |hashes| == |rows|
    ensures |r| == 9 * |rows|
  {
    if rows == [] then []
    else AllArgs(hashes[..|rows| - 1], rows[..|rows| - 1]) + Args(hashes[|rows| - 1], rows[|rows| - 1])
  }

  lemma {:induction false} AllArgsSnoc(hashes: seq<string>, rows: seq<Row>, h: string, r: Row)
    requires |hashes| == |rows|
    ensures AllArgs(hashes + [h], rows + [r]) == AllArgs(hashes, rows) + Args(h, r)
  {
    assert (hashes + [h])[..|rows|] == hashes && (rows + [r])[..|rows|] == rows;
  }

  /** One chunk of Upsert: the statement has nine arguments for each of its count rows, no conflict key
      occurs twice, and every file handed on has a real path, as the stream table's insert requires. */
  method BuildChunk(items: seq<Item>, category: string)
    returns (count: int, args: seq<Arg>, streams: seq<TorrentStream.Item>)
    ensures count == |Hashes(items)| && |args| == 9 * count
    ensures args == AllArgs(Hashes(items), Rows(items, category))
    ensures forall i, j :: 0 <= i < j < |Hashes(items)| ==> Hashes(items)[i] != Hashes(items)[j]
    ensures streams == ChunkStreams(items) && forall x :: x in streams ==> TorrentStream.Rooted(x.path)
  {
    count, args, streams := |items|, [], [];
    var seen: set<string> := {};
    for i := 0 to |items|
      invariant count == |Hashes(items[..i])| + |items| - i
      invariant args == AllArgs(Hashes(items[..i]), Rows(items[..i], category))
      invariant streams == ChunkStreams(items[..i])
      invariant forall h :: h in seen <==> exists m :: 0 <= m < i && items[m].hash == h
    {
      var t := items[i];
      assert items[..i + 1][..i] == items[..i];
      assert t.hash in seen <==> !FirstOfHash(items[..i + 1], i);
      if t.hash in seen { count := count - 1; continue; }
      seen := seen + {t.hash};
      if |t.hash| != 40 { count := count - 1; continue; }
      if !(t.row.source == "pm" && !HasVideo(t.files)) {
        var kept := KeepFiles(t);
        streams := streams + kept;
      }
      if !UsableTitle(t) { count := count - 1; continue; }
      AllArgsSnoc(Hashes(items[..i]), Rows(items[..i], category), t.hash, WithCategory(t.row, category));
      args := args + Args(t.hash, WithCategory(t.row, category));
    }
    assert items[..|items|] == items;
    HashesDiffer(items);
    ChunkStreamsRooted(items);
  }

  method KeepFiles(t: Item) returns (r: seq<TorrentStream.Item>)
    ensures r == Streams(t, t.files)
  {
    r := [];
    for i := 0 to |t.files|
      invariant r == Streams(t, t.files[..i])
    {
      assert t.files[..i + 1][..i] == t.files[..i];
      var f := t.files[i];
      if !TorrentStream.Rooted(f.path) { continue; }
      if t.row.source == "dr" && EndsWith(f.path, "__archive__.zip") { continue; }
      var source := if f.source == "" then t.row.source else f.source;
      r := r + [TorrentStream.Item(t.hash, f.path, f.row.(source := source))];
    }
    assert t.files[..|t.files|] == t.files;
  }

  // ---------- the table ----------

  /** The rows by hash. */
  type Table = map<string, Row>

  function Insert(t: Table, hashes: seq<string>, rows: seq<Row>): Table
    requires |hashes| == |rows|
  {
    if hashes == [] then t
    else
      var n := |hashes| - 1;
      var u := Insert(t, hashes[..n], rows[..n]);
      u[hashes[n] := if hashes[n] in u then Merge(u[hashes[n]], rows[n]) else rows[n]]
  }

  /** The rows given for one hash. */
  function RowsFor(hashes: seq<string>, rows: seq<Row>, h: string): seq<Row>
    requires |hashes| == |rows|
  {
    if hashes == [] then []
    else
      var n := |hashes| - 1;
      RowsFor(hashes[..n], rows[..n], h) + if hashes[n] == h then [rows[n]] else []
  }

  /** hs is everything upserted so far for h. */
  ghost predicate HasHistory(t: Table, h: string, hs: seq<Row>) {
    (h in t <==> hs != []) && (h in t ==> t[h] == After(hs))
  }

  lemma {:induction false} AfterSnoc(hs: seq<Row>, r: Row)
    ensures After(hs + [r]) == if hs == [] then r else Merge(After(hs), r)
  {
    assert (hs + [r])[..|hs|] == hs;
  }

  lemma {:induction false} InsertExtendsHistory(t: Table, hashes: seq<string>, rows: seq<Row>, h: string, hs: seq<Row>)
    requires |hashes| == |rows| && HasHistory(t, h, hs)
    ensures HasHistory(Insert(t, hashes, rows), h, hs + RowsFor(hashes, rows, h))
  {
    if hashes == [] {
      JoinNone(hs);
    } else {
      var n := |hashes| - 1;
      var given := RowsFor(hashes[..n], rows[..n], h);
      InsertExtendsHistory(t, hashes[..n], rows[..n], h, hs);
      AfterSnoc(hs + given, rows[n]);
      JoinAll(hs, given, [rows[n]]);
      JoinNone(given);
    }
  }

  const CHUNK := 150

  /** One call of Upsert, chunk by chunk; the statement of chunk i has no effect when fails(i). */
  function Upserted(t: Table, items: seq<Item>, category: string, i: nat, fails: nat -> bool): Table
    decreases |items|
  {
    if items == [] then t
    else
      var n := if |items| <= CHUNK then |items| else CHUNK;
      var u := if fails(i) then t else Insert(t, Hashes(items[..n]), Rows(items[..n], category));
      Upserted(u, items[n..], category, i + 1, fails)
  }

  function UpsertedRows(items: seq<Item>, category: string, i: nat, fails: nat -> bool, h: string): seq<Row>
    decreases |items|
  {
    if items == [] then []
    else
      var n := if |items| <= CHUNK then |items| else CHUNK;
      (if fails(i) then [] else RowsFor(Hashes(items[..n]), Rows(items[..n], category), h))
      + UpsertedRows(items[n..], category, i + 1, fails, h)
  }

  /** The files of all chunks, which are handed on whether or not the statements succeed. */
  function UpsertedStreams(items: seq<Item>): seq<TorrentStream.Item>
    decreases |items|
  {
    if items == [] then []
    else
      var n := if |items| <= CHUNK then |items| else CHUNK;
      ChunkStreams(items[..n]) + UpsertedStreams(items[n..])
  }

  lemma {:induction false} UpsertExtendsHistory(t: Table, items: seq<Item>, category: string, i: nat,
                                                fails: nat -> bool, h: string, hs: seq<Row>)
    requires HasHistory(t, h, hs)
    ensures HasHistory(Upserted(t, items, category, i, fails), h, hs + UpsertedRows(items, category, i, fails, h))
    decreases |items|
  {
    if items == [] {
      JoinNone(hs);
    } else {
      var n := if |items| <= CHUNK then |items| else CHUNK;
      var hashes, rows := Hashes(items[..n]), Rows(items[..n], category);
      var u := if fails(i) then t else Insert(t, hashes, rows);
      var given := if fails(i) then [] else RowsFor(hashes, rows, h);
      InsertExtendsHistory(t, hashes, rows, h, hs);
      JoinNone(hs);
      UpsertExtendsHistory(u, items[n..], category, i + 1, fails, h, hs + given);
      JoinAll(hs, given, UpsertedRows(items[n..], category, i + 1, fails, h));
    }
  }

  datatype Call = Call(items: seq<Item>, category: string, fails: nat -> bool)

  /** The table after a run of calls, and what they applied to one hash. */
  function Run(calls: seq<Call>): Table {
    if calls == [] then map[]
    else
      var c := calls[|calls| - 1];
      Upserted(Run(calls[..|calls| - 1]), c.items, c.category, 0, c.fails)
  }

  function Applied(calls: seq<Call>, h: string): seq<Row> {
    if calls == [] then []
    else
      var c := calls[|calls| - 1];
      Applied(calls[..|calls| - 1], h) + UpsertedRows(c.items, c.category, 0, c.fails, h)
  }

  /** Over every run of Upsert, statements failing anywhere, each hash has the row its applied items give: what
      is proved about After holds for the table. */
  lemma {:induction false} RunHasHistory(calls: seq<Call>, h: string)
    ensures HasHistory(Run(calls), h, Applied(calls, h))
  {
    if calls != [] {
      var c := calls[|calls| - 1];
      RunHasHistory(calls[..|calls| - 1], h);
      UpsertExtendsHistory(Run(calls[..|calls| - 1]), c.items, c.category, 0, c.fails, h,
                           Applied(calls[..|calls| - 1], h));
    }
  }

  /** In the table after any run: title and source come from one applied item; and once a dht item has been
      applied, title, source, seeders and leechers are those of the latest one. */
  lemma {:induction false} TitlesOfRun(calls: seq<Call>, h: string)
    requires h in Run(calls)
    ensures var row, hs := Run(calls)[h], Applied(calls, h);
            hs != [] && row.title == hs[Owner(hs)].title && row.source == hs[Owner(hs)].source
    ensures var row, hs := Run(calls)[h], Applied(calls, h);
            Last(hs, IsDht).Some? ==>
              var latest := hs[Last(hs, IsDht).value];
              row.title == latest.title && row.source == latest.source
              && row.seeders == latest.seeders && row.leechers == latest.leechers
  {
    RunHasHistory(calls, h);
    TitleOfHistory(Applied(calls, h));
    PeersOfHistory(Applied(calls, h));
  }

  class Database {
    var rows: Table

    constructor ()
      ensures rows == map[]
    {
      rows := map[];
    }

    /** The statement of one chunk, given its rows' hashes. */
    method Exec(hashes: seq<string>, given: seq<Row>)
      requires |hashes| == |given|
      modifies this
      ensures rows == Insert(old(rows), hashes, given)
    {
      for i := 0 to |hashes|
        invariant rows == Insert(old(rows), hashes[..i], given[..i])
      {
        assert hashes[..i + 1][..i] == hashes[..i] && given[..i + 1][..i] == given[..i];
        rows := rows[hashes[i] := if hashes[i] in rows then Merge(rows[hashes[i]], given[i]) else given[i]];
      }
      assert hashes[..|hashes|] == hashes && given[..|hashes|] == given;
    }

    /** Upsert: a failing statement does not stop the later chunks. */
    method Upsert(items: seq<Item>, category: string, fails: nat -> bool) returns (streams: seq<TorrentStream.Item>)
      modifies this
      ensures rows == Upserted(old(rows), items, category, 0, fails)
      ensures streams == UpsertedStreams(items)
    {
      var left, i := items, 0;
      streams := [];
      while left != []
        invariant Upserted(old(rows), items, category, 0, fails) == Upserted(rows, left, category, i, fails)
        invariant UpsertedStreams(items) == streams + UpsertedStreams(left)
        decreases |left|
      {
        var n := if |left| <= CHUNK then |left| else CHUNK;
        var _, _, more := BuildChunk(left[..n], category);
        if !fails(i) { Exec(Hashes(left[..n]), Rows(left[..n], category)); }
        JoinAll(streams, more, UpsertedStreams(left[n..]));
        streams, left, i := streams + more, left[n..], i + 1;
      }
      JoinNone(streams);
    }
  }
}
