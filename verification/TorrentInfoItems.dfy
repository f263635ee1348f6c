/** The torrent_info table in terms of the items Upsert is given (internal/torrent_info/db.go). */
module TorrentInfoItems {
  import opened Options
  import opened Histories
  import opened TorrentInfo
  import TorrentStream

  // ---------- one statement ----------

  /** The item has a proper hash and a title that is neither missing, nor the hash, nor a magnet link. */
  predicate IsNamed(x: Item) {
    |x.hash| == 40 && x.row.title != "" && x.row.title != x.hash
    && !(|x.row.title| >= 8 && x.row.title[..8] == "magnet:?")
  }

  /** The item as it is stored for the first time: its own columns, the call's category if it has none. */
  predicate StoredAs(row: Row, x: Item, category: string) {
    && row.title == x.row.title && row.size == x.row.size && row.indexer == x.row.indexer && row.source == x.row.source
    && row.seeders == x.row.seeders && row.leechers == x.row.leechers && row.isPrivate == x.row.isPrivate
    && row.category == (if x.row.category == "" then category else x.row.category)
  }

  /** The item a statement holds for a hash: the first with it, if that is named. */
  function FirstWith(items: seq<Item>, h: string): seq<Item> {
    if items == [] then []
    else
      var n := |items| - 1;
      FirstWith(items[..n], h)
      + if items[n].hash == h && IsNamed(items[n]) && forall m :: 0 <= m < n ==> items[m].hash != h then [items[n]]
        else []
  }

  ghost predicate AreStored(rows: seq<Row>, items: seq<Item>, category: string) {
    |rows| == |items| && forall n :: 0 <= n < |rows| ==> StoredAs(rows[n], items[n], category)
  }

  lemma {:induction false} RowsAreItems(items: seq<Item>, category: string, h: string)
    ensures AreStored(RowsFor(Hashes(items), Rows(items, category), h), FirstWith(items, h), category)
  {
    if items != [] {
      var n := |items| - 1;
      var hashes, rows := Hashes(items[..n]), Rows(items[..n], category);
      RowsAreItems(items[..n], category, h);
      assert Sent(items, n) <==> IsNamed(items[n]) && forall m :: 0 <= m < n ==> items[m].hash != items[n].hash;
      if Sent(items, n) {
        assert (hashes + [items[n].hash])[..|hashes|] == hashes;
        assert (rows + [WithCategory(items[n].row, category)])[..|hashes|] == rows;
      }
    }
  }

  /** The nine arguments that stand for a row. */
  predicate StandsFor(a: seq<Arg>, hash: string, row: Row)
    requires |a| == 9
  {
    && a[0] == Text(hash) && a[1] == Text(row.title) && a[2] == Number(row.size) && a[3] == Text(row.indexer)
    && a[4] == Text(row.source) && a[5] == Text(row.category) && a[6] == Number(row.seeders)
    && a[7] == Number(row.leechers) && a[8] == Flag(row.isPrivate)
  }

  /** Row by row, the arguments of a statement stand for what is stored. */
  lemma {:induction false} ArgsStandForRows(hashes: seq<string>, rows: seq<Row>, k: nat)
    requires |hashes| == |rows| && k < |rows|
    ensures 9 * k + 9 <= |AllArgs(hashes, rows)|
    ensures StandsFor(AllArgs(hashes, rows)[9 * k..9 * k + 9], hashes[k], rows[k])
  {
    var n, from := |rows| - 1, 9 * k;
    var before, last := AllArgs(hashes[..n], rows[..n]), Args(hashes[n], rows[n]);
    assert AllArgs(hashes, rows) == before + last;
    if k < n {
      ArgsStandForRows(hashes[..n], rows[..n], k);
      assert (before + last)[from..from + 9] == before[from..from + 9];
    } else {
      assert (before + last)[from..from + 9] == last;
    }
  }

  // ---------- a call ----------

  function Head(items: seq<Item>): (n: nat)
    ensures n <= |items| && (items != [] ==> n > 0)
  {
    if |items| <= 150 then |items| else 150
  }

  /** The items upserted for a hash, chunk by chunk; the statement of chunk i has no effect when fails(i). */
  function UpsertedItems(items: seq<Item>, i: nat, fails: nat -> bool, h: string): seq<Item>
    decreases |items|
  {
    if items == [] then []
    else
      var n := Head(items);
      (if fails(i) then [] else FirstWith(items[..n], h)) + UpsertedItems(items[n..], i + 1, fails, h)
  }

  lemma {:induction false} UpsertStores(items: seq<Item>, category: string, i: nat, fails: nat -> bool, h: string)
    ensures AreStored(UpsertedRows(items, category, i, fails, h), UpsertedItems(items, i, fails, h), category)
    decreases |items|
  {
    if items != [] {
      RowsAreItems(items[..Head(items)], category, h);
      UpsertStores(items[Head(items)..], category, i + 1, fails, h);
    }
  }

  lemma {:induction false} NoneWith(items: seq<Item>, h: string)
    requires forall m :: 0 <= m < |items| ==> items[m].hash != h
    ensures FirstWith(items, h) == []
  {
    if items != [] { NoneWith(items[..|items| - 1], h); }
  }

  lemma {:induction false} OnlyWith(items: seq<Item>, i: nat)
    requires i < |items| && IsNamed(items[i])
    requires forall m :: 0 <= m < |items| && m != i ==> items[m].hash != items[i].hash
    ensures FirstWith(items, items[i].hash) == [items[i]]
  {
    var n := |items| - 1;
    if i < n {
      OnlyWith(items[..n], i);
    } else {
      NoneWith(items[..n], items[i].hash);
    }
  }

  lemma {:induction false} NothingUpserted(items: seq<Item>, i: nat, fails: nat -> bool, h: string)
    requires forall m :: 0 <= m < |items| ==> items[m].hash != h
    ensures UpsertedItems(items, i, fails, h) == []
    decreases |items|
  {
    if items != [] {
      NoneWith(items[..Head(items)], h);
      NothingUpserted(items[Head(items)..], i + 1, fails, h);
    }
  }

  lemma {:induction false} OnlyUpserted(items: seq<Item>, i: nat, fails: nat -> bool, n: nat)
    requires n < |items| && IsNamed(items[n]) && forall c: nat :: !fails(c)
    requires forall m :: 0 <= m < |items| && m != n ==> items[m].hash != items[n].hash
    ensures UpsertedItems(items, i, fails, items[n].hash) == [items[n]]
    decreases |items|
  {
    var k := Head(items);
    if n < k {
      OnlyWith(items[..k], n);
      NothingUpserted(items[k..], i + 1, fails, items[n].hash);
    } else {
      NoneWith(items[..k], items[n].hash);
      OnlyUpserted(items[k..], i + 1, fails, n - k);
    }
  }

  /** A named item whose hash is new to the table and to the call is stored with its own columns, when no statement
      fails. */
  lemma {:induction false} NewItemIsStored(t: Table, items: seq<Item>, category: string, fails: nat -> bool, n: nat)
    requires n < |items| && IsNamed(items[n]) && items[n].hash !in t && forall c: nat :: !fails(c)
    requires forall m :: 0 <= m < |items| && m != n ==> items[m].hash != items[n].hash
    ensures var h, u := items[n].hash, Upserted(t, items, category, 0, fails);
            h in u && StoredAs(u[h], items[n], category)
  {
    var h := items[n].hash;
    OnlyUpserted(items, 0, fails, n);
    UpsertStores(items, category, 0, fails, h);
    UpsertExtendsHistory(t, items, category, 0, fails, h, []);
    assert [] + UpsertedRows(items, category, 0, fails, h) == UpsertedRows(items, category, 0, fails, h);
  }

  // ---------- runs ----------

  datatype Passed = Passed(item: Item, category: string)

  function PassedBy(items: seq<Item>, category: string): (ps: seq<Passed>)
    ensures |ps| == |items| && forall n :: 0 <= n < |ps| ==> ps[n] == Passed(items[n], category)
  {
    seq(|items|, n requires 0 <= n < |items| => Passed(items[n], category))
  }

  /** The items a run of calls upserts for a hash. */
  function Given(calls: seq<Call>, h: string): seq<Passed> {
    if calls == [] then []
    else
      var c := calls[|calls| - 1];
      Given(calls[..|calls| - 1], h) + PassedBy(UpsertedItems(c.items, 0, c.fails, h), c.category)
  }

  lemma {:induction false} RunStores(calls: seq<Call>, h: string)
    ensures |Applied(calls, h)| == |Given(calls, h)|
    ensures forall n :: 0 <= n < |Given(calls, h)| ==>
              StoredAs(Applied(calls, h)[n], Given(calls, h)[n].item, Given(calls, h)[n].category)
  {
    if calls != [] {
      var c := calls[|calls| - 1];
      RunStores(calls[..|calls| - 1], h);
      UpsertStores(c.items, c.category, 0, c.fails, h);
    }
  }

  predicate FromDht(p: Passed) { p.item.row.source == "dht" }

  predicate FromSettled(p: Passed) {
    var s := p.item.row.source;
    s == "dht" || s == "tio" || s == "ad" || s == "dl" || s == "rd"
  }

  predicate NotFromAto(p: Passed) { p.item.row.source != "ato" }

  function OwnerOf(ps: seq<Passed>): (i: nat)
    requires ps != []
    ensures i < |ps|
  {
    if Last(ps, FromDht).Some? then Last(ps, FromDht).value
    else if First(ps, FromSettled).Some? then First(ps, FromSettled).value
    else if Last(ps, NotFromAto).Some? then Last(ps, NotFromAto).value
    else 0
  }

  /** After every run of calls title and source are those of one item: the latest from dht; without any, the first
      from tio, ad, dl or rd; without any, the latest that is not from ato; else the first. Seeders and leechers
      are those of the latest item from dht, if there is one. */
  lemma {:induction false} TitleOfItems(calls: seq<Call>, h: string)
    requires h in Run(calls)
    ensures Given(calls, h) != []
    ensures var row, ps := Run(calls)[h], Given(calls, h);
            var owner := ps[OwnerOf(ps)].item.row;
            && row.title == owner.title && row.source == owner.source
            && (Last(ps, FromDht).Some? ==> row.seeders == owner.seeders && row.leechers == owner.leechers)
  {
    RunStores(calls, h);
    TitlesOfRun(calls, h);
    OwnersAgree(Applied(calls, h), Given(calls, h));
  }

  lemma {:induction false} OwnersAgree(hs: seq<Row>, ps: seq<Passed>)
    requires hs != [] && |hs| == |ps|
    requires forall n :: 0 <= n < |hs| ==> StoredAs(hs[n], ps[n].item, ps[n].category)
    ensures Owner(hs) == OwnerOf(ps) && Last(hs, IsDht) == Last(ps, FromDht)
  {
    FoundAlike(hs, ps, IsDht, FromDht);
    FoundAlike(hs, ps, IsSettled, FromSettled);
    FoundAlike(hs, ps, IsOpen, NotFromAto);
  }

  predicate NamesIndexer(p: Passed) { p.item.row.indexer != "" }
  predicate NamesCategory(p: Passed) { p.item.row.category != "" || p.category != "" }

  /** The indexer is the latest one named, the category the first one, an item without any counting with that of its
      call. */
  lemma {:induction false} LabelsOfItems(calls: seq<Call>, h: string)
    requires h in Run(calls)
    ensures var row, ps := Run(calls)[h], Given(calls, h);
            var indexer, category := Last(ps, NamesIndexer), First(ps, NamesCategory);
            && row.indexer == (if indexer.Some? then ps[indexer.value].item.row.indexer else "")
            && row.category == (if category.None? then ""
                                else
                                  var p := ps[category.value];
                                  if p.item.row.category != "" then p.item.row.category else p.category)
  {
    RunStores(calls, h);
    RunHasHistory(calls, h);
    LabelsOfHistory(Applied(calls, h));
    FoundAlike(Applied(calls, h), Given(calls, h), HasIndexer, NamesIndexer);
    FoundAlike(Applied(calls, h), Given(calls, h), HasCategory, NamesCategory);
  }

  // ---------- the files handed on ----------

  /** The file is handed on: it has a real path, and is not an archive of Debrider's making. */
  predicate HandedOn(x: Item, f: File) {
    f.path != "" && f.path[0] == '/' && !(x.row.source == "dr" && ArchivePath(f.path))
  }

  /** The path ends in "__archive__.zip". */
  predicate ArchivePath(path: string) {
    |path| >= 15 && path[|path| - 15..] == "__archive__.zip"
  }

  /** As it is handed on: with the torrent's hash, and with its source if the file has none. */
  function StreamOf(x: Item, f: File): TorrentStream.Item {
    TorrentStream.Item(x.hash, f.path, f.row.(source := if f.source == "" then x.row.source else f.source))
  }

  lemma {:induction false} StreamsAre(x: Item, fs: seq<File>)
    ensures forall f :: f in fs && HandedOn(x, f) ==> StreamOf(x, f) in Streams(x, fs)
    ensures forall s :: s in Streams(x, fs) ==> exists f :: f in fs && HandedOn(x, f) && s == StreamOf(x, f)
  {
    if fs != [] {
      var n := |fs| - 1;
      StreamsAre(x, fs[..n]);
      assert fs == fs[..n] + [fs[n]];
      assert Kept(x, fs[n]) <==> HandedOn(x, fs[n]);
      assert Streams(x, fs) == Streams(x, fs[..n]) + if HandedOn(x, fs[n]) then [StreamOf(x, fs[n])] else [];
      forall s | s in Streams(x, fs) ensures exists f :: f in fs && HandedOn(x, f) && s == StreamOf(x, f) {
        if s in Streams(x, fs[..n]) {
          var f :| f in fs[..n] && HandedOn(x, f) && s == StreamOf(x, f);
          assert f in fs;
        }
      }
    }
  }

  /** The files of item n count: it is the first of its hash, that is a proper one, and Premiumize's files count only
      with a video among them. */
  predicate FilesCount(items: seq<Item>, n: nat)
    requires n < |items|
  {
    && |items[n].hash| == 40 && (forall m :: 0 <= m < n ==> items[m].hash != items[n].hash)
    && (items[n].row.source == "pm" ==> exists i :: 0 <= i < |items[n].files| && items[n].files[i].isVideo)
  }

  lemma {:induction false} FilesCountInPrefix(items: seq<Item>, k: nat, n: nat)
    requires n < k <= |items|
    ensures FilesCount(items[..k], n) <==> FilesCount(items, n)
  {
  }

  /** Of one chunk, every file that counts is handed on as it should be, and nothing else. */
  lemma {:induction false} ChunkStreamsAre(items: seq<Item>)
    ensures forall n, f :: 0 <= n < |items| && FilesCount(items, n) && f in items[n].files && HandedOn(items[n], f) ==>
              StreamOf(items[n], f) in ChunkStreams(items)
    ensures forall s :: s in ChunkStreams(items) ==>
              exists n, f :: 0 <= n < |items| && FilesCount(items, n) && f in items[n].files && HandedOn(items[n], f)
                             && s == StreamOf(items[n], f)
  {
    if items != [] {
      var k := |items| - 1;
      var init, x := items[..k], items[k];
      ChunkStreamsAre(init);
      StreamsAre(x, x.files);
      forall n | 0 <= n < k ensures FilesCount(init, n) <==> FilesCount(items, n) {
        FilesCountInPrefix(items, k, n);
      }
      forall s | s in ChunkStreams(items)
        ensures exists n, f :: 0 <= n < |items| && FilesCount(items, n) && f in items[n].files && HandedOn(items[n], f)
                               && s == StreamOf(items[n], f)
      {
        if s in ChunkStreams(init) {
          var n, f :| 0 <= n < k && FilesCount(init, n) && f in init[n].files && HandedOn(init[n], f)
                      && s == StreamOf(init[n], f);
          assert FilesCount(items, n) && f in items[n].files && HandedOn(items[n], f) && s == StreamOf(items[n], f);
        } else {
          assert FilesCount(items, k) && s in Streams(x, x.files);
        }
      }
    }
  }
}
