/** The torrent_stream table of internal/torrent_stream/db.go: what one conflicting insert does to a row,
    what every writer keeps, and what a row holds after any history of inserts. */
module TorrentStream {
  import opened Options
  import opened Histories
  import opened GoStrings
  import opened MapTexts

  /** A row's columns apart from its key and its timestamps; -1 is an unknown index or size. */
  datatype Row = Row(idx: int, size: int, sid: string, asid: string, source: string, vhash: string)

  datatype Key = Key(hash: string, path: string)

  type Table = map<Key, Row>

  datatype Item = Item(hash: string, path: string, row: Row)

  predicate FromSwarm(source: string) {
    source == "dht" || source == "tor"
  }

  predicate Weak(source: string) {
    source == "" || source == "mfn"
  }

  predicate Unset(sid: string) {
    sid == "" || sid == "*"
  }

  predicate Rooted(path: string) {
    path != "" && path[0] == '/'
  }

  // ---------- one conflicting insert ----------

  /** ON CONFLICT DO UPDATE: ts is the stored row, ex the inserted one. */
  function Merge(ts: Row, ex: Row): Row {
    Row(
      if FromSwarm(ex.source) || ts.idx == -1 || Weak(ts.source) then ex.idx else ts.idx,
      if FromSwarm(ex.source) || ts.size == -1 || Weak(ts.source) then ex.size else ts.size,
      if Unset(ts.sid) then ex.sid else ts.sid,
      if ts.asid == "" then ex.asid else ts.asid,
      if (!FromSwarm(ex.source) && FromSwarm(ts.source)) || (ex.source == "mfn" && ts.source != "mfn") || ex.source == ""
      then ts.source else ex.source,
      if ts.vhash == "" then ex.vhash else ts.vhash)
  }

  /** Authority of a source. */
  function Rank(source: string): nat {
    if FromSwarm(source) then 2 else if Weak(source) then 0 else 1
  }

  /** What no writer may undo while the row exists. */
  predicate Keeps(r: Row, s: Row) {
    && (!Unset(r.sid) ==> s.sid == r.sid)
    && (r.asid != "" ==> s.asid == r.asid)
    && (r.vhash != "" ==> s.vhash == r.vhash)
    && Rank(r.source) <= Rank(s.source)
  }

  lemma MergeKeeps(ts: Row, ex: Row)
    ensures Keeps(ts, Merge(ts, ex))
  {
  }

  /** Inserting the same row again changes nothing. */
  lemma MergeTwice(ts: Row, ex: Row)
    ensures Merge(Merge(ts, ex), ex) == Merge(ts, ex)
  {
  }

  // ---------- a row's whole history of inserts ----------

  /** The row after it was inserted with hs[0] and then met the other inserts in order. */
  function After(hs: seq<Row>): Row
    requires hs != []
  {
    if |hs| == 1 then hs[0] else Merge(After(hs[..|hs| - 1]), hs[|hs| - 1])
  }

  lemma {:induction false} AfterSnoc(hs: seq<Row>, r: Row)
    ensures After(hs + [r]) == if hs == [] then r else Merge(After(hs), r)
  {
    assert (hs + [r])[..|hs|] == hs;
  }

  predicate IsSwarm(r: Row) { FromSwarm(r.source) }
  predicate IsPlain(r: Row) { Rank(r.source) == 1 }
  predicate HasSid(r: Row) { !Unset(r.sid) }
  predicate HasAsid(r: Row) { r.asid != "" }
  predicate HasVhash(r: Row) { r.vhash != "" }

  /** The source is that of the latest dht/tor insert; without one, of the latest other insert that is
      not weak; without one, of the first insert. */
  lemma {:induction false} SourceOfHistory(hs: seq<Row>)
    requires hs != []
    ensures var swarm, plain := Last(hs, IsSwarm), Last(hs, IsPlain);
            After(hs).source == if swarm.Some? then hs[swarm.value].source
                                else if plain.Some? then hs[plain.value].source
                                else hs[0].source
  {
    if |hs| > 1 {
      SourceOfHistory(hs[..|hs| - 1]);
    }
  }

  /** The ids and the video hash are those of the first insert that has one. */
  lemma {:induction false} IdsOfHistory(hs: seq<Row>)
    requires hs != []
    ensures var sid, asid, vhash := First(hs, HasSid), First(hs, HasAsid), First(hs, HasVhash);
            && After(hs).sid == hs[if sid.Some? then sid.value else |hs| - 1].sid
            && After(hs).asid == (if asid.Some? then hs[asid.value].asid else "")
            && After(hs).vhash == (if vhash.Some? then hs[vhash.value].vhash else "")
  {
    if |hs| > 1 {
      IdsOfHistory(hs[..|hs| - 1]);
    }
  }

  function Sizes(rs: seq<Row>): (r: seq<int>)
    ensures |r| == |rs| && forall i :: 0 <= i < |rs| ==> r[i] == rs[i].size
  {
    seq(|rs|, i requires 0 <= i < |rs| => rs[i].size)
  }

  function Indexes(rs: seq<Row>): (r: seq<int>)
    ensures |r| == |rs| && forall i :: 0 <= i < |rs| ==> r[i] == rs[i].idx
  {
    seq(|rs|, i requires 0 <= i < |rs| => rs[i].idx)
  }

  predicate Known(v: int) { v != -1 }

  /** The first value that is known, -1 when none is. */
  function FirstKnown(vs: seq<int>): int {
    if First(vs, Known).Some? then vs[First(vs, Known).value] else -1
  }

  /** The insert that settles index and size: the latest dht/tor one; without any, the first that is not
      weak; without any, the latest. */
  function Base(hs: seq<Row>): (i: nat)
    requires hs != []
    ensures i < |hs|
  {
    if Last(hs, IsSwarm).Some? then Last(hs, IsSwarm).value
    else if First(hs, IsPlain).Some? then First(hs, IsPlain).value
    else |hs| - 1
  }

  lemma {:induction false} BaseOfPrefix(hs: seq<Row>)
    requires |hs| > 1
    ensures var n := |hs| - 1;
            if IsSwarm(hs[n]) || Weak(After(hs[..n]).source) then Base(hs) == n
            else Base(hs) == Base(hs[..n])
  {
    SourceOfHistory(hs[..|hs| - 1]);
  }

  lemma SinceBase(hs: seq<Row>)
    requires |hs| > 1
    ensures var n := |hs| - 1;
            if IsSwarm(hs[n]) || Weak(After(hs[..n]).source) then hs[Base(hs)..] == [hs[n]]
            else hs[Base(hs)..] == hs[..n][Base(hs[..n])..] + [hs[n]]
  {
    BaseOfPrefix(hs);
  }

  lemma {:induction false} FirstKnownSnoc(rs: seq<Row>, r: Row)
    ensures FirstKnown(Sizes(rs + [r])) == if FirstKnown(Sizes(rs)) != -1 then FirstKnown(Sizes(rs)) else r.size
    ensures FirstKnown(Indexes(rs + [r])) == if FirstKnown(Indexes(rs)) != -1 then FirstKnown(Indexes(rs)) else r.idx
  {
    assert Sizes(rs + [r])[..|rs|] == Sizes(rs) && Indexes(rs + [r])[..|rs|] == Indexes(rs);
  }

  /** The row has the first known size and the first known index of the inserts from the settling one on. */
  lemma {:induction false} SizeAndIndexOfHistory(hs: seq<Row>)
    requires hs != []
    ensures After(hs).size == FirstKnown(Sizes(hs[Base(hs)..])) && After(hs).idx == FirstKnown(Indexes(hs[Base(hs)..]))
  {
    var n := |hs| - 1;
    FirstKnownSnoc([], hs[n]);
    assert [] + [hs[n]] == [hs[n]];
    if n > 0 {
      SizeAndIndexOfHistory(hs[..n]);
      SinceBase(hs);
      FirstKnownSnoc(hs[..n][Base(hs[..n])..], hs[n]);
    } else {
      assert hs[0..] == [hs[0]];
    }
  }

  /** Inserts that discard the index of every source but dht and tor. */
  predicate Discarding(hs: seq<Row>) {
    forall i :: 0 <= i < |hs| && !FromSwarm(hs[i].source) ==> hs[i].idx == -1
  }

  /** With discarded indexes the row's index is that of the latest dht/tor insert, and unknown without one. */
  lemma {:induction false} IndexOfHistory(hs: seq<Row>)
    requires hs != [] && Discarding(hs)
    ensures var swarm := Last(hs, IsSwarm);
            After(hs).idx == if swarm.Some? then hs[swarm.value].idx else -1
    ensures After(hs).idx != -1 ==> FromSwarm(After(hs).source)
  {
    SourceOfHistory(hs);
    if |hs| > 1 {
      IndexOfHistory(hs[..|hs| - 1]);
      SourceOfHistory(hs[..|hs| - 1]);
    }
  }

  /** Whatever inserts follow, a row keeps what it must and its rank does not fall. */
  lemma {:induction false} HistoryKeeps(hs: seq<Row>, n: nat)
    requires 0 < n <= |hs|
    ensures Keeps(After(hs[..n]), After(hs))
  {
    if n < |hs| {
      HistoryKeeps(hs[..|hs| - 1], n);
      assert hs[..|hs| - 1][..n] == hs[..n];
      MergeKeeps(After(hs[..|hs| - 1]), hs[|hs| - 1]);
    } else {
      assert hs[..n] == hs;
    }
  }

  // ---------- the writers ----------

  /** The row an item is inserted with. */
  function Prepared(item: Item, discardIdx: bool): Row {
    item.row.(idx := if discardIdx && !FromSwarm(item.row.source) then -1 else item.row.idx,
              sid := if item.row.sid == "" then "*" else item.row.sid)
  }

  /** A multi-row insert: rows with pairwise different keys. */
  datatype Lists = Lists(keys: seq<Key>, rows: seq<Row>)

  type Batch = b: Lists | |b.keys| == |b.rows| witness Lists([], [])

  function Insert(t: Table, b: Batch): Table
    decreases |b.keys|
  {
    if b.keys == [] then t
    else
      var n := |b.keys| - 1;
      var u := Insert(t, Lists(b.keys[..n], b.rows[..n]));
      var k := b.keys[n];
      u[k := if k in u then Merge(u[k], b.rows[n]) else b.rows[n]]
  }

  /** The rows a batch holds for one key. */
  function RowsFor(b: Batch, k: Key): seq<Row>
    decreases |b.keys|
  {
    if b.keys == [] then []
    else
      var n := |b.keys| - 1;
      RowsFor(Lists(b.keys[..n], b.rows[..n]), k) + (if b.keys[n] == k then [b.rows[n]] else [])
  }

  /** hs is everything inserted so far under k. */
  ghost predicate HasHistory(t: Table, k: Key, hs: seq<Row>) {
    (k in t <==> hs != []) && (k in t ==> t[k] == After(hs))
  }

  /** The table holds, under each key, the row its history of inserts gives: what is proved about
      After holds for the table after any sequence of inserts. */
  lemma {:induction false} InsertExtendsHistory(t: Table, b: Batch, k: Key, hs: seq<Row>)
    requires HasHistory(t, k, hs)
    ensures HasHistory(Insert(t, b), k, hs + RowsFor(b, k))
    decreases |b.keys|
  {
    if b.keys == [] {
      assert hs + RowsFor(b, k) == hs;
    } else {
      var n := |b.keys| - 1;
      var c := Lists(b.keys[..n], b.rows[..n]);
      InsertExtendsHistory(t, c, k, hs);
      var hs' := hs + RowsFor(c, k);
      if b.keys[n] == k {
        assert hs + RowsFor(b, k) == hs' + [b.rows[n]];
        AfterSnoc(hs', b.rows[n]);
      } else {
        assert hs + RowsFor(b, k) == hs';
      }
    }
  }

  function SeenKey(item: Item): string {
    item.hash + ":" + item.path
  }

  /** Whether item n of the chunk is the first rooted one with its key. */
  predicate Taken(items: seq<Item>, n: nat)
    requires n < |items|
  {
    && Rooted(items[n].path)
    && forall m :: 0 <= m < n && Rooted(items[m].path) ==> SeenKey(items[m]) != SeenKey(items[n])
  }

  /** The rows a chunk puts into its statement, and the number of placeholder groups it writes. */
  function ChunkBatch(items: seq<Item>, discardIdx: bool): (b: Batch) {
    if items == [] then Lists([], [])
    else
      var n := |items| - 1;
      var b := ChunkBatch(items[..n], discardIdx);
      if Taken(items, n) then
        Lists(b.keys + [Key(items[n].hash, items[n].path)], b.rows + [Prepared(items[n], discardIdx)])
      else b
  }

  function Placeholders(items: seq<Item>): int {
    if items == [] then 0
    else
      var n := |items| - 1;
      Placeholders(items[..n]) + (if Rooted(items[n].path) && !Taken(items, n) then 0 else 1)
  }

  /** The statement has an argument for every placeholder exactly when every path of the chunk is rooted:
      an item without a leading slash is skipped but still counted. */
  lemma {:induction false} ArgumentsFit(items: seq<Item>, discardIdx: bool)
    ensures |ChunkBatch(items, discardIdx).rows| <= Placeholders(items)
    ensures |ChunkBatch(items, discardIdx).rows| == Placeholders(items)
            <==> forall i :: 0 <= i < |items| ==> Rooted(items[i].path)
  {
    if items != [] {
      ArgumentsFit(items[..|items| - 1], discardIdx);
    }
  }

  lemma {:induction false} KeysComeFromItems(items: seq<Item>, discardIdx: bool, k: Key)
    requires k in ChunkBatch(items, discardIdx).keys
    ensures exists i :: 0 <= i < |items| && Taken(items, i) && k == Key(items[i].hash, items[i].path)
  {
    var n := |items| - 1;
    if k in ChunkBatch(items[..n], discardIdx).keys {
      KeysComeFromItems(items[..n], discardIdx, k);
      var i :| 0 <= i < n && Taken(items[..n], i) && k == Key(items[..n][i].hash, items[..n][i].path);
      TakenInPrefix(items, n, i);
    } else {
      assert Taken(items, n);
    }
  }

  lemma TakenInPrefix(items: seq<Item>, n: nat, i: nat)
    requires i < n <= |items|
    ensures Taken(items[..n], i) <==> Taken(items, i)
  {
    forall m | 0 <= m < i ensures items[..n][m] == items[m] { }
  }

  lemma {:induction false} KeyInStatement(items: seq<Item>, discardIdx: bool)
    requires items != []
    ensures var n := |items| - 1;
            Key(items[n].hash, items[n].path) in ChunkBatch(items[..n], discardIdx).keys ==> !Taken(items, n)
  {
    var n := |items| - 1;
    var k := Key(items[n].hash, items[n].path);
    if k in ChunkBatch(items[..n], discardIdx).keys {
      KeysComeFromItems(items[..n], discardIdx, k);
      var i :| 0 <= i < n && Taken(items[..n], i) && k == Key(items[..n][i].hash, items[..n][i].path);
      assert SeenKey(items[i]) == SeenKey(items[n]) && Rooted(items[i].path);
    }
  }

  ghost predicate Distinct(keys: seq<Key>) {
    forall i, j :: 0 <= i < j < |keys| ==> keys[i] != keys[j]
  }

  /** No conflict key occurs twice in a statement. */
  lemma {:induction false} KeysDiffer(items: seq<Item>, discardIdx: bool)
    ensures Distinct(ChunkBatch(items, discardIdx).keys)
  {
    if items != [] {
      KeysDiffer(items[..|items| - 1], discardIdx);
      KeyInStatement(items, discardIdx);
    }
  }

  /** With hashes free of ":" no rooted file is lost: its key is in the statement. */
  lemma {:induction false} NoFileIsLost(items: seq<Item>, discardIdx: bool, i: nat)
    requires i < |items| && Rooted(items[i].path)
    requires forall m :: 0 <= m < |items| ==> ':' !in items[m].hash
    ensures Key(items[i].hash, items[i].path) in ChunkBatch(items, discardIdx).keys
  {
    var n := |items| - 1;
    if i < n {
      NoFileIsLost(items[..n], discardIdx, i);
    } else if !Taken(items, n) {
      var m :| 0 <= m < n && Rooted(items[m].path) && SeenKey(items[m]) == SeenKey(items[n]);
      SeenKeyInjective(items[m], items[n]);
      NoFileIsLost(items[..n], discardIdx, m);
    }
  }

  lemma SeenKeyInjective(a: Item, b: Item)
    requires ':' !in a.hash && ':' !in b.hash && SeenKey(a) == SeenKey(b)
    ensures a.hash == b.hash && a.path == b.path
  {
    CutAtChar(a.hash, ':', a.path);
    CutAtChar(b.hash, ':', b.path);
  }

  /** A chunk whose arguments do not fit its placeholders fails as a whole. */
  function RecordChunk(t: Table, items: seq<Item>, discardIdx: bool): Table {
    var b := ChunkBatch(items, discardIdx);
    if |b.rows| == Placeholders(items) then Insert(t, b) else t
  }

  const CHUNK := 150

  function Record(t: Table, items: seq<Item>, discardIdx: bool): Table
    decreases |items|
  {
    if items == [] then t
    else if |items| <= CHUNK then RecordChunk(t, items, discardIdx)
    else Record(RecordChunk(t, items[..CHUNK], discardIdx), items[CHUNK..], discardIdx)
  }

  lemma {:induction false} InsertedKeys(t: Table, b: Batch, k: Key)
    ensures k in Insert(t, b) <==> k in t || k in b.keys
    decreases |b.keys|
  {
    if b.keys != [] {
      var n := |b.keys| - 1;
      InsertedKeys(t, Lists(b.keys[..n], b.rows[..n]), k);
      assert b.keys == b.keys[..n] + [b.keys[n]];
    }
  }

  lemma {:induction false} RootedChunkIsStored(t: Table, items: seq<Item>, discardIdx: bool, i: nat)
    requires i < |items| && forall j :: 0 <= j < |items| ==> Rooted(items[j].path) && ':' !in items[j].hash
    ensures Key(items[i].hash, items[i].path) in RecordChunk(t, items, discardIdx)
  {
    ArgumentsFit(items, discardIdx);
    NoFileIsLost(items, discardIdx, i);
    InsertedKeys(t, ChunkBatch(items, discardIdx), Key(items[i].hash, items[i].path));
  }

  /** When every path is rooted and no hash has a ":", every file handed to Record has a row afterwards:
      no chunk fails and no file is taken for another. */
  lemma {:induction false} RootedIsStored(t: Table, items: seq<Item>, discardIdx: bool, i: nat)
    requires i < |items| && forall j :: 0 <= j < |items| ==> Rooted(items[j].path) && ':' !in items[j].hash
    ensures Key(items[i].hash, items[i].path) in Record(t, items, discardIdx)
    decreases |items|
  {
    if |items| <= CHUNK {
      RootedChunkIsStored(t, items, discardIdx, i);
    } else {
      var u := RecordChunk(t, items[..CHUNK], discardIdx);
      if i < CHUNK {
        RootedChunkIsStored(t, items[..CHUNK], discardIdx, i);
        RecordKeeps(u, items[CHUNK..], discardIdx);
      } else {
        RootedIsStored(u, items[CHUNK..], discardIdx, i - CHUNK);
      }
    }
  }

  /** A file as TrackFiles gets it from a store. */
  datatype Tracked = Tracked(path: string, isVideo: bool, row: Row)

  predicate HasVideo(fs: seq<Tracked>) {
    exists i :: 0 <= i < |fs| && fs[i].isVideo
  }

  /** The files of a hash that are handed to Record: those with a real path, and none at all when the store
      is Premiumize and none of them is a video. */
  function ItemsOf(hash: string, fs: seq<Tracked>): seq<Item> {
    if fs == [] then []
    else
      var f := fs[|fs| - 1];
      ItemsOf(hash, fs[..|fs| - 1]) + if Rooted(f.path) then [Item(hash, f.path, f.row)] else []
  }

  function TrackedItems(files: map<string, seq<Tracked>>, order: seq<string>, premiumize: bool): seq<Item>
    requires forall h :: h in order ==> h in files
  {
    if order == [] then []
    else
      var h := order[|order| - 1];
      TrackedItems(files, order[..|order| - 1], premiumize)
      + if premiumize && !HasVideo(files[h]) then [] else ItemsOf(h, files[h])
  }

  lemma {:induction false} ItemsOfAre(hash: string, fs: seq<Tracked>)
    ensures forall x :: x in ItemsOf(hash, fs) ==> Rooted(x.path) && x.hash == hash
    ensures forall f :: f in fs && Rooted(f.path) ==> Item(hash, f.path, f.row) in ItemsOf(hash, fs)
  {
    if fs != [] {
      ItemsOfAre(hash, fs[..|fs| - 1]);
      assert fs == fs[..|fs| - 1] + [fs[|fs| - 1]];
    }
  }

  lemma {:induction false} TrackedItemsAre(files: map<string, seq<Tracked>>, order: seq<string>, premiumize: bool)
    requires forall h :: h in order ==> h in files
    ensures forall x :: x in TrackedItems(files, order, premiumize) ==> Rooted(x.path) && x.hash in order
    ensures forall h :: h in order && !(premiumize && !HasVideo(files[h])) ==>
              forall x :: x in ItemsOf(h, files[h]) ==> x in TrackedItems(files, order, premiumize)
  {
    if order != [] {
      var h := order[|order| - 1];
      TrackedItemsAre(files, order[..|order| - 1], premiumize);
      ItemsOfAre(h, files[h]);
      assert order == order[..|order| - 1] + [h];
    }
  }

  /** Every file TrackFiles hands on has a row afterwards, whatever order the hashes are walked in. */
  lemma {:induction false} TrackedIsStored(t: Table, files: map<string, seq<Tracked>>, order: seq<string>,
                                           premiumize: bool, discardIdx: bool, h: string, f: Tracked)
    requires Enumerates(order, files.Keys) && forall g :: g in files ==> ':' !in g
    requires h in files && f in files[h] && Rooted(f.path) && !(premiumize && !HasVideo(files[h]))
    ensures Key(h, f.path) in Record(t, TrackedItems(files, order, premiumize), discardIdx)
  {
    var items := TrackedItems(files, order, premiumize);
    TrackedItemsAre(files, order, premiumize);
    ItemsOfAre(h, files[h]);
    var x := Item(h, f.path, f.row);
    assert x in ItemsOf(h, files[h]) && x in items;
    forall j | 0 <= j < |items| ensures Rooted(items[j].path) && ':' !in items[j].hash {
      assert items[j] in items;
    }
    var i :| 0 <= i < |items| && items[i] == x;
    RootedIsStored(t, items, discardIdx, i);
  }

  /** A file of a hash as the cleanup sees it. */
  datatype File = File(path: string, sid: string, asid: string)

  /** The writers of the table. Cleanup migrates the ids of files whose path is only a name to the rows
      that `like` says end in that name, and then, unless a statement failed, deletes the name rows. */
  datatype Write =
    | WriteRecord(items: seq<Item>, discardIdx: bool)
    | TagStremId(hash: string, path: string, sid: string)
    | TagAnimeStremId(hash: string, path: string, asid: string)
    | Cleanup(hash: string, files: seq<File>, like: (string, string) -> bool, deletes: bool)

  function SetSid(t: Table, hash: string, matches: string -> bool, sid: string): Table {
    map k | k in t :: if k.hash == hash && matches(k.path) && Unset(t[k].sid) then t[k].(sid := sid) else t[k]
  }

  function SetAsid(t: Table, hash: string, matches: string -> bool, asid: string): Table {
    map k | k in t :: if k.hash == hash && matches(k.path) && t[k].asid == "" then t[k].(asid := asid) else t[k]
  }

  function Migrate(t: Table, hash: string, f: File, like: (string, string) -> bool): Table {
    if Rooted(f.path) || f.path == "" then t
    else
      var u := if !Unset(f.sid) then SetSid(t, hash, p => like(p, f.path), f.sid) else t;
      if f.asid != "" then SetAsid(u, hash, p => like(p, f.path), f.asid) else u
  }

  function MigrateAll(t: Table, hash: string, fs: seq<File>, like: (string, string) -> bool): Table {
    if fs == [] then t else Migrate(MigrateAll(t, hash, fs[..|fs| - 1], like), hash, fs[|fs| - 1], like)
  }

  predicate HasRooted(t: Table, hash: string) {
    exists k :: k in t && k.hash == hash && Rooted(k.path)
  }

  ghost predicate HasHash(t: Table, hash: string) {
    exists k :: k in t && k.hash == hash
  }

  /** The delete applies only while the hash has a row with a real path. */
  function DeleteNames(t: Table, hash: string): Table {
    if HasRooted(t, hash) then map k | k in t && (k.hash != hash || Rooted(k.path)) :: t[k] else t
  }

  function Apply(t: Table, w: Write): Table {
    match w
    case WriteRecord(items, discardIdx) => Record(t, items, discardIdx)
    case TagStremId(hash, path, sid) =>
      if path == "" || !("tt" <= sid) then t else SetSid(t, hash, p => p == path, sid)
    case TagAnimeStremId(hash, path, asid) =>
      if path == "" then t else SetAsid(t, hash, p => p == path, asid)
    case Cleanup(hash, files, like, deletes) =>
      var u := MigrateAll(t, hash, files, like);
      if deletes then DeleteNames(u, hash) else u
  }

  /** Every row of t that is still in u has kept what it must. */
  ghost predicate TableKeeps(t: Table, u: Table) {
    forall k :: k in t && k in u ==> Keeps(t[k], u[k])
  }

  lemma {:induction false} InsertKeeps(t: Table, b: Batch)
    ensures TableKeeps(t, Insert(t, b)) && t.Keys <= Insert(t, b).Keys
    decreases |b.keys|
  {
    if b.keys != [] {
      var n := |b.keys| - 1;
      var c := Lists(b.keys[..n], b.rows[..n]);
      InsertKeeps(t, c);
      if b.keys[n] in Insert(t, c) {
        MergeKeeps(Insert(t, c)[b.keys[n]], b.rows[n]);
      }
    }
  }

  lemma {:induction false} RecordKeeps(t: Table, items: seq<Item>, discardIdx: bool)
    ensures TableKeeps(t, Record(t, items, discardIdx)) && t.Keys <= Record(t, items, discardIdx).Keys
    decreases |items|
  {
    if items != [] {
      var head := if |items| <= CHUNK then items else items[..CHUNK];
      InsertKeeps(t, ChunkBatch(head, discardIdx));
      if |items| > CHUNK {
        RecordKeeps(RecordChunk(t, head, discardIdx), items[CHUNK..], discardIdx);
      }
    }
  }

  lemma SetKeeps(t: Table, hash: string, matches: string -> bool, id: string)
    ensures !Unset(id) ==> TableKeeps(t, SetSid(t, hash, matches, id))
    ensures TableKeeps(t, SetAsid(t, hash, matches, id))
    ensures SetSid(t, hash, matches, id).Keys == t.Keys == SetAsid(t, hash, matches, id).Keys
  {
  }

  lemma MigrateKeeps(t: Table, hash: string, f: File, like: (string, string) -> bool)
    ensures TableKeeps(t, Migrate(t, hash, f, like)) && t.Keys == Migrate(t, hash, f, like).Keys
  {
    var matches := p => like(p, f.path);
    var u := if !Unset(f.sid) then SetSid(t, hash, matches, f.sid) else t;
    SetKeeps(t, hash, matches, f.sid);
    SetKeeps(u, hash, matches, f.asid);
  }

  lemma {:induction false} MigrateAllKeeps(t: Table, hash: string, fs: seq<File>, like: (string, string) -> bool)
    ensures TableKeeps(t, MigrateAll(t, hash, fs, like)) && t.Keys == MigrateAll(t, hash, fs, like).Keys
  {
    if fs != [] {
      var u := MigrateAll(t, hash, fs[..|fs| - 1], like);
      MigrateAllKeeps(t, hash, fs[..|fs| - 1], like);
      MigrateKeeps(u, hash, fs[|fs| - 1], like);
    }
  }

  /** One write, by any writer. */
  lemma {:induction false} WriteKeeps(t: Table, w: Write)
    ensures TableKeeps(t, Apply(t, w))
    ensures !w.Cleanup? ==> t.Keys <= Apply(t, w).Keys
  {
    match w
    case WriteRecord(items, discardIdx) => RecordKeeps(t, items, discardIdx);
    case TagStremId(hash, path, sid) =>
    case TagAnimeStremId(hash, path, asid) =>
    case Cleanup(hash, files, like, deletes) => MigrateAllKeeps(t, hash, files, like);
  }

  lemma DeleteSparesHashes(t: Table, hash: string)
    ensures var u := DeleteNames(t, hash);
            && (forall k :: k in u ==> k in t)
            && (forall k :: k in t && k !in u ==> k.hash == hash && !Rooted(k.path))
            && (forall h :: HasHash(t, h) ==> HasHash(u, h))
  {
    var u := DeleteNames(t, hash);
    forall h | HasHash(t, h) ensures HasHash(u, h) {
      var k :| k in t && k.hash == h;
      if k !in u {
        var l :| l in t && l.hash == hash && Rooted(l.path);
        assert l in u;
      }
    }
  }

  /** Cleanup leaves other hashes alone, deletes only name rows, and never the last row of a hash. */
  lemma CleanupSparesHashes(t: Table, hash: string, files: seq<File>, like: (string, string) -> bool, deletes: bool)
    ensures var u := Apply(t, Cleanup(hash, files, like, deletes));
            && (forall k :: k in u ==> k in t)
            && (forall k :: k in t && k !in u ==> k.hash == hash && !Rooted(k.path))
            && (forall h :: HasHash(t, h) ==> HasHash(u, h))
  {
    var m := MigrateAll(t, hash, files, like);
    MigrateAllKeeps(t, hash, files, like);
    assert forall k :: k in t <==> k in m;
    forall h | HasHash(t, h) ensures HasHash(m, h) {
      var k :| k in t && k.hash == h;
      assert k in m;
    }
    DeleteSparesHashes(m, hash);
  }

  /** The tables a run of writes goes through. */
  function Tables(t: Table, ws: seq<Write>): (r: seq<Table>)
    ensures |r| == |ws| + 1
  {
    if ws == [] then [t]
    else
      var r := Tables(t, ws[..|ws| - 1]);
      r + [Apply(r[|ws| - 1], ws[|ws| - 1])]
  }

  /** Over every history of writes by every writer, as long as a row exists: its sid once set, its asid
      and its video hash once non-empty never change, and the rank of its source never falls. */
  lemma {:induction false} RunKeeps(t: Table, ws: seq<Write>, k: Key, i: nat)
    requires i <= |ws| && forall j :: i <= j <= |ws| ==> k in Tables(t, ws)[j]
    ensures Keeps(Tables(t, ws)[i][k], Tables(t, ws)[|ws|][k])
  {
    if i < |ws| {
      var n := |ws| - 1;
      assert forall j :: 0 <= j <= n ==> Tables(t, ws)[j] == Tables(t, ws[..n])[j];
      RunKeeps(t, ws[..n], k, i);
      WriteKeeps(Tables(t, ws)[n], ws[n]);
    }
  }

  // ---------- a row's history over a run ----------

  /** The rows one statement, or a whole call of Record, inserts under a key. */
  function ChunkRowsFor(items: seq<Item>, discardIdx: bool, k: Key): seq<Row> {
    var b := ChunkBatch(items, discardIdx);
    if |b.rows| == Placeholders(items) then RowsFor(b, k) else []
  }

  function RecordRowsFor(items: seq<Item>, discardIdx: bool, k: Key): seq<Row>
    decreases |items|
  {
    if items == [] then []
    else if |items| <= CHUNK then ChunkRowsFor(items, discardIdx, k)
    else ChunkRowsFor(items[..CHUNK], discardIdx, k) + RecordRowsFor(items[CHUNK..], discardIdx, k)
  }

  /** The row under k is the outcome of the inserts hs in index, size and source. */
  ghost predicate SettledBy(t: Table, k: Key, hs: seq<Row>) {
    && (k in t <==> hs != [])
    && (k in t ==> SameSettled(t[k], After(hs)))
  }

  predicate SameSettled(r: Row, s: Row) {
    r.idx == s.idx && r.size == s.size && r.source == s.source
  }

  lemma InsertOneSettles(t: Table, own: Key, row: Row, k: Key, hs: seq<Row>)
    requires SettledBy(t, k, hs)
    ensures SettledBy(t[own := if own in t then Merge(t[own], row) else row], k, if own == k then hs + [row] else hs)
  {
    AfterSnoc(hs, row);
  }

  lemma {:induction false} InsertSettles(t: Table, b: Batch, k: Key, hs: seq<Row>)
    requires SettledBy(t, k, hs)
    ensures SettledBy(Insert(t, b), k, hs + RowsFor(b, k))
    decreases |b.keys|
  {
    if b.keys == [] {
      JoinNone(hs);
    } else {
      var n := |b.keys| - 1;
      var c := Lists(b.keys[..n], b.rows[..n]);
      InsertSettles(t, c, k, hs);
      InsertOneSettles(Insert(t, c), b.keys[n], b.rows[n], k, hs + RowsFor(c, k));
      JoinAll(hs, RowsFor(c, k), [b.rows[n]]);
      JoinNone(RowsFor(c, k));
    }
  }

  lemma ChunkSettles(t: Table, items: seq<Item>, discardIdx: bool, k: Key, hs: seq<Row>)
    requires SettledBy(t, k, hs)
    ensures SettledBy(RecordChunk(t, items, discardIdx), k, hs + ChunkRowsFor(items, discardIdx, k))
  {
    InsertSettles(t, ChunkBatch(items, discardIdx), k, hs);
    assert hs + [] == hs;
  }

  lemma {:induction false} RecordSettles(t: Table, items: seq<Item>, discardIdx: bool, k: Key, hs: seq<Row>)
    requires SettledBy(t, k, hs)
    ensures SettledBy(Record(t, items, discardIdx), k, hs + RecordRowsFor(items, discardIdx, k))
    decreases |items|
  {
    if items == [] {
      JoinNone(hs);
    } else if |items| <= CHUNK {
      ChunkSettles(t, items, discardIdx, k, hs);
    } else {
      var more := ChunkRowsFor(items[..CHUNK], discardIdx, k);
      ChunkSettles(t, items[..CHUNK], discardIdx, k, hs);
      RecordSettles(RecordChunk(t, items[..CHUNK], discardIdx), items[CHUNK..], discardIdx, k, hs + more);
      JoinAll(hs, more, RecordRowsFor(items[CHUNK..], discardIdx, k));
    }
  }

  /** Everything inserted under k, by a run from the empty table, since the row was last deleted. */
  function Inserted(ws: seq<Write>, k: Key): seq<Row> {
    if ws == [] then []
    else
      var n := |ws| - 1;
      var hs := Inserted(ws[..n], k);
      match ws[n]
      case WriteRecord(items, discardIdx) => hs + RecordRowsFor(items, discardIdx, k)
      case Cleanup(_, _, _, _) => if k in Tables(map[], ws)[n + 1] then hs else []
      case _ => hs
  }

  lemma SetKeepsSettled(t: Table, hash: string, matches: string -> bool, id: string, k: Key, hs: seq<Row>)
    requires SettledBy(t, k, hs)
    ensures SettledBy(SetSid(t, hash, matches, id), k, hs) && SettledBy(SetAsid(t, hash, matches, id), k, hs)
  {
  }

  lemma MigrateSettled(t: Table, hash: string, f: File, like: (string, string) -> bool, k: Key, hs: seq<Row>)
    requires SettledBy(t, k, hs)
    ensures SettledBy(Migrate(t, hash, f, like), k, hs)
  {
    var matches := p => like(p, f.path);
    var u := if !Unset(f.sid) then SetSid(t, hash, matches, f.sid) else t;
    SetKeepsSettled(t, hash, matches, f.sid, k, hs);
    SetKeepsSettled(u, hash, matches, f.asid, k, hs);
  }

  lemma {:induction false} MigrateAllSettled(t: Table, hash: string, fs: seq<File>, like: (string, string) -> bool,
                                             k: Key, hs: seq<Row>)
    requires SettledBy(t, k, hs)
    ensures SettledBy(MigrateAll(t, hash, fs, like), k, hs)
  {
    if fs != [] {
      MigrateAllSettled(t, hash, fs[..|fs| - 1], like, k, hs);
      MigrateSettled(MigrateAll(t, hash, fs[..|fs| - 1], like), hash, fs[|fs| - 1], like, k, hs);
    }
  }

  lemma {:induction false} CleanupSettled(t: Table, w: Write, k: Key, hs: seq<Row>)
    requires w.Cleanup? && SettledBy(t, k, hs)
    ensures SettledBy(Apply(t, w), k, if k in Apply(t, w) then hs else [])
  {
    MigrateAllSettled(t, w.hash, w.files, w.like, k, hs);
  }

  /** After every run of all writers a row's index, size and source are those its own inserts give: tags and
      cleanup, however they are interleaved, do not touch them. */
  lemma {:induction false} RunSettles(ws: seq<Write>, k: Key)
    ensures SettledBy(Tables(map[], ws)[|ws|], k, Inserted(ws, k))
  {
    if ws != [] {
      var n := |ws| - 1;
      var t := Tables(map[], ws[..n])[n];
      RunSettles(ws[..n], k);
      match ws[n]
      case WriteRecord(items, discardIdx) => RecordSettles(t, items, discardIdx, k, Inserted(ws[..n], k));
      case TagStremId(hash, path, sid) => SetKeepsSettled(t, hash, p => p == path, sid, k, Inserted(ws[..n], k));
      case TagAnimeStremId(hash, path, asid) => SetKeepsSettled(t, hash, p => p == path, asid, k, Inserted(ws[..n], k));
      case Cleanup(_, _, _, _) => CleanupSettled(t, ws[n], k, Inserted(ws[..n], k));
    }
  }

  // ---------- discarded indexes over a run ----------

  lemma {:induction false} DiscardingRowsFor(b: Batch, k: Key)
    requires Discarding(b.rows)
    ensures Discarding(RowsFor(b, k))
    decreases |b.keys|
  {
    if b.keys != [] {
      var n := |b.keys| - 1;
      DiscardingRowsFor(Lists(b.keys[..n], b.rows[..n]), k);
    }
  }

  /** With discardIdx a statement holds no index from a source other than dht and tor. */
  lemma {:induction false} DiscardingChunk(items: seq<Item>)
    ensures Discarding(ChunkBatch(items, true).rows)
  {
    if items != [] { DiscardingChunk(items[..|items| - 1]); }
  }

  lemma {:induction false} DiscardingRecord(items: seq<Item>, k: Key)
    ensures Discarding(RecordRowsFor(items, true, k))
    decreases |items|
  {
    if items != [] {
      var head := if |items| <= CHUNK then items else items[..CHUNK];
      DiscardingChunk(head);
      DiscardingRowsFor(ChunkBatch(head, true), k);
      if |items| > CHUNK { DiscardingRecord(items[CHUNK..], k); }
    }
  }

  /** All calls of Record use discardIdx. */
  ghost predicate AllDiscard(ws: seq<Write>) {
    forall i :: 0 <= i < |ws| && ws[i].WriteRecord? ==> ws[i].discardIdx
  }

  lemma {:induction false} DiscardingRun(ws: seq<Write>, k: Key)
    requires AllDiscard(ws)
    ensures Discarding(Inserted(ws, k))
  {
    if ws != [] {
      var n := |ws| - 1;
      DiscardingRun(ws[..n], k);
      if ws[n].WriteRecord? { DiscardingRecord(ws[n].items, k); }
    }
  }

  /** Over every run of all writers in which every Record call discards indexes: a row's index is that of the
      latest dht/tor item inserted for it since it was last deleted, unknown without one, and a known index
      implies a dht/tor source. */
  lemma {:induction false} IndexOfRun(ws: seq<Write>, k: Key)
    requires AllDiscard(ws) && k in Tables(map[], ws)[|ws|]
    ensures var row, hs := Tables(map[], ws)[|ws|][k], Inserted(ws, k);
            && row.idx == (if Last(hs, IsSwarm).Some? then hs[Last(hs, IsSwarm).value].idx else -1)
            && (row.idx != -1 ==> FromSwarm(row.source))
  {
    RunSettles(ws, k);
    DiscardingRun(ws, k);
    IndexOfHistory(Inserted(ws, k));
  }

  // ---------- the imperative form ----------

  class Store {
    var rows: Table

    constructor ()
      ensures rows == map[]
    {
      rows := map[];
    }

    /** The statement of one chunk: placeholders for count rows, arguments for the given ones. */
    method Exec(count: int, b: Batch) returns (ok: bool)
      modifies this
      ensures ok == (|b.rows| == count)
      ensures rows == if ok then Insert(old(rows), b) else old(rows)
    {
      if |b.rows| != count { return false; }
      for i := 0 to |b.keys|
        invariant rows == Insert(old(rows), Lists(b.keys[..i], b.rows[..i]))
      {
        assert b.keys[..i + 1][..i] == b.keys[..i] && b.rows[..i + 1][..i] == b.rows[..i];
        var k := b.keys[i];
        rows := rows[k := if k in rows then Merge(rows[k], b.rows[i]) else b.rows[i]];
      }
      assert Lists(b.keys[..|b.keys|], b.rows[..|b.keys|]) == b;
      return true;
    }

    method RecordOneChunk(items: seq<Item>, discardIdx: bool) returns (ok: bool)
      modifies this
      ensures rows == RecordChunk(old(rows), items, discardIdx)
      ensures ok <==> forall i :: 0 <= i < |items| ==> Rooted(items[i].path)
    {
      var seen: set<string>, count := {}, |items|;
      var b := Lists([], []);
      for i := 0 to |items|
        invariant b == ChunkBatch(items[..i], discardIdx)
        invariant count == Placeholders(items[..i]) + |items| - i
        invariant forall k :: k in seen <==> exists m :: 0 <= m < i && Rooted(items[m].path) && SeenKey(items[m]) == k
        invariant rows == old(rows)
      {
        assert items[..i + 1][..i] == items[..i];
        TakenInPrefix(items, i + 1, i);
        var item := items[i];
        if !Rooted(item.path) { continue; }
        var key := SeenKey(item);
        if key !in seen {
          seen := seen + {key};
          b := Lists(b.keys + [Key(item.hash, item.path)], b.rows + [Prepared(item, discardIdx)]);
        } else {
          count := count - 1;
        }
      }
      assert items[..|items|] == items;
      ArgumentsFit(items, discardIdx);
      ok := Exec(count, b);
    }

    method RecordItems(items: seq<Item>, discardIdx: bool)
      modifies this
      ensures rows == Record(old(rows), items, discardIdx)
    {
      var left := items;
      while left != []
        invariant Record(old(rows), items, discardIdx) == Record(rows, left, discardIdx)
        decreases |left|
      {
        var n := if |left| <= CHUNK then |left| else CHUNK;
        assert left[..|left|] == left;
        var _ := RecordOneChunk(left[..n], discardIdx);
        left := left[n..];
      }
    }

    /** TrackFiles: the hashes are walked in an order of Go's choosing; only Real-Debrid's indexes are kept. */
    method TrackFiles(files: map<string, seq<Tracked>>, premiumize: bool, realDebrid: bool)
      modifies this
      ensures exists order :: Enumerates(order, files.Keys)
                              && rows == Record(old(rows), TrackedItems(files, order, premiumize), !realDebrid)
    {
      var items: seq<Item> := [];
      ghost var order := [];
      var left, done := files.Keys, {};
      while left != {}
        invariant done + left == files.Keys && done !! left && Enumerates(order, done)
        invariant items == TrackedItems(files, order, premiumize) && rows == old(rows)
        decreases left
      {
        var h :| h in left;
        EnumeratesSnoc(order, done, h);
        assert (order + [h])[..|order|] == order;
        if !(premiumize && !HasVideo(files[h])) {
          var more := RootedFiles(h, files[h]);
          items := items + more;
        }
        left, done, order := left - {h}, done + {h}, order + [h];
      }
      assert done == files.Keys;
      RecordItems(items, !realDebrid);
    }

    method RootedFiles(hash: string, fs: seq<Tracked>) returns (items: seq<Item>)
      ensures items == ItemsOf(hash, fs)
    {
      items := [];
      for i := 0 to |fs|
        invariant items == ItemsOf(hash, fs[..i])
      {
        assert fs[..i + 1][..i] == fs[..i];
        if !Rooted(fs[i].path) { continue; }
        items := items + [Item(hash, fs[i].path, fs[i].row)];
      }
      assert fs[..|fs|] == fs;
    }
  }
}
