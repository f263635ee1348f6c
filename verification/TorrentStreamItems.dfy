/** The torrent_stream table in terms of what its writers are given: the columns of the items passed to Record, the
    ids of tags and of migrated files (internal/torrent_stream/db.go). */
module TorrentStreamItems {
  import opened Options
  import opened Histories
  import opened TorrentStream

  // ---------- one item ----------

  /** The row an item is inserted with: its own columns, but "*" for a missing sid, and no index when indexes are
      discarded and it does not come from dht or tor. */
  predicate StoredAs(row: Row, x: Item, discardIdx: bool) {
    && row.size == x.row.size && row.asid == x.row.asid && row.source == x.row.source && row.vhash == x.row.vhash
    && row.sid == (if x.row.sid == "" then "*" else x.row.sid)
    && row.idx == (if discardIdx && x.row.source != "dht" && x.row.source != "tor" then -1 else x.row.idx)
  }

  /** The item a chunk inserts under a key: the first of its seen key. */
  function FirstWith(items: seq<Item>, k: Key): seq<Item> {
    if items == [] then []
    else
      var n := |items| - 1;
      FirstWith(items[..n], k) + if Taken(items, n) && Key(items[n].hash, items[n].path) == k then [items[n]] else []
  }

  lemma {:induction false} TakenIsFirstWith(items: seq<Item>, i: nat)
    requires i < |items| && Taken(items, i)
    ensures FirstWith(items, Key(items[i].hash, items[i].path)) == [items[i]]
  {
    var n, k := |items| - 1, Key(items[i].hash, items[i].path);
    if i < n {
      TakenInPrefix(items, n, i);
      TakenIsFirstWith(items[..n], i);
      if Taken(items, n) { assert SeenKey(items[i]) != SeenKey(items[n]); }
    } else {
      NoneWith(items[..n], items[n]);
    }
  }

  lemma {:induction false} NoneWith(items: seq<Item>, x: Item)
    requires forall m :: 0 <= m < |items| && Rooted(items[m].path) ==> SeenKey(items[m]) != SeenKey(x)
    ensures FirstWith(items, Key(x.hash, x.path)) == []
  {
    if items != [] {
      var n := |items| - 1;
      NoneWith(items[..n], x);
      if Taken(items, n) { assert SeenKey(items[n]) != SeenKey(x); }
    }
  }

  /** The rows are the items, as they are stored. */
  ghost predicate AreStored(rows: seq<Row>, items: seq<Item>, discardIdx: bool) {
    |rows| == |items| && forall n :: 0 <= n < |rows| ==> StoredAs(rows[n], items[n], discardIdx)
  }

  lemma {:induction false} RowsAreItems(items: seq<Item>, discardIdx: bool, k: Key)
    ensures AreStored(RowsFor(ChunkBatch(items, discardIdx), k), FirstWith(items, k), discardIdx)
  {
    if items != [] {
      var n := |items| - 1;
      var b, c := ChunkBatch(items, discardIdx), ChunkBatch(items[..n], discardIdx);
      RowsAreItems(items[..n], discardIdx, k);
      if Taken(items, n) {
        assert b.keys[..|b.keys| - 1] == c.keys && b.rows[..|b.keys| - 1] == c.rows;
      }
    }
  }

  // ---------- a call of Record ----------

  /** A chunk with a path that is not rooted inserts nothing at all. */
  function ChunkInserts(items: seq<Item>, k: Key): seq<Item> {
    if exists i :: 0 <= i < |items| && !Rooted(items[i].path) then [] else FirstWith(items, k)
  }

  function RecordInserts(items: seq<Item>, k: Key): seq<Item>
    decreases |items|
  {
    if items == [] then []
    else if |items| <= 150 then ChunkInserts(items, k)
    else ChunkInserts(items[..150], k) + RecordInserts(items[150..], k)
  }

  lemma {:induction false} ChunkStores(items: seq<Item>, discardIdx: bool, k: Key)
    ensures AreStored(ChunkRowsFor(items, discardIdx, k), ChunkInserts(items, k), discardIdx)
  {
    ArgumentsFit(items, discardIdx);
    RowsAreItems(items, discardIdx, k);
  }

  lemma {:induction false} RecordStores(items: seq<Item>, discardIdx: bool, k: Key)
    ensures AreStored(RecordRowsFor(items, discardIdx, k), RecordInserts(items, k), discardIdx)
    decreases |items|
  {
    if items != [] {
      ChunkStores(if |items| <= CHUNK then items else items[..CHUNK], discardIdx, k);
      if |items| > CHUNK { RecordStores(items[CHUNK..], discardIdx, k); }
    }
  }

  lemma ChunkExtendsHistory(t: Table, items: seq<Item>, discardIdx: bool, k: Key, hs: seq<Row>)
    requires HasHistory(t, k, hs)
    ensures HasHistory(RecordChunk(t, items, discardIdx), k, hs + ChunkRowsFor(items, discardIdx, k))
  {
    InsertExtendsHistory(t, ChunkBatch(items, discardIdx), k, hs);
    JoinNone(hs);
  }

  lemma {:induction false} RecordExtendsHistory(t: Table, items: seq<Item>, discardIdx: bool, k: Key, hs: seq<Row>)
    requires HasHistory(t, k, hs)
    ensures HasHistory(Record(t, items, discardIdx), k, hs + RecordRowsFor(items, discardIdx, k))
    decreases |items|
  {
    if items == [] {
      JoinNone(hs);
    } else if |items| <= CHUNK {
      ChunkExtendsHistory(t, items, discardIdx, k, hs);
    } else {
      var more := ChunkRowsFor(items[..CHUNK], discardIdx, k);
      ChunkExtendsHistory(t, items[..CHUNK], discardIdx, k, hs);
      RecordExtendsHistory(RecordChunk(t, items[..CHUNK], discardIdx), items[CHUNK..], discardIdx, k, hs + more);
      JoinAll(hs, more, RecordRowsFor(items[CHUNK..], discardIdx, k));
    }
  }

  /** The one item of a call that is inserted under a new key is what is stored there. */
  lemma {:induction false} NewRowIsItem(t: Table, items: seq<Item>, discardIdx: bool, k: Key, x: Item)
    requires k !in t && RecordInserts(items, k) == [x]
    ensures k in Record(t, items, discardIdx) && StoredAs(Record(t, items, discardIdx)[k], x, discardIdx)
  {
    RecordExtendsHistory(t, items, discardIdx, k, []);
    RecordStores(items, discardIdx, k);
    assert [] + RecordRowsFor(items, discardIdx, k) == RecordRowsFor(items, discardIdx, k);
  }

  lemma {:induction false} OnlyItemIsInserted(items: seq<Item>, i: nat)
    requires i < |items| && forall j :: 0 <= j < |items| ==> Rooted(items[j].path)
    requires forall j :: 0 <= j < |items| && j != i ==> SeenKey(items[j]) != SeenKey(items[i])
    ensures RecordInserts(items, Key(items[i].hash, items[i].path)) == [items[i]]
    decreases |items|
  {
    var k := Key(items[i].hash, items[i].path);
    if |items| <= CHUNK {
      TakenIsFirstWith(items, i);
    } else if i < CHUNK {
      TakenIsFirstWith(items[..CHUNK], i);
      NothingInserted(items[CHUNK..], items[i]);
    } else {
      NoneWith(items[..CHUNK], items[i]);
      OnlyItemIsInserted(items[CHUNK..], i - CHUNK);
    }
  }

  lemma {:induction false} NothingInserted(items: seq<Item>, x: Item)
    requires forall m :: 0 <= m < |items| ==> SeenKey(items[m]) != SeenKey(x)
    ensures RecordInserts(items, Key(x.hash, x.path)) == []
    decreases |items|
  {
    if items != [] {
      NoneWith(if |items| <= CHUNK then items else items[..CHUNK], x);
      if |items| > CHUNK { NothingInserted(items[CHUNK..], x); }
    }
  }

  /** When all paths are rooted, an item whose key is new to the table and to the call is stored with its own
      columns. */
  lemma {:induction false} NewItemIsStored(t: Table, items: seq<Item>, discardIdx: bool, i: nat)
    requires i < |items| && forall j :: 0 <= j < |items| ==> Rooted(items[j].path)
    requires forall j :: 0 <= j < |items| && j != i ==> SeenKey(items[j]) != SeenKey(items[i])
    requires Key(items[i].hash, items[i].path) !in t
    ensures var k, u := Key(items[i].hash, items[i].path), Record(t, items, discardIdx);
            k in u && StoredAs(u[k], items[i], discardIdx)
  {
    OnlyItemIsInserted(items, i);
    NewRowIsItem(t, items, discardIdx, Key(items[i].hash, items[i].path), items[i]);
  }

  /** Inside one statement the first item of a key is stored, whatever repeats it later. */
  lemma {:induction false} FirstItemIsStored(t: Table, items: seq<Item>, discardIdx: bool, i: nat)
    requires i < |items| <= CHUNK && forall j :: 0 <= j < |items| ==> Rooted(items[j].path)
    requires forall j :: 0 <= j < i ==> SeenKey(items[j]) != SeenKey(items[i])
    requires Key(items[i].hash, items[i].path) !in t
    ensures var k, u := Key(items[i].hash, items[i].path), Record(t, items, discardIdx);
            k in u && StoredAs(u[k], items[i], discardIdx)
  {
    TakenIsFirstWith(items, i);
    NewRowIsItem(t, items, discardIdx, Key(items[i].hash, items[i].path), items[i]);
  }

  // ---------- tracked files ----------

  lemma {:induction false} ItemsComeFromFiles(hash: string, fs: seq<Tracked>, x: Item)
    ensures x in ItemsOf(hash, fs)
            <==> x.hash == hash && x.path != "" && x.path[0] == '/'
                 && exists f :: f in fs && f.path == x.path && f.row == x.row
  {
    if fs != [] {
      var n := |fs| - 1;
      ItemsComeFromFiles(hash, fs[..n], x);
      assert fs == fs[..n] + [fs[n]];
      if f :| f in fs && f.path == x.path && f.row == x.row {
        assert f in fs[..n] || f == fs[n];
      }
      if f :| f in fs[..n] && f.path == x.path && f.row == x.row {
        assert f in fs;
      }
    }
  }

  /** TrackFiles hands on exactly the files with a real path, of Premiumize only those of hashes with a video, each
      with its own columns. */
  lemma {:induction false} TrackedAre(files: map<string, seq<Tracked>>, order: seq<string>, premiumize: bool, x: Item)
    requires forall h :: h in order ==> h in files
    ensures x in TrackedItems(files, order, premiumize)
            <==> x.hash in order && x.path != "" && x.path[0] == '/'
                 && (exists f :: f in files[x.hash] && f.path == x.path && f.row == x.row)
                 && (premiumize ==> exists f :: f in files[x.hash] && f.isVideo)
  {
    if order != [] {
      var n := |order| - 1;
      var h := order[n];
      TrackedAre(files, order[..n], premiumize, x);
      ItemsComeFromFiles(h, files[h], x);
      assert order == order[..n] + [h];
      assert HasVideo(files[h]) <==> exists f :: f in files[h] && f.isVideo;
    }
  }

  // ---------- runs ----------

  datatype Passed = Passed(item: Item, discardIdx: bool)

  function PassedBy(items: seq<Item>, discardIdx: bool): (ps: seq<Passed>)
    ensures |ps| == |items| && forall n :: 0 <= n < |ps| ==> ps[n] == Passed(items[n], discardIdx)
  {
    seq(|items|, n requires 0 <= n < |items| => Passed(items[n], discardIdx))
  }

  /** The items inserted under k, by a run from the empty table, since the row was last deleted. */
  function Given(ws: seq<Write>, k: Key): seq<Passed> {
    if ws == [] then []
    else
      var n := |ws| - 1;
      var ps := Given(ws[..n], k);
      match ws[n]
      case WriteRecord(items, discardIdx) => ps + PassedBy(RecordInserts(items, k), discardIdx)
      case Cleanup(_, _, _, _) => if k in Tables(map[], ws)[n + 1] then ps else []
      case _ => ps
  }

  lemma {:induction false} RunStores(ws: seq<Write>, k: Key)
    ensures |Inserted(ws, k)| == |Given(ws, k)|
    ensures forall n :: 0 <= n < |Given(ws, k)| ==>
              StoredAs(Inserted(ws, k)[n], Given(ws, k)[n].item, Given(ws, k)[n].discardIdx)
  {
    if ws != [] {
      var n := |ws| - 1;
      RunStores(ws[..n], k);
      if ws[n].WriteRecord? { RecordStores(ws[n].items, ws[n].discardIdx, k); }
    }
  }

  predicate FromDhtOrTor(p: Passed) { p.item.row.source == "dht" || p.item.row.source == "tor" }
  predicate FromElsewhere(p: Passed) { !FromDhtOrTor(p) && p.item.row.source != "" && p.item.row.source != "mfn" }

  /** After every run of all writers the source is that of the latest dht/tor item; without one, of the latest other
      item with a source that is not mfn; without one, of the first item. */
  lemma {:induction false} SourceOfItems(ws: seq<Write>, k: Key)
    requires k in Tables(map[], ws)[|ws|]
    ensures Given(ws, k) != []
    ensures var ps := Given(ws, k);
            var swarm, plain := Last(ps, FromDhtOrTor), Last(ps, FromElsewhere);
            Tables(map[], ws)[|ws|][k].source
            == ps[if swarm.Some? then swarm.value else if plain.Some? then plain.value else 0].item.row.source
  {
    RunSettles(ws, k);
    RunStores(ws, k);
    SourceOfHistory(Inserted(ws, k));
    FoundAlike(Inserted(ws, k), Given(ws, k), IsSwarm, FromDhtOrTor);
    FoundAlike(Inserted(ws, k), Given(ws, k), IsPlain, FromElsewhere);
  }

  /** After every run in which every Record call discards indexes, the index is that of the latest dht/tor item passed
      to Record for the key since the row was last deleted, unknown without one. */
  lemma {:induction false} IndexOfItems(ws: seq<Write>, k: Key)
    requires AllDiscard(ws) && k in Tables(map[], ws)[|ws|]
    ensures var ps := Given(ws, k);
            Tables(map[], ws)[|ws|][k].idx
            == if Last(ps, FromDhtOrTor).Some? then ps[Last(ps, FromDhtOrTor).value].item.row.idx else -1
  {
    IndexOfRun(ws, k);
    RunStores(ws, k);
    FoundAlike(Inserted(ws, k), Given(ws, k), IsSwarm, FromDhtOrTor);
  }

  predicate KnowsSize(p: Passed) { p.item.row.size != -1 }

  /** The item that settles the size: the latest dht/tor one; without any, the first other one with a source that is
      not mfn; without any, the latest. */
  function SettlesAt(ps: seq<Passed>): (i: nat)
    requires ps != []
    ensures i < |ps|
  {
    if Last(ps, FromDhtOrTor).Some? then Last(ps, FromDhtOrTor).value
    else if First(ps, FromElsewhere).Some? then First(ps, FromElsewhere).value
    else |ps| - 1
  }

  /** The first size known, -1 when none is. */
  function FirstSize(ps: seq<Passed>): int {
    if First(ps, KnowsSize).Some? then ps[First(ps, KnowsSize).value].item.row.size else -1
  }

  /** After every run of all writers the size is the first one known from the settling item on. */
  lemma {:induction false} SizeOfItems(ws: seq<Write>, k: Key)
    requires k in Tables(map[], ws)[|ws|]
    ensures Given(ws, k) != []
    ensures Tables(map[], ws)[|ws|][k].size == FirstSize(Given(ws, k)[SettlesAt(Given(ws, k))..])
  {
    var hs, ps := Inserted(ws, k), Given(ws, k);
    RunSettles(ws, k);
    RunStores(ws, k);
    SizeAndIndexOfHistory(hs);
    SettleAlike(hs, ps);
    var rows, since := hs[Base(hs)..], ps[Base(hs)..];
    forall n | 0 <= n < |rows| ensures rows[n].size == since[n].item.row.size {
      assert rows[n] == hs[Base(hs) + n] && since[n] == ps[Base(hs) + n];
    }
    SizesAlike(rows, since);
  }

  lemma {:induction false} SettleAlike(hs: seq<Row>, ps: seq<Passed>)
    requires hs != [] && |hs| == |ps|
    requires forall n :: 0 <= n < |hs| ==> StoredAs(hs[n], ps[n].item, ps[n].discardIdx)
    ensures Base(hs) == SettlesAt(ps)
  {
    FoundAlike(hs, ps, IsSwarm, FromDhtOrTor);
    FoundAlike(hs, ps, IsPlain, FromElsewhere);
  }

  lemma {:induction false} SizesAlike(rows: seq<Row>, ps: seq<Passed>)
    requires |rows| == |ps| && forall n :: 0 <= n < |rows| ==> rows[n].size == ps[n].item.row.size
    ensures FirstKnown(Sizes(rows)) == FirstSize(ps)
  {
    FoundAlike(Sizes(rows), ps, Known, KnowsSize);
  }

  // ---------- tags ----------

  /** A tag sets the id of its row if that is still open, and changes nothing else. */
  lemma TagSets(t: Table, hash: string, path: string, id: string)
    requires path != ""
    ensures var k, u := Key(hash, path), Apply(t, TagAnimeStremId(hash, path, id));
            && u.Keys == t.Keys && (forall l :: l in t && l != k ==> u[l] == t[l])
            && (k in t ==> u[k] == t[k].(asid := if t[k].asid == "" then id else t[k].asid))
    ensures "tt" <= id ==>
              var k, u := Key(hash, path), Apply(t, TagStremId(hash, path, id));
              && u.Keys == t.Keys && (forall l :: l in t && l != k ==> u[l] == t[l])
              && (k in t ==> u[k] == t[k].(sid := if t[k].sid == "" || t[k].sid == "*" then id else t[k].sid))
  {
  }

  /** A tag without a path does nothing, nor does one with a sid that is not an IMDb id. */
  lemma TagSkips(t: Table, hash: string, path: string, id: string)
    ensures path == "" ==> Apply(t, TagAnimeStremId(hash, path, id)) == t
    ensures path == "" || |id| < 2 || id[..2] != "tt" ==> Apply(t, TagStremId(hash, path, id)) == t
  {
  }

  // ---------- cleanup ----------

  /** The file is a mere name whose sid the row is to get. */
  function SidFor(path: string, like: (string, string) -> bool): File -> bool {
    (f: File) => f.path != "" && f.path[0] != '/' && f.sid != "" && f.sid != "*" && like(path, f.path)
  }

  function AsidFor(path: string, like: (string, string) -> bool): File -> bool {
    (f: File) => f.path != "" && f.path[0] != '/' && f.asid != "" && like(path, f.path)
  }

  function FirstSid(fs: seq<File>, path: string, like: (string, string) -> bool, none: string): string {
    var r := First(fs, SidFor(path, like));
    if r.Some? then fs[r.value].sid else none
  }

  function FirstAsid(fs: seq<File>, path: string, like: (string, string) -> bool): string {
    var r := First(fs, AsidFor(path, like));
    if r.Some? then fs[r.value].asid else ""
  }

  /** The row of t under k has become r: open ids are filled from the first file that has one for it. */
  ghost predicate Filled(r: Row, was: Row, fs: seq<File>, path: string, like: (string, string) -> bool) {
    r == was.(sid := if was.sid == "" || was.sid == "*" then FirstSid(fs, path, like, was.sid) else was.sid,
              asid := if was.asid == "" then FirstAsid(fs, path, like) else was.asid)
  }

  lemma MigrateOne(t: Table, hash: string, f: File, like: (string, string) -> bool, k: Key)
    requires k in t
    ensures k in Migrate(t, hash, f, like)
    ensures Migrate(t, hash, f, like)[k]
            == if k.hash != hash then t[k]
               else t[k].(sid := if Unset(t[k].sid) && SidFor(k.path, like)(f) then f.sid else t[k].sid,
                          asid := if t[k].asid == "" && AsidFor(k.path, like)(f) then f.asid else t[k].asid)
  {
  }

  lemma {:induction false} FilledFurther(r: Row, was: Row, fs: seq<File>, path: string, like: (string, string) -> bool)
    requires fs != [] && Filled(r, was, fs[..|fs| - 1], path, like)
    ensures var f := fs[|fs| - 1];
            Filled(r.(sid := if Unset(r.sid) && SidFor(path, like)(f) then f.sid else r.sid,
                      asid := if r.asid == "" && AsidFor(path, like)(f) then f.asid else r.asid),
                   was, fs, path, like)
  {
  }

  lemma {:induction false} MigrateFills(t: Table, hash: string, fs: seq<File>, like: (string, string) -> bool, k: Key)
    requires k in t
    ensures k in MigrateAll(t, hash, fs, like)
    ensures var u := MigrateAll(t, hash, fs, like);
            if k.hash == hash then Filled(u[k], t[k], fs, k.path, like) else u[k] == t[k]
  {
    if fs != [] {
      var n := |fs| - 1;
      MigrateFills(t, hash, fs[..n], like, k);
      var m := MigrateAll(t, hash, fs[..n], like);
      MigrateOne(m, hash, fs[n], like, k);
      if k.hash == hash { FilledFurther(m[k], t[k], fs, k.path, like); }
    }
  }

  /** A cleanup gives every row of its hash that survives the ids of the files whose name it ends in, first come first
      served; with the delete, and a rooted row in place, no row of a mere name is left, and rooted rows all are. */
  lemma {:induction false} CleanupFills(t: Table, hash: string, fs: seq<File>, like: (string, string) -> bool,
                                        deletes: bool, k: Key)
    requires k in t
    ensures var u := Apply(t, Cleanup(hash, fs, like, deletes));
            && (k in u ==> if k.hash == hash then Filled(u[k], t[k], fs, k.path, like) else u[k] == t[k])
            && (k in u <==> !deletes || k.hash != hash || Rooted(k.path)
                            || forall l :: l in t && l.hash == hash ==> !Rooted(l.path))
  {
    MigrateFills(t, hash, fs, like, k);
    MigrateAllKeeps(t, hash, fs, like);
    assert forall l :: l in t <==> l in MigrateAll(t, hash, fs, like);
  }
}
