/**
  The persistent transfer manifest (`manifest.rs` over `manifest_schema.sql`): transfers,
  their files and their verified chunk rows. Sizes, offsets and lengths go through signed
  64-bit columns; chunk rows are keyed by offset, so a second row at an offset replaces
  the first.
 */
module Manifest {
  import opened Prelude
  import opened Ranges
  import Sorting
  import Text

  type Digest = string

  datatype TransferState = Pending | Active | Interrupted | Completed | Cancelled | Failed

  datatype ManifestError =
    | BlankTransferId | BlankPeer | NoFiles | DuplicateFile | DuplicateTransfer
    | EmptyChunk | UnknownFile | ChunkOverflow | PastFileEnd | ZeroChunk
    | MissingBytes | UnknownTransfer

  datatype FileOffer = FileOffer(fileId: string, fileName: string, size: U64, digest: Option<Digest>)

  datatype FileRow = FileRow(fileId: string, fileName: string, size: I64, digest: Option<Digest>) {
    function Size(): U64 { AsU64(size) }
  }

  datatype ChunkRow = ChunkRow(offset: I64, length: I64) {
    function ToRange(): Range { Range(AsU64(offset), AsU64(length)) }
  }

  datatype TransferRow = TransferRow(
    peer: string, state: TransferState, files: seq<FileRow>, chunks: map<string, seq<ChunkRow>>)
  {
    function Rows(fileId: string): seq<ChunkRow> {
      if fileId in chunks then chunks[fileId] else []
    }

    function Ranges(fileId: string): seq<Range> { ToRanges(Rows(fileId)) }
  }

  type Db = map<string, TransferRow>

  // ----- rows -----

  function ToRanges(rows: seq<ChunkRow>): seq<Range> {
    seq(|rows|, i requires 0 <= i < |rows| => rows[i].ToRange())
  }

  lemma ToRangesMembers(rows: seq<ChunkRow>, r: Range)
    ensures r in ToRanges(rows) <==> exists c :: c in rows && c.ToRange() == r
  {
    if r in ToRanges(rows) {
      var i :| 0 <= i < |rows| && ToRanges(rows)[i] == r;
      assert rows[i] in rows;
    }
    if c :| c in rows && c.ToRange() == r {
      var i :| 0 <= i < |rows| && rows[i] == c;
      assert ToRanges(rows)[i] == r;
    }
  }

  /** `INSERT OR REPLACE` into rows kept in `ORDER BY offset` order. */
  function Upsert(rows: seq<ChunkRow>, row: ChunkRow): seq<ChunkRow> {
    if rows == [] || row.offset < rows[0].offset then [row] + rows
    else if row.offset == rows[0].offset then [row] + rows[1..]
    else [rows[0]] + Upsert(rows[1..], row)
  }

  ghost predicate SortedRows(rows: seq<ChunkRow>) {
    forall i, j :: 0 <= i < j < |rows| ==> rows[i].offset < rows[j].offset
  }

  lemma {:induction false} UpsertMembers(rows: seq<ChunkRow>, row: ChunkRow, x: ChunkRow)
    requires SortedRows(rows)
    ensures x in Upsert(rows, row) <==> x == row || (x in rows && x.offset != row.offset)
  {
    if rows != [] && row.offset > rows[0].offset {
      UpsertMembers(rows[1..], row, x);
      assert rows == [rows[0]] + rows[1..];
    } else if rows != [] {
      forall y | y in rows[1..] ensures rows[0].offset < y.offset {
        var i :| 0 <= i < |rows[1..]| && rows[1..][i] == y;
        assert rows[0].offset < rows[i + 1].offset;
      }
      assert rows == [rows[0]] + rows[1..];
    }
  }

  lemma {:induction false} UpsertSorted(rows: seq<ChunkRow>, row: ChunkRow)
    requires SortedRows(rows)
    ensures SortedRows(Upsert(rows, row))
  {
    if rows != [] && row.offset > rows[0].offset {
      var tail := Upsert(rows[1..], row);
      UpsertSorted(rows[1..], row);
      forall i | 0 <= i < |tail| ensures rows[0].offset < tail[i].offset {
        UpsertMembers(rows[1..], row, tail[i]);
        if tail[i] != row {
          var k :| 0 <= k < |rows[1..]| && rows[1..][k] == tail[i];
          assert rows[0].offset < rows[k + 1].offset;
        }
      }
    }
  }

  /** Signed storage loses nothing: a `u64` read back from its `i64` column is itself. */
  lemma StoredRoundTrip(u: U64)
    ensures AsU64(AsI64(u)) == u
    ensures forall v: U64 :: AsI64(v) == AsI64(u) ==> v == u
    ensures AsI64(u) == if u < 0x8000_0000_0000_0000 then u else u - 0x1_0000_0000_0000_0000
  {
  }

  function RowOf(offset: U64, length: U64): ChunkRow { ChunkRow(AsI64(offset), AsI64(length)) }

  /** Coverage after recording: the new range plus the old rows at other offsets. */
  lemma UpsertCover(rows: seq<ChunkRow>, offset: U64, length: U64, p: int)
    requires SortedRows(rows)
    ensures Covers(ToRanges(Upsert(rows, RowOf(offset, length))), p) <==>
            || Range(offset, length).Has(p)
            || exists c :: c in rows && c.ToRange().offset != offset && c.ToRange().Has(p)
  {
    var row := RowOf(offset, length);
    var rows' := Upsert(rows, row);
    if Covers(ToRanges(rows'), p) {
      var r :| r in ToRanges(rows') && r.Has(p);
      ToRangesMembers(rows', r);
      var c :| c in rows' && c.ToRange() == r;
      UpsertMembers(rows, row, c);
    }
    if Range(offset, length).Has(p) {
      UpsertMembers(rows, row, row);
      ToRangesMembers(rows', row.ToRange());
    }
    if c :| c in rows && c.ToRange().offset != offset && c.ToRange().Has(p) {
      UpsertMembers(rows, row, c);
      ToRangesMembers(rows', c.ToRange());
    }
  }

  // ----- the store as a function on its tables -----

  function FindFile(files: seq<FileRow>, fileId: string): Option<FileRow> {
    if files == [] then None
    else if files[0].fileId == fileId then Some(files[0])
    else FindFile(files[1..], fileId)
  }

  ghost predicate DistinctIds(files: seq<FileRow>) {
    forall i, j :: 0 <= i < j < |files| ==> files[i].fileId != files[j].fileId
  }

  lemma {:induction false} FindFileHit(files: seq<FileRow>, f: FileRow)
    requires DistinctIds(files) && f in files
    ensures FindFile(files, f.fileId) == Some(f)
  {
    if files[0] != f {
      var i :| 0 <= i < |files| && files[i] == f;
      assert files[0].fileId != files[i].fileId;
      assert f in files[1..];
      FindFileHit(files[1..], f);
    }
  }

  lemma {:induction false} FindFileIn(files: seq<FileRow>, fileId: string)
    ensures FindFile(files, fileId).Some? ==>
              FindFile(files, fileId).value in files && FindFile(files, fileId).value.fileId == fileId
  {
    if files != [] && files[0].fileId != fileId { FindFileIn(files[1..], fileId); }
  }

  /** What every reachable transfer row satisfies. */
  ghost predicate ValidTransfer(t: TransferRow) {
    && DistinctIds(t.files)
    && forall f :: f in t.files ==>
         SortedRows(t.Rows(f.fileId)) && Within(f.Size(), t.Ranges(f.fileId))
  }

  ghost predicate ValidDb(db: Db) {
    forall id :: id in db ==> ValidTransfer(db[id])
  }

  /** Every file of the transfer has all its bytes covered, and there is at least one file. */
  ghost predicate TransferComplete(db: Db, id: string) {
    && id in db && db[id].files != []
    && forall f :: f in db[id].files ==> Complete(f.Size(), db[id].Ranges(f.fileId))
  }

  function IdOrder(): (FileRow, FileRow) -> bool {
    (a: FileRow, b: FileRow) => Text.Le(a.fileId, b.fileId)
  }

  function ToRows(offers: seq<FileOffer>): seq<FileRow> {
    seq(|offers|, i requires 0 <= i < |offers| =>
      FileRow(offers[i].fileId, offers[i].fileName, AsI64(offers[i].size), offers[i].digest))
  }

  predicate UniqueOffers(offers: seq<FileOffer>) {
    forall i, j :: 0 <= i < j < |offers| ==> offers[i].fileId != offers[j].fileId
  }

  /** The rows a new transfer starts with: its files in id order and no verified chunks. */
  function NewTransfer(peer: string, offers: seq<FileOffer>): TransferRow {
    TransferRow(peer, Pending, Sorting.Sort(ToRows(offers), IdOrder()), map[])
  }

  function Create(db: Db, id: string, peer: string, offers: seq<FileOffer>): Result<Db, ManifestError> {
    if Text.Blank(id) then Err(BlankTransferId)
    else if Text.Blank(peer) then Err(BlankPeer)
    else if offers == [] then Err(NoFiles)
    else if id in db then Err(DuplicateTransfer)
    else if !UniqueOffers(offers) then Err(DuplicateFile)
    else Ok(db[id := NewTransfer(peer, offers)])
  }

  function Record(db: Db, id: string, fileId: string, offset: U64, length: nat): Result<Db, ManifestError> {
    if length == 0 then Err(EmptyChunk)
    else
      var file := if id in db then FindFile(db[id].files, fileId) else None;
      if file.None? then Err(UnknownFile)
      else if CheckedAdd(offset, length).None? then Err(ChunkOverflow)
      else if offset + length > file.value.Size() then Err(PastFileEnd)
      else
        var t := db[id];
        Ok(db[id := t.(chunks := t.chunks[fileId := Upsert(t.Rows(fileId), RowOf(offset, length))])])
  }

  ghost function SetState(db: Db, id: string, state: TransferState): Result<Db, ManifestError> {
    if state == Completed && !TransferComplete(db, id) then Err(MissingBytes)
    else if id !in db then Err(UnknownTransfer)
    else Ok(db[id := db[id].(state := state)])
  }

  lemma SortKeepsDistinct(files: seq<FileRow>, sorted: seq<FileRow>)
    requires DistinctIds(files) && multiset(sorted) == multiset(files)
    ensures DistinctIds(sorted)
  {
    forall i, j | 0 <= i < j < |sorted| ensures sorted[i].fileId != sorted[j].fileId {
      assert sorted == sorted[..j] + [sorted[j]] + sorted[j + 1..];
      assert sorted[i] in sorted[..j];
      if sorted[i] == sorted[j] {
        assert multiset(sorted)[sorted[j]] >= 2;
        DistinctOnce(files, sorted[j]);
      } else {
        assert sorted[i] in multiset(files) && sorted[j] in multiset(files);
        var a :| 0 <= a < |files| && files[a] == sorted[i];
        var b :| 0 <= b < |files| && files[b] == sorted[j];
      }
    }
  }

  lemma {:induction false} DistinctOnce(files: seq<FileRow>, x: FileRow)
    requires DistinctIds(files)
    ensures multiset(files)[x] <= 1
  {
    if files != [] {
      assert files == [files[0]] + files[1..];
      DistinctOnce(files[1..], x);
      forall y | y in files[1..] ensures y != files[0] {
        var i :| 0 <= i < |files[1..]| && files[1..][i] == y;
        assert files[0].fileId != files[i + 1].fileId;
      }
    }
  }

  lemma CreateValid(db: Db, id: string, peer: string, offers: seq<FileOffer>)
    requires ValidDb(db)
    ensures Create(db, id, peer, offers).Ok? ==> ValidDb(Create(db, id, peer, offers).value)
  {
    if Create(db, id, peer, offers).Ok? {
      NewTransferFiles(peer, offers);
    }
  }

  /** A new transfer lists exactly the offered files, in id order, each id once. */
  lemma NewTransferFiles(peer: string, offers: seq<FileOffer>)
    requires UniqueOffers(offers)
    ensures var files := NewTransfer(peer, offers).files;
            && DistinctIds(files) && multiset(files) == multiset(ToRows(offers))
            && Sorting.SortedBy(files, IdOrder())
  {
    var rows := ToRows(offers);
    Sorting.SortPermutes(rows, IdOrder());
    assert DistinctIds(rows);
    SortKeepsDistinct(rows, Sorting.Sort(rows, IdOrder()));
    IdOrderTotal();
    Sorting.SortSorts(rows, IdOrder());
  }

  lemma IdOrderTotal()
    ensures Sorting.TotalPreorder(IdOrder())
  {
    forall a: FileRow, b: FileRow ensures IdOrder()(a, b) || IdOrder()(b, a) {
      Text.LeTotal(a.fileId, b.fileId);
    }
    forall a: FileRow, b: FileRow, c: FileRow | IdOrder()(a, b) && IdOrder()(b, c) ensures IdOrder()(a, c) {
      Text.LeTransitive(a.fileId, b.fileId, c.fileId);
    }
  }

  lemma RecordValid(db: Db, id: string, fileId: string, offset: U64, length: nat)
    requires ValidDb(db)
    ensures Record(db, id, fileId, offset, length).Ok? ==>
              ValidDb(Record(db, id, fileId, offset, length).value)
  {
    if Record(db, id, fileId, offset, length).Ok? {
      var t := db[id];
      var file := FindFile(t.files, fileId).value;
      FindFileIn(t.files, fileId);
      var row := RowOf(offset, length);
      var t' := Record(db, id, fileId, offset, length).value[id];
      UpsertSorted(t.Rows(fileId), row);
      UpsertWithin(t.Rows(fileId), offset, length, file.Size());
      forall f | f in t'.files
        ensures SortedRows(t'.Rows(f.fileId)) && Within(f.Size(), t'.Ranges(f.fileId))
      {
        if f.fileId == fileId { FindFileHit(t.files, f); }
      }
    }
  }

  lemma UpsertWithin(rows: seq<ChunkRow>, offset: U64, length: U64, size: nat)
    requires SortedRows(rows) && Within(size, ToRanges(rows)) && length > 0 && offset + length <= size
    ensures Within(size, ToRanges(Upsert(rows, RowOf(offset, length))))
  {
    var rows' := Upsert(rows, RowOf(offset, length));
    forall r | r in ToRanges(rows') ensures r.length > 0 && r.End() <= size {
      ToRangesMembers(rows', r);
      var c :| c in rows' && c.ToRange() == r;
      UpsertMembers(rows, RowOf(offset, length), c);
      if c in rows { ToRangesMembers(rows, r); }
    }
  }

  lemma SetStateValid(db: Db, id: string, state: TransferState)
    requires ValidDb(db)
    ensures SetState(db, id, state).Ok? ==> ValidDb(SetState(db, id, state).value)
  {
    if SetState(db, id, state).Ok? {
      var t, t' := db[id], SetState(db, id, state).value[id];
      assert forall f :: t'.Rows(f) == t.Rows(f);
    }
  }

  /** The file's coverage is now that of `r` and of its old rows at other offsets. */
  ghost predicate CoverReplaced(t: TransferRow, t': TransferRow, fileId: string, r: Range) {
    forall p :: Covers(t'.Ranges(fileId), p) <==> r.Has(p) || CoveredBeside(t, fileId, r.offset, p)
  }

  ghost predicate CoveredBeside(t: TransferRow, fileId: string, offset: nat, p: int) {
    exists c :: c in t.Rows(fileId) && c.ToRange().offset != offset && c.ToRange().Has(p)
  }

  lemma RecordedCover(t: TransferRow, fileId: string, offset: U64, length: U64)
    requires ValidTransfer(t) && FindFile(t.files, fileId).Some?
    ensures var t' := t.(chunks := t.chunks[fileId := Upsert(t.Rows(fileId), RowOf(offset, length))]);
            CoverReplaced(t, t', fileId, Range(offset, length))
  {
    FindFileIn(t.files, fileId);
    var t' := t.(chunks := t.chunks[fileId := Upsert(t.Rows(fileId), RowOf(offset, length))]);
    assert t'.Rows(fileId) == Upsert(t.Rows(fileId), RowOf(offset, length));
    forall p
      ensures Covers(t'.Ranges(fileId), p) <==> Range(offset, length).Has(p) || CoveredBeside(t, fileId, offset, p)
    {
      UpsertCover(t.Rows(fileId), offset, length, p);
    }
  }

  // ----- the store as an object -----

  class ManifestStore {
    var db: Db

    ghost predicate Valid() reads this { ValidDb(db) }

    constructor ()
      ensures Valid() && db == map[]
    {
      db := map[];
    }

    /**
      `create_transfer`: a refused request leaves the store as it was. Otherwise it gains one
      pending transfer, with exactly the offered files in id order and no chunk rows.
     */
    method CreateTransfer(id: string, peer: string, offers: seq<FileOffer>) returns (r: Option<ManifestError>)
      requires Valid()
      modifies this
      ensures Valid()
      ensures r.None? <==>
                !Text.Blank(id) && !Text.Blank(peer) && offers != [] && id !in old(db) && UniqueOffers(offers)
      ensures r.Some? ==> db == old(db)
      ensures r.None? ==>
                && db.Keys == old(db).Keys + {id} && (forall k :: k in old(db) ==> db[k] == old(db)[k])
                && db[id].peer == peer && db[id].state == Pending && db[id].chunks == map[]
                && multiset(db[id].files) == multiset(ToRows(offers))
                && forall i, j :: 0 <= i < j < |db[id].files| ==>
                     Text.Le(db[id].files[i].fileId, db[id].files[j].fileId)
      ensures match Create(old(db), id, peer, offers)
              case Ok(db') => r == None && db == db'
              case Err(e) => r == Some(e)
    {
      CreateValid(db, id, peer, offers);
      if Text.Blank(id) { return Some(BlankTransferId); }
      if Text.Blank(peer) { return Some(BlankPeer); }
      if offers == [] { return Some(NoFiles); }
      if id in db { return Some(DuplicateTransfer); }
      var rows := InsertFiles(offers);
      if rows.None? { return Some(DuplicateFile); }
      NewTransferFiles(peer, offers);
      db := db[id := TransferRow(peer, Pending, Sorting.Sort(rows.value, IdOrder()), map[])];
      r := None;
    }

    /** The insert loop of `create_transfer`; a second row with the same key rolls all of it back. */
    method InsertFiles(offers: seq<FileOffer>) returns (rows: Option<seq<FileRow>>)
      ensures rows.Some? <==> UniqueOffers(offers)
      ensures rows.Some? ==> rows.value == ToRows(offers)
    {
      var inserted: seq<FileRow> := [];
      for i := 0 to |offers|
        invariant inserted == ToRows(offers)[..i]
        invariant forall a, b :: 0 <= a < b < i ==> offers[a].fileId != offers[b].fileId
      {
        if exists k :: 0 <= k < |inserted| && inserted[k].fileId == offers[i].fileId { return None; }
        forall a | 0 <= a < i ensures offers[a].fileId != offers[i].fileId { assert inserted[a] == ToRows(offers)[a]; }
        inserted := inserted + [ToRows(offers)[i]];
      }
      assert ToRows(offers)[..|offers|] == ToRows(offers);
      rows := Some(inserted);
    }

    /**
      `record_verified_chunk`: a refused chunk leaves the store as it was. Otherwise the file has
      the new row and its old rows at other offsets, so that exactly those bytes are covered, and
      nothing else changes.
     */
    method RecordVerifiedChunk(id: string, fileId: string, offset: U64, length: nat)
        returns (r: Option<ManifestError>)
      requires Valid()
      modifies this
      ensures Valid()
      ensures r.None? <==>
                && length > 0 && id in old(db) && FindFile(old(db)[id].files, fileId).Some?
                && offset + length <= FindFile(old(db)[id].files, fileId).value.Size()
      ensures r.Some? ==> db == old(db)
      ensures r.None? ==>
                && db.Keys == old(db).Keys && (forall k :: k in old(db) && k != id ==> db[k] == old(db)[k])
                && db[id].(chunks := map[]) == old(db)[id].(chunks := map[])
                && (forall f :: f != fileId ==> db[id].Rows(f) == old(db)[id].Rows(f))
                && CoverReplaced(old(db)[id], db[id], fileId, Range(offset, length))
      ensures match Record(old(db), id, fileId, offset, length)
              case Ok(db') => r == None && db == db'
              case Err(e) => r == Some(e)
    {
      RecordValid(db, id, fileId, offset, length);
      if length == 0 { return Some(EmptyChunk); }
      if id !in db { return Some(UnknownFile); }
      var t := db[id];
      var file := FindFile(t.files, fileId);
      if file.None? { return Some(UnknownFile); }
      var end := CheckedAdd(offset, length);
      if end.None? { return Some(ChunkOverflow); }
      if end.value > file.value.Size() { return Some(PastFileEnd); }
      RecordedCover(t, fileId, offset, length);
      db := db[id := t.(chunks := t.chunks[fileId := Upsert(t.Rows(fileId), RowOf(offset, length))])];
      r := None;
    }

    /** `missing_ranges`: the stored rows, merged, then planned against the grid. */
    method MissingRanges(id: string, fileId: string, chunkSize: U64)
        returns (r: Result<seq<Range>, ManifestError>)
      requires Valid()
      ensures r.Err? <==> chunkSize == 0 || id !in db || FindFile(db[id].files, fileId).None?
      ensures r.Err? ==> r.error == if chunkSize == 0 then ZeroChunk else UnknownFile
      ensures r.Ok? ==>
                r.value == Missing(FindFile(db[id].files, fileId).value.Size(), chunkSize, db[id].Ranges(fileId))
    {
      if chunkSize == 0 { return Err(ZeroChunk); }
      if id !in db || FindFile(db[id].files, fileId).None? { return Err(UnknownFile); }
      var file := FindFile(db[id].files, fileId).value;
      FindFileIn(db[id].files, fileId);
      var stored := db[id].Ranges(fileId);
      WithinFits(file.Size(), stored);
      MergeIsCanonical(stored);
      var verified := MergeWrapping(stored);
      var missing := MissingRangesFor(file.Size(), chunkSize, verified);
      MissingByCover(Grid(file.Size(), chunkSize), verified, stored);
      r := Ok(missing);
    }

    /** `transfer_complete`: stops at the first file with a gap; false without files. */
    method IsComplete(id: string) returns (b: bool)
      requires Valid()
      ensures b <==> TransferComplete(db, id)
    {
      if id !in db { return false; }
      var files := db[id].files;
      for i := 0 to |files|
        invariant forall k :: 0 <= k < i ==> Complete(files[k].Size(), db[id].Ranges(files[k].fileId))
      {
        var covered := CoversStored(id, files[i]);
        if !covered { return false; }
      }
      b := files != [];
    }

    method CoversStored(id: string, file: FileRow) returns (b: bool)
      requires Valid() && id in db && file in db[id].files
      ensures b <==> Complete(file.Size(), db[id].Ranges(file.fileId))
    {
      var stored := db[id].Ranges(file.fileId);
      WithinFits(file.Size(), stored);
      var verified := MergeWrapping(stored);
      MergedWithin(file.Size(), stored);
      b := RangesCover(file.Size(), verified);
    }

    /** `set_state`: only a transfer with every byte recorded can be completed. */
    method ChangeState(id: string, state: TransferState) returns (r: Option<ManifestError>)
      requires Valid()
      modifies this
      ensures Valid()
      ensures r.None? <==> id in old(db) && (state == Completed ==> TransferComplete(old(db), id))
      ensures r.Some? ==> db == old(db)
      ensures r.None? ==>
                && db.Keys == old(db).Keys && (forall k :: k in old(db) && k != id ==> db[k] == old(db)[k])
                && db[id].state == state && db[id].peer == old(db)[id].peer
                && db[id].files == old(db)[id].files && db[id].chunks == old(db)[id].chunks
      ensures match SetState(old(db), id, state)
              case Ok(db') => r == None && db == db'
              case Err(e) => r == Some(e) && db == old(db)
    {
      SetStateValid(db, id, state);
      if state == Completed {
        var complete := IsComplete(id);
        if !complete { return Some(MissingBytes); }
      }
      if id !in db { return Some(UnknownTransfer); }
      db := db[id := db[id].(state := state)];
      r := None;
    }
  }

  lemma MergedWithin(size: nat, rs: seq<Range>)
    requires Within(size, rs)
    ensures Within(size, MergeOf(rs)) && SameCover(MergeOf(rs), rs)
  {
    MergeIsCanonical(rs);
    var m := MergeOf(rs);
    forall r | r in m ensures r.length > 0 && r.End() <= size {
      var i :| 0 <= i < |m| && m[i] == r;
      CoversAt(m, i, r.End() - 1);
      WithinCovers(size, rs, r.End() - 1);
    }
  }
}
