/** NTv2 files with any number of grids. */
module GridFiles {
  import opened ByteOrder
  import opened GridInfo
  import opened GridTables
  import opened Nad2bin
  import opened Options

  predicate AllWritable(tables: seq<CTable>) {
    forall t | t in tables :: Writable(t)
  }

  /** Where the header of grid k stands: behind the overview and the headers and cells before it. */
  function HeaderAt(tables: seq<CTable>, k: nat): nat
    requires AllWritable(tables) && k <= |tables|
  {
    if k == 0 then 176
    else
      assert tables[k-1] in tables;
      HeaderAt(tables, k - 1) + 176 + 16 * (tables[k-1].limLam * tables[k-1].limPhi)
  }

  /** The part of the file for grid k: its header, and its cells up to the next header. */
  ghost predicate GridAt(c: Codec, tables: seq<CTable>, file: seq<Byte>, k: nat)
    requires Sized(c) && AllWritable(tables) && k < |tables|
  {
    assert tables[k] in tables;
    var (ct, at, end) := (tables[k], HeaderAt(tables, k), HeaderAt(tables, k + 1));
    end <= |file| && Ordered(c, ct, file[at..at+176], 11) && RowsWritten(c, ct, file[at+176..end], ct.limPhi)
  }

  /** The file counts the tables in its overview and holds all of them in order. */
  ghost predicate EncodesAll(c: Codec, tables: seq<CTable>, file: seq<Byte>)
    requires Sized(c) && AllWritable(tables) && |tables| < 0x8000_0000
  {
    && |file| >= 176 && file[40..44] == Int32Bytes(|tables|)
    && forall k | 0 <= k < |tables| :: GridAt(c, tables, file, k)
  }

  ghost predicate Readable(c: Codec, ct: CTable)
    requires Writable(ct)
  {
    Exact(c, ct) && ct.del.lam != 0.0 && ct.del.phi != 0.0
  }

  ghost predicate AllReadable(c: Codec, tables: seq<CTable>)
    requires AllWritable(tables)
  {
    forall t | t in tables :: Readable(c, t)
  }

  /** What a reader learns of grid k from its header. */
  function Header(tables: seq<CTable>, k: nat): Sub
    requires AllWritable(tables) && k < |tables|
  {
    Sub(tables[k].(cvs := []), HeaderAt(tables, k) + 176)
  }

  function HeadersFrom(tables: seq<CTable>, k: nat): (r: seq<Sub>)
    requires AllWritable(tables) && k <= |tables|
    ensures |r| == |tables| - k && forall i | 0 <= i < |r| :: r[i] == Header(tables, k + i)
    decreases |tables| - k
  {
    if k == |tables| then [] else [Header(tables, k)] + HeadersFrom(tables, k + 1)
  }

  predicate RecoversFrom(tables: seq<CTable>, k: nat) {
    forall i | k <= i < |tables| :: Recovers(tables[i])
  }

  /** Where the reader goes on behind the header at pos. */
  function Skipped(pos: nat, ct: CTable): nat {
    Seek(pos + 176, ct.limLam * ct.limPhi * 16)
  }

  lemma NextHeader(tables: seq<CTable>, k: nat)
    requires AllWritable(tables) && k < |tables|
    ensures Writable(tables[k])
    ensures HeaderAt(tables, k + 1) == HeaderAt(tables, k) + 176 + 16 * (tables[k].limLam * tables[k].limPhi)
    ensures HeaderAt(tables, k + 1) == Skipped(HeaderAt(tables, k), tables[k])
  {
    assert tables[k] in tables;
  }

  lemma FirstSubfile(c: Codec, file: seq<Byte>, pos: nat, n: nat, ct: CTable, more: Option<seq<Sub>>)
    requires n > 0 && pos + 176 <= |file| && more == Subfiles(c, file, Skipped(pos, ct), n - 1)
    ensures ParseGrid(c, file[pos..pos+176]) == None ==> Subfiles(c, file, pos, n) == None
    ensures ParseGrid(c, file[pos..pos+176]) == Some(ct.(cvs := [])) ==>
      Subfiles(c, file, pos, n) == if more.None? then None else Some([Sub(ct.(cvs := []), pos + 176)] + more.value)
  {
    hide ParseGrid, Seek;
    var next := ct.limLam * ct.limPhi * 16;
    var bare := ct.(cvs := []);
    assert bare.limLam * bare.limPhi * 16 == next;
  }

  lemma HeadersStep(tables: seq<CTable>, k: nat)
    requires AllWritable(tables) && k < |tables|
    ensures HeadersFrom(tables, k)
         == [Sub(tables[k].(cvs := []), HeaderAt(tables, k) + 176)] + HeadersFrom(tables, k + 1)
    ensures RecoversFrom(tables, k) <==> Recovers(tables[k]) && RecoversFrom(tables, k + 1)
  {
    hide Recovers, HeaderAt;
  }

  lemma HeaderThere(c: Codec, tables: seq<CTable>, file: seq<Byte>, k: nat)
    requires Sized(c) && AllWritable(tables) && |tables| < 0x8000_0000 && EncodesAll(c, tables, file)
    requires k < |tables| && AllReadable(c, tables)
    ensures HeaderAt(tables, k) + 176 <= |file|
    ensures var at := HeaderAt(tables, k);
            ParseGrid(c, file[at..at+176]) == if Recovers(tables[k]) then Some(tables[k].(cvs := [])) else None
  {
    NextHeader(tables, k);
    assert GridAt(c, tables, file, k) && tables[k] in tables && Readable(c, tables[k]);
    hide HeaderAt, Ordered, RowsWritten, ParseGrid, Exact, Recovers, EncodesAll;
    var at := HeaderAt(tables, k);
    HeaderRoundTrip(c, tables[k], file[at..at+176]);
  }

  lemma {:induction false} GridsFrom(c: Codec, tables: seq<CTable>, file: seq<Byte>, k: nat)
    requires Sized(c) && AllWritable(tables) && |tables| < 0x8000_0000 && EncodesAll(c, tables, file)
    requires AllReadable(c, tables) && k <= |tables|
    ensures Subfiles(c, file, HeaderAt(tables, k), |tables| - k) ==
      if RecoversFrom(tables, k) then Some(HeadersFrom(tables, k)) else None
    decreases |tables| - k
  {
    hide *;
    if k < |tables| {
      NextHeader(tables, k);
      HeaderThere(c, tables, file, k);
      HeadersStep(tables, k);
      GridsFrom(c, tables, file, k + 1);
      FirstSubfile(c, file, HeaderAt(tables, k), |tables| - k, tables[k],
                   Subfiles(c, file, HeaderAt(tables, k + 1), |tables| - k - 1));
    } else {
      NoneLeft(c, tables, file);
    }
  }

  lemma NoneLeft(c: Codec, tables: seq<CTable>, file: seq<Byte>)
    requires AllWritable(tables)
    ensures Subfiles(c, file, HeaderAt(tables, |tables|), 0) == Some(HeadersFrom(tables, |tables|))
    ensures RecoversFrom(tables, |tables|)
  {
  }

  lemma CountPlace(file: seq<Byte>)
    requires |file| >= 176
    ensures Value(file[..176], 2, 4) == file[40..44]
  {
    hide Value;
    var h := file[..176];
    ValueIs(h);
    SliceOfPrefix(file, 176, 40, 44);
  }

  lemma ValueIs(h: seq<Byte>)
    requires |h| == 176
    ensures Value(h, 2, 4) == h[40..44]
  {
    Nested(h, 32, 16, 8, 12);
    assert Record(h, 2) == h[32..32+16];
  }

  lemma CountRead(c: Codec, tables: seq<CTable>, file: seq<Byte>)
    requires Sized(c) && AllWritable(tables) && |tables| < 0x8000_0000 && EncodesAll(c, tables, file)
    ensures |file| >= 176 && Int32(Value(file[..176], 2, 4)) == |tables|
  {
    hide Int32, Int32Bytes, GridAt, Value;
    Int32RoundTrip(|tables|);
    CountPlace(file);
  }

  /** Every list of tables comes back from its file, in order, with the places of the cells, if and only
      if the axes of all of them run upwards; otherwise the reader rejects the file. */
  lemma FileRoundTrip(c: Codec, tables: seq<CTable>, file: seq<Byte>)
    requires Sized(c) && AllWritable(tables) && |tables| < 0x8000_0000 && EncodesAll(c, tables, file)
    requires AllReadable(c, tables)
    ensures Grids(c, file) ==
      if forall t | t in tables :: Recovers(t)
      then Some(seq(|tables|, k requires 0 <= k < |tables| => Header(tables, k))) else None
  {
    hide Int32, Value, EncodesAll, Recovers, Subfiles, Readable;
    CountRead(c, tables, file);
    GridsFrom(c, tables, file, 0);
    assert RecoversFrom(tables, 0) <==> forall t | t in tables :: Recovers(t);
    assert HeadersFrom(tables, 0) == seq(|tables|, k requires 0 <= k < |tables| => Header(tables, k));
  }

  /** And the cells of each table are found at its place. */
  lemma CellsRoundTrip(c: Codec, tables: seq<CTable>, file: seq<Byte>, k: nat)
    requires Sized(c) && AllWritable(tables) && |tables| < 0x8000_0000 && EncodesAll(c, tables, file)
    requires k < |tables| && Readable(c, tables[k])
    ensures Cells(c, file, Header(tables, k)) == Some(tables[k].cvs)
  {
    NextHeader(tables, k);
    assert GridAt(c, tables, file, k);
    hide HeaderAt, Ordered, RowsWritten, RowsCells, Exact, EncodesAll;
    var ct, at := tables[k], HeaderAt(tables, k) + 176;
    var data := file[at..HeaderAt(tables, k+1)];
    RowsRoundTrip(c, ct, data, ct.limPhi);
    DataLength(c, ct, data);
    SpanIs(16 * ct.limLam, ct.limPhi);
    assert ct.cvs[..|ct.cvs|] == ct.cvs;
  }
}
