/** The NTv2 grid file: written by nad2bin, read by the grid loader, on hosts of either byte order. */
module Nad2bin {
  import opened ByteOrder
  import opened GridTables
  import opened Reals

  // ----- Headers: eleven records of a name and a value, eight bytes each

  /** h with the bytes b at position at. */
  function Put(h: seq<Byte>, at: nat, b: seq<Byte>): (r: seq<Byte>)
    requires at + |b| <= |h|
    ensures |r| == |h|
  {
    h[..at] + b + h[at+|b|..]
  }

  function Record(h: seq<Byte>, k: nat): (r: seq<Byte>)
    requires |h| == 176 && k < 11
    ensures |r| == 16
  {
    h[16*k..16*k+16]
  }

  lemma PutRecord(h: seq<Byte>, k: nat, d: nat, b: seq<Byte>, j: nat)
    requires |h| == 176 && k < 11 && j < 11 && d + |b| <= 16
    ensures Record(Put(h, 16 * k + d, b), j) == if j == k then Put(Record(h, k), d, b) else Record(h, j)
  {
    var p := Put(h, 16 * k + d, b);
    assert forall i | 0 <= i < 176 ::
      p[i] == if 16 * k + d <= i < 16 * k + d + |b| then b[i - 16 * k - d] else h[i];
    if j == k {
      assert Record(p, k) == Put(Record(h, k), d, b);
    } else if j < k {
      assert 16 * j + 16 <= 16 * k;
      assert Record(p, j) == Record(h, j);
    } else {
      assert 16 * k + 16 <= 16 * j;
      assert Record(p, j) == Record(h, j);
    }
  }

  function Bytes(text: string): (r: seq<Byte>)
    ensures |r| == |text|
  {
    seq(|text|, i requires 0 <= i < |text| => text[i] as int % 256)
  }

  /** A record of zeros with a text of 8 or 16 characters and a value behind the first 8. */
  function Filled(text: string, value: seq<Byte>): (r: seq<Byte>)
    requires |text| <= 16 && |value| <= 8
    ensures |r| == 16
  {
    Put(Put(seq(16, _ => 0), 0, Bytes(text)), 8, value)
  }

  lemma FilledParts(text: string, value: seq<Byte>)
    requires |text| == 8 && |value| <= 8
    ensures Filled(text, value)[..8] == Bytes(text) && Filled(text, value)[8..8+|value|] == value
  {
  }

  lemma SwapFilled(text: string, value: seq<Byte>)
    requires |text| == 8 && |value| <= 8
    ensures Put(Filled(text, Reverse(value)), 8, Reverse(Reverse(value))) == Filled(text, value)
  {
    ReverseTwice(value);
  }

  method Copy(h: array<Byte>, at: nat, b: seq<Byte>)
    requires at + |b| <= h.Length
    modifies h
    ensures h[..] == Put(old(h[..]), at, b)
  {
    var i := 0;
    while i < |b|
      invariant i <= |b|
      invariant h[..] == old(h[..at]) + b[..i] + old(h[at+i..])
    {
      h[at+i] := b[i];
      i := i + 1;
    }
  }

  predicate ZeroFrom(h: seq<Byte>, k: nat) {
    |h| == 176 && k <= 11 && forall j | k <= j < 11 :: Record(h, j) == seq(16, _ => 0)
  }

  /** Fills record k of a header whose records from k on are still zero. */
  method WriteRecord(h: array<Byte>, k: nat, text: string, value: seq<Byte>)
    requires k < 11 && |text| <= 16 && |value| <= 8 && ZeroFrom(h[..], k)
    modifies h
    ensures ZeroFrom(h[..], k + 1) && Record(h[..], k) == Filled(text, value)
    ensures forall j | 0 <= j < k :: Record(h[..], j) == Record(old(h[..]), j)
  {
    hide Put, Record, Filled, Bytes;
    ghost var was := h[..];
    Copy(h, 16 * k, Bytes(text));
    Copy(h, 16 * k + 8, value);
    forall j | 0 <= j < 11
      ensures Record(h[..], j) == if j == k then Filled(text, value) else Record(was, j)
    {
      TwoPuts(was, k, text, value, j);
    }
  }

  lemma TwoPuts(h: seq<Byte>, k: nat, text: string, value: seq<Byte>, j: nat)
    requires k < 11 && j < 11 && |text| <= 16 && |value| <= 8 && ZeroFrom(h, k)
    ensures var r := Put(Put(h, 16 * k, Bytes(text)), 16 * k + 8, value);
            Record(r, j) == if j == k then Filled(text, value) else Record(h, j)
  {
    hide Put, Record, Bytes;
    PutRecord(h, k, 0, Bytes(text), j);
    PutRecord(Put(h, 16 * k, Bytes(text)), k, 8, value, j);
  }

  /** Converts the byte order of the value in record k. */
  method SwapField(h: array<Byte>, k: nat, size: nat)
    requires h.Length == 176 && k < 11 && size <= 8
    modifies h
    ensures Record(h[..], k) == var r := old(Record(h[..], k)); Put(r, 8, Reverse(r[8..8+size]))
    ensures forall j | 0 <= j < 11 && j != k :: Record(h[..], j) == Record(old(h[..]), j)
  {
    hide Reverse, Swapped, Span;
    ghost var was := h[..];
    ghost var b := was[16*k+8..16*k+8+size];
    SwappedOne(b);
    SwapWords(h, 16 * k + 8, size, 1);
    assert h[..] == Put(was, 16 * k + 8, Reverse(b));
    FieldSlice(was, k, size);
    forall j | 0 <= j < 11
      ensures Record(h[..], j) == if j == k then Put(Record(was, k), 8, Reverse(b)) else Record(was, j)
    {
      PutRecord(was, k, 8, Reverse(b), j);
    }
  }

  lemma FieldSlice(h: seq<Byte>, k: nat, size: nat)
    requires |h| == 176 && k < 11 && size <= 8
    ensures h[16*k+8..16*k+8+size] == Record(h, k)[8..8+size]
  {
    SliceOfSlice(h, 16 * k, 16 * k + 16, 8, 8 + size);
  }

  lemma SliceOfSlice(s: seq<Byte>, a: nat, b: nat, p: nat, q: nat)
    requires a <= b <= |s| && p <= q <= b - a
    ensures s[a..b][p..q] == s[a+p..a+q]
  {
    forall i | 0 <= i < q - p ensures s[a..b][p..q][i] == s[a+p..a+q][i] {
      assert s[a..b][p+i] == s[a+p+i];
    }
  }

  lemma SwappedOne(b: seq<Byte>)
    ensures Span(|b|, 1) == |b| && Swapped(b, |b|, 1) == Reverse(b)
  {
    assert Span(|b|, 0) == 0;
    assert b[0..] == b && Swapped(b[..0], |b|, 0) == [];
    assert Swapped(b, |b|, 1) == [] + Reverse(b[0..]);
  }

  // ----- Numbers in files

  /** How a host stores numbers, least significant byte first. */
  datatype Codec = Codec(double: real -> seq<Byte>, undouble: seq<Byte> -> real,
                         float: real -> seq<Byte>, unfloat: seq<Byte> -> real)

  ghost predicate Sized(c: Codec) {
    forall x: real :: |c.double(x)| == 8 && |c.float(x)| == 4
  }

  /** The bytes of a number in the memory of a host. */
  function Image(lsb: bool, b: seq<Byte>): (r: seq<Byte>)
    ensures |r| == |b|
  {
    if lsb then b else Reverse(b)
  }

  function Int32Bytes(n: nat): (b: seq<Byte>)
    requires n < 0x8000_0000
    ensures |b| == 4
  {
    var (n1, n2) := (n / 256, n / 256 / 256);
    [n % 256, n1 % 256, n2 % 256, n2 / 256]
  }

  function Int32(b: seq<Byte>): int
    requires |b| == 4
  {
    var n: int := b[0] as int + 256 * b[1] as int + 65536 * b[2] as int + 16777216 * b[3] as int;
    if n < 0x8000_0000 then n else n - 0x1_0000_0000
  }

  lemma Int32RoundTrip(n: nat)
    requires n < 0x8000_0000
    ensures Int32(Int32Bytes(n)) == n
  {
    var (n1, n2) := (n / 256, n / 256 / 256);
    assert n == 256 * n1 + n % 256 && n1 == 256 * n2 + n1 % 256 && n2 == 256 * (n2 / 256) + n2 % 256;
  }

  function Seconds(angle: real): real {
    angle * 3600.0 / DEG_TO_RAD
  }

  // ----- The writer

  predicate Writable(ct: CTable) {
    ct.limLam >= 1 && ct.limPhi >= 1 && |ct.cvs| == ct.limLam * ct.limPhi < 0x8000_0000
  }

  function OverviewRecord(k: nat): seq<Byte> {
    match k
    case 0 => Filled("NUM_OREC", [11])
    case 1 => Filled("NUM_SREC", [11])
    case 2 => Filled("NUM_FILE", [1])
    case 3 => Filled("GS_TYPE         ", Bytes("SECONDS"))
    case 4 => Filled("VERSION         ", [])
    case 5 => Filled("SYSTEM_F        ", Bytes("NAD27"))
    case 6 => Filled("SYSTEM_T        ", Bytes("NAD83"))
    case 7 => Filled("MAJOR_F ", [])
    case 8 => Filled("MINOR_F ", [])
    case 9 => Filled("MAJOR_T ", [])
    case _ => Filled("MINOR_T ", [])
  }

  function UpperRight(ct: CTable): LP {
    LP(ct.ll.lam + (ct.limLam - 1) as real * ct.del.lam, ct.ll.phi + (ct.limPhi - 1) as real * ct.del.phi)
  }

  /** Name and number of the records 4 to 9 of a grid header; longitudes are positive west. */
  function NumberName(k: nat): (r: string)
    ensures |r| == 8
  {
    match k
    case 4 => "S_LAT   "
    case 5 => "N_LAT   "
    case 6 => "E_LONG  "
    case 7 => "W_LONG  "
    case 8 => "LAT_INC "
    case _ => "LONG_INC"
  }

  function Number(ct: CTable, k: nat): real {
    match k
    case 4 => Seconds(ct.ll.phi)
    case 5 => Seconds(UpperRight(ct).phi)
    case 6 => Seconds(-1.0 * UpperRight(ct).lam)
    case 7 => Seconds(-1.0 * ct.ll.lam)
    case 8 => Seconds(ct.del.phi)
    case _ => Seconds(ct.del.lam)
  }

  /** Record k of the grid header as it lies in the memory of a host; in the file it is as on a host
      that stores the least significant byte first. */
  ghost function GridRecord(c: Codec, ct: CTable, lsb: bool, k: nat): seq<Byte>
    requires Sized(c) && Writable(ct)
  {
    match k
    case 0 => Filled("SUB_NAME        ", [])
    case 1 => Filled("PARENT          ", Bytes("NONE"))
    case 2 => Filled("CREATED         ", [])
    case 3 => Filled("UPDATED         ", [])
    case 10 => Filled("GS_COUNT", Image(lsb, Int32Bytes(ct.limLam * ct.limPhi)))
    case _ => Filled(NumberName(k), Image(lsb, c.double(Number(ct, k))))
  }

  method NewHeader() returns (h: array<Byte>)
    ensures fresh(h) && h.Length == 176 && ZeroFrom(h[..], 0)
  {
    h := new Byte[176](_ => 0);
    forall j | 0 <= j < 11 ensures Record(h[..], j) == seq(16, _ => 0) {
      assert forall i | 0 <= i < 16 :: Record(h[..], j)[i] == h[16*j+i];
    }
  }

  method WriteOverview() returns (h: array<Byte>)
    ensures fresh(h) && h.Length == 176
    ensures forall k | 0 <= k < 11 :: Record(h[..], k) == OverviewRecord(k)
  {
    hide Filled, Bytes, Record, ZeroFrom;
    h := NewHeader();
    WriteRecord(h, 0, "NUM_OREC", [11]);
    WriteRecord(h, 1, "NUM_SREC", [11]);
    WriteRecord(h, 2, "NUM_FILE", [1]);
    WriteRecord(h, 3, "GS_TYPE         ", Bytes("SECONDS"));
    WriteRecord(h, 4, "VERSION         ", []);
    WriteRecord(h, 5, "SYSTEM_F        ", Bytes("NAD27"));
    WriteRecord(h, 6, "SYSTEM_T        ", Bytes("NAD83"));
    WriteRecord(h, 7, "MAJOR_F ", []);
    WriteRecord(h, 8, "MINOR_F ", []);
    WriteRecord(h, 9, "MAJOR_T ", []);
    WriteRecord(h, 10, "MINOR_T ", []);
  }

  /** The header with the numbers before record k in the order of the file. */
  ghost predicate Ordered(c: Codec, ct: CTable, h: seq<Byte>, k: nat)
    requires Sized(c) && Writable(ct)
  {
    |h| == 176 && forall j | 0 <= j < 11 :: Record(h, j) == GridRecord(c, ct, j < k, j)
  }

  /** Brings the number in record k into the order of the file. */
  method SwapNumber(ghost c: Codec, ghost ct: CTable, h: array<Byte>, k: nat)
    requires Sized(c) && Writable(ct) && 4 <= k < 11 && Ordered(c, ct, h[..], k)
    modifies h
    ensures Ordered(c, ct, h[..], k + 1)
  {
    hide Filled, Bytes, Record, Reverse, Number, Int32Bytes, Put;
    ghost var name := if k == 10 then "GS_COUNT" else NumberName(k);
    ghost var value := if k == 10 then Int32Bytes(ct.limLam * ct.limPhi) else c.double(Number(ct, k));
    FilledParts(name, Reverse(value));
    SwapFilled(name, value);
    SwapField(h, k, if k == 10 then 4 else 8);
  }

  method WriteNumber(c: Codec, h: array<Byte>, k: nat, name: string, value: real, lsb: bool)
    requires Sized(c) && k < 11 && |name| == 8 && ZeroFrom(h[..], k)
    modifies h
    ensures ZeroFrom(h[..], k + 1) && Record(h[..], k) == Filled(name, Image(lsb, c.double(value)))
    ensures forall j | 0 <= j < k :: Record(h[..], j) == Record(old(h[..]), j)
  {
    hide ZeroFrom, Filled, Record, Image;
    WriteRecord(h, k, name, Image(lsb, c.double(value)));
  }

  method FillTexts() returns (h: array<Byte>)
    ensures fresh(h) && h.Length == 176 && ZeroFrom(h[..], 4)
    ensures Record(h[..], 0) == Filled("SUB_NAME        ", [])
    ensures Record(h[..], 1) == Filled("PARENT          ", Bytes("NONE"))
    ensures Record(h[..], 2) == Filled("CREATED         ", [])
    ensures Record(h[..], 3) == Filled("UPDATED         ", [])
  {
    hide Filled, Bytes, Record, ZeroFrom;
    h := NewHeader();
    WriteRecord(h, 0, "SUB_NAME        ", []);
    WriteRecord(h, 1, "PARENT          ", Bytes("NONE"));
    WriteRecord(h, 2, "CREATED         ", []);
    WriteRecord(h, 3, "UPDATED         ", []);
  }

  method FillGridHeader(c: Codec, ct: CTable, lsb: bool) returns (h: array<Byte>)
    requires Sized(c) && Writable(ct)
    ensures fresh(h) && h.Length == 176
    ensures forall k | 0 <= k < 11 :: Record(h[..], k) == GridRecord(c, ct, lsb, k)
  {
    hide Filled, Bytes, Record, ZeroFrom, Image, Reverse, Int32Bytes, Seconds, GridRecord, UpperRight;
    var nGSCount := ct.limLam * ct.limPhi;
    var ur := UpperRight(ct);
    h := FillTexts();
    WriteNumber(c, h, 4, "S_LAT   ", Seconds(ct.ll.phi), lsb);
    WriteNumber(c, h, 5, "N_LAT   ", Seconds(ur.phi), lsb);
    WriteNumber(c, h, 6, "E_LONG  ", Seconds(-1.0 * ur.lam), lsb);
    WriteNumber(c, h, 7, "W_LONG  ", Seconds(-1.0 * ct.ll.lam), lsb);
    WriteNumber(c, h, 8, "LAT_INC ", Seconds(ct.del.phi), lsb);
    WriteNumber(c, h, 9, "LONG_INC", Seconds(ct.del.lam), lsb);
    WriteRecord(h, 10, "GS_COUNT", Image(lsb, Int32Bytes(nGSCount)));
    GridRecords(c, ct, lsb, h[..]);
  }

  lemma GridRecords(c: Codec, ct: CTable, lsb: bool, h: seq<Byte>)
    requires Sized(c) && Writable(ct) && |h| == 176
    requires Record(h, 0) == Filled("SUB_NAME        ", [])
    requires Record(h, 1) == Filled("PARENT          ", Bytes("NONE"))
    requires Record(h, 2) == Filled("CREATED         ", [])
    requires Record(h, 3) == Filled("UPDATED         ", [])
    requires Record(h, 4) == Filled("S_LAT   ", Image(lsb, c.double(Seconds(ct.ll.phi))))
    requires Record(h, 5) == Filled("N_LAT   ", Image(lsb, c.double(Seconds(UpperRight(ct).phi))))
    requires Record(h, 6) == Filled("E_LONG  ", Image(lsb, c.double(Seconds(-1.0 * UpperRight(ct).lam))))
    requires Record(h, 7) == Filled("W_LONG  ", Image(lsb, c.double(Seconds(-1.0 * ct.ll.lam))))
    requires Record(h, 8) == Filled("LAT_INC ", Image(lsb, c.double(Seconds(ct.del.phi))))
    requires Record(h, 9) == Filled("LONG_INC", Image(lsb, c.double(Seconds(ct.del.lam))))
    requires Record(h, 10) == Filled("GS_COUNT", Image(lsb, Int32Bytes(ct.limLam * ct.limPhi)))
    ensures forall k | 0 <= k < 11 :: Record(h, k) == GridRecord(c, ct, lsb, k)
  {
    hide Filled, Image, Seconds, UpperRight, Int32Bytes, Record;
  }

  method WriteGridHeader(c: Codec, ct: CTable, lsb: bool) returns (h: array<Byte>)
    requires Sized(c) && Writable(ct)
    ensures fresh(h) && h.Length == 176 && Ordered(c, ct, h[..], 11)
  {
    hide Record, GridRecord;
    h := FillGridHeader(c, ct, lsb);
    NotYetOrdered(c, ct, h[..]);
    if !lsb {
      SwapNumber(c, ct, h, 4);
      SwapNumber(c, ct, h, 5);
      SwapNumber(c, ct, h, 6);
      SwapNumber(c, ct, h, 7);
      SwapNumber(c, ct, h, 8);
      SwapNumber(c, ct, h, 9);
      SwapNumber(c, ct, h, 10);
    }
  }

  lemma NotYetOrdered(c: Codec, ct: CTable, h: seq<Byte>)
    requires Sized(c) && Writable(ct) && |h| == 176
    ensures (forall k | 0 <= k < 11 :: Record(h, k) == GridRecord(c, ct, false, k)) ==> Ordered(c, ct, h, 4)
    ensures (forall k | 0 <= k < 11 :: Record(h, k) == GridRecord(c, ct, true, k)) ==> Ordered(c, ct, h, 11)
  {
    hide Record, Filled;
  }

  function ToSeconds(radians: real): real {
    radians * (3600.0 / (PI / 180.0))
  }

  function ToRadians(seconds: real): real {
    seconds * (PI / 180.0 / 3600.0)
  }

  /** Entry i of a row in the file, counted from the east; the accuracies behind it may be anything. */
  ghost predicate EntryAt(c: Codec, v: LP, row: seq<Byte>, i: nat)
    requires 16 * i + 16 <= |row|
  {
    row[16*i..16*i+4] == c.float(ToSeconds(v.phi)) && row[16*i+4..16*i+8] == c.float(ToSeconds(v.lam))
  }

  lemma {:induction false} CellInside(lim: nat, rows: nat, row: nat, i: nat)
    requires row < rows && i < lim
    ensures row * lim + i < lim * rows
  {
    assert row * lim + lim == (row + 1) * lim <= rows * lim;
  }

  function CellAt(ct: CTable, row: nat, i: nat): LP
    requires Writable(ct) && row < ct.limPhi && i < ct.limLam
  {
    CellInside(ct.limLam, ct.limPhi, row, ct.limLam - i - 1);
    ct.cvs[row*ct.limLam+(ct.limLam-i-1)]
  }

  ghost predicate RowWritten(c: Codec, ct: CTable, row: nat, b: seq<Byte>)
    requires Writable(ct) && row < ct.limPhi
  {
    |b| == 16 * ct.limLam && forall i | 0 <= i < ct.limLam :: EntryAt(c, CellAt(ct, row, i), b, i)
  }

  /** data are the first n rows. */
  ghost predicate RowsWritten(c: Codec, ct: CTable, data: seq<Byte>, n: nat)
    requires Writable(ct) && n <= ct.limPhi
    decreases n
  {
    |data| == Span(16 * ct.limLam, n)
    && (n > 0 ==> var before := Span(16 * ct.limLam, n - 1);
                  RowsWritten(c, ct, data[..before], n - 1) && RowWritten(c, ct, n - 1, data[before..]))
  }

  /** What a file written from the table may look like: everything but the accuracies is fixed. */
  ghost predicate Encodes(c: Codec, ct: CTable, file: seq<Byte>)
    requires Sized(c) && Writable(ct)
  {
    && |file| >= 352 && RowsWritten(c, ct, file[352..], ct.limPhi)
    && (forall k | 0 <= k < 11 :: Record(file[..176], k) == OverviewRecord(k))
    && Ordered(c, ct, file[176..352], 11)
  }

  lemma CopyKeeps(h: seq<Byte>, at: nat, b: seq<Byte>, p: nat, q: nat)
    requires at + |b| <= |h| && p <= q <= |h| && (q <= at || at + |b| <= p)
    ensures Put(h, at, b)[p..q] == h[p..q]
  {
  }

  lemma CopyStored(h: seq<Byte>, at: nat, b: seq<Byte>)
    requires at + |b| <= |h|
    ensures Put(h, at, b)[at..at+|b|] == b
  {
  }

  /** Entry i of the row buffer as it lies in the memory of a host. */
  ghost predicate BufferedAt(c: Codec, v: LP, lsb: bool, buf: seq<Byte>, i: nat)
    requires 16 * i + 16 <= |buf|
  {
    && buf[16*i..16*i+4] == Image(lsb, c.float(ToSeconds(v.phi)))
    && buf[16*i+4..16*i+8] == Image(lsb, c.float(ToSeconds(v.lam)))
  }

  /** Stores one entry in the row buffer. */
  method BufferEntry(c: Codec, v: LP, lsb: bool, buf: array<Byte>, i: nat)
    requires Sized(c) && 16 * i + 16 <= buf.Length
    modifies buf
    ensures BufferedAt(c, v, lsb, buf[..], i)
    ensures buf[..16*i] == old(buf[..16*i])
  {
    hide Image, Put, ToSeconds;
    ghost var was := buf[..];
    var phi, lam := Image(lsb, c.float(ToSeconds(v.phi))), Image(lsb, c.float(ToSeconds(v.lam)));
    assert |phi| == 4 && |lam| == 4;
    Copy(buf, 16 * i, phi);
    ghost var mid := buf[..];
    Copy(buf, 16 * i + 4, lam);
    CopyStored(was, 16 * i, phi);
    CopyStored(mid, 16 * i + 4, lam);
    CopyKeeps(mid, 16 * i + 4, lam, 16 * i, 16 * i + 4);
    CopyKeeps(was, 16 * i, phi, 0, 16 * i);
    CopyKeeps(mid, 16 * i + 4, lam, 0, 16 * i);
  }

  /** Byte-swapping the row buffer of a host brings all entries into the order of the file. */
  lemma SwapBuffered(c: Codec, v: LP, buf: seq<Byte>, lim: nat, i: nat)
    requires i < lim && |buf| == 16 * lim && BufferedAt(c, v, false, buf, i)
    ensures Span(4, 4 * lim) == 16 * lim && EntryAt(c, v, Swapped(buf, 4, 4 * lim), i)
  {
    hide Swapped, Span, Reverse;
    SpanIs(4, 4 * lim);
    SpanIs(4, 4 * i);
    SpanIs(4, 4 * i + 1);
    SwappedAt(buf, 4, 4 * lim, 4 * i);
    SwappedAt(buf, 4, 4 * lim, 4 * i + 1);
    ReverseTwice(c.float(ToSeconds(v.phi)));
    ReverseTwice(c.float(ToSeconds(v.lam)));
  }

  /** The first cells of a row lie in the buffer. */
  ghost predicate RowBuffered(c: Codec, ct: CTable, lsb: bool, row: nat, buf: seq<Byte>, i: nat)
    requires Writable(ct) && row < ct.limPhi && |buf| == 16 * ct.limLam
  {
    i <= ct.limLam && forall j | 0 <= j < i :: BufferedAt(c, CellAt(ct, row, j), lsb, buf, j)
  }

  /** Fills the row buffer for one row, from east to west, and brings it into the order of the file. */
  method WriteRow(c: Codec, ct: CTable, lsb: bool, row: nat, buf: array<Byte>)
    requires Sized(c) && Writable(ct) && row < ct.limPhi && buf.Length == 16 * ct.limLam
    modifies buf
    ensures RowWritten(c, ct, row, buf[..])
  {
    hide BufferedAt, RowWritten, Image, CellAt, Swapped, Span;
    var i := 0;
    while i < ct.limLam
      invariant RowBuffered(c, ct, lsb, row, buf[..], i)
    {
      ghost var was := buf[..];
      BufferEntry(c, CellAt(ct, row, i), lsb, buf, i);
      RowBufferedStep(c, ct, lsb, row, was, buf[..], i);
      i := i + 1;
    }
    RowFinished(c, ct, lsb, row, buf[..]);
    if !lsb {
      ghost var filled := buf[..];
      SpanIs(4, 4 * ct.limLam);
      SwapWords(buf, 0, 4, 4 * ct.limLam);
      assert filled[0..16*ct.limLam] == filled && filled[..0] == filled[16*ct.limLam..] == [];
      assert buf[..] == Swapped(filled, 4, 4 * ct.limLam);
    }
  }

  lemma RowBufferedStep(c: Codec, ct: CTable, lsb: bool, row: nat, was: seq<Byte>, now: seq<Byte>, i: nat)
    requires Writable(ct) && row < ct.limPhi && |was| == |now| == 16 * ct.limLam && i < ct.limLam
    requires RowBuffered(c, ct, lsb, row, was, i)
    requires now[..16*i] == was[..16*i] && BufferedAt(c, CellAt(ct, row, i), lsb, now, i)
    ensures RowBuffered(c, ct, lsb, row, now, i + 1)
  {
    hide BufferedAt, CellAt;
    forall j | 0 <= j < i ensures BufferedAt(c, CellAt(ct, row, j), lsb, now, j) {
      BufferedKept(c, CellAt(ct, row, j), lsb, was, now, i, j);
    }
  }

  /** On a host of the other byte order the row has to be swapped. */
  lemma RowFinished(c: Codec, ct: CTable, lsb: bool, row: nat, buf: seq<Byte>)
    requires Sized(c) && Writable(ct) && row < ct.limPhi && |buf| == 16 * ct.limLam
    requires RowBuffered(c, ct, lsb, row, buf, ct.limLam)
    ensures Span(4, 4 * ct.limLam) == 16 * ct.limLam
    ensures RowWritten(c, ct, row, if lsb then buf else Swapped(buf, 4, 4 * ct.limLam))
  {
    hide BufferedAt, EntryAt, CellAt, Swapped, Span;
    SpanIs(4, 4 * ct.limLam);
    var out := if lsb then buf else Swapped(buf, 4, 4 * ct.limLam);
    forall j | 0 <= j < ct.limLam ensures EntryAt(c, CellAt(ct, row, j), out, j) {
      if lsb {
        BufferedHere(c, CellAt(ct, row, j), buf, j);
      } else {
        SwapBuffered(c, CellAt(ct, row, j), buf, ct.limLam, j);
      }
    }
  }

  lemma BufferedKept(c: Codec, v: LP, lsb: bool, was: seq<Byte>, now: seq<Byte>, i: nat, j: nat)
    requires j < i && 16 * i <= |was| == |now| && BufferedAt(c, v, lsb, was, j)
    requires now[..16*i] == was[..16*i]
    ensures BufferedAt(c, v, lsb, now, j)
  {
    hide Image;
    SameWord(was, now, 16 * i, 16 * j);
    SameWord(was, now, 16 * i, 16 * j + 4);
  }

  lemma SameWord(was: seq<Byte>, now: seq<Byte>, n: nat, p: nat)
    requires p + 4 <= n <= |was| == |now| && now[..n] == was[..n]
    ensures now[p..p+4] == was[p..p+4]
  {
    SliceOfPrefix(was, n, p, p + 4);
    SliceOfPrefix(now, n, p, p + 4);
  }

  lemma BufferedHere(c: Codec, v: LP, buf: seq<Byte>, j: nat)
    requires 16 * j + 16 <= |buf| && BufferedAt(c, v, true, buf, j)
    ensures EntryAt(c, v, buf, j)
  {
  }

  /** Writes the table as an NTv2 file with one grid. */
  method WriteNtv2(c: Codec, ct: CTable, lsb: bool) returns (file: seq<Byte>)
    requires Sized(c) && Writable(ct)
    ensures Encodes(c, ct, file)
  {
    hide Ordered, Record, OverviewRecord, RowWritten;
    var overview := WriteOverview();
    var header := WriteGridHeader(c, ct, lsb);
    ghost var top, grid := overview[..], header[..];
    file := overview[..] + header[..];
    var buf := new Byte[16*ct.limLam];
    var row := 0;
    ghost var data: seq<Byte> := [];
    while row < ct.limPhi
      invariant 0 <= row <= ct.limPhi && file == top + grid + data
      invariant RowsWritten(c, ct, data, row)
    {
      WriteRow(c, ct, lsb, row, buf);
      ghost var more := data + buf[..];
      assert more[..|data|] == data && more[|data|..] == buf[..];
      file := file + buf[..];
      data := more;
      row := row + 1;
    }
    assert file[..176] == top && file[176..352] == grid && file[352..] == data;
  }
}
