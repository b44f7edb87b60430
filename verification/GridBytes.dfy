/** Where in an NTv2 file what stands, byte by byte. */
module GridBytes {
  import opened ByteOrder
  import opened GridInfo
  import opened GridTables
  import opened Nad2bin
  import opened Options

  lemma FieldBytes(h: seq<Byte>, k: nat, text: string, value: seq<Byte>)
    requires |h| == 176 && k < 11 && |text| == 8 && |value| <= 8 && Record(h, k) == Filled(text, value)
    ensures h[16*k..16*k+8] == Bytes(text) && h[16*k+8..16*k+8+|value|] == value
  {
    FilledParts(text, value);
    hide Filled, Bytes;
    Nested(h, 16 * k, 16, 0, 8);
    Nested(h, 16 * k, 16, 8, 8 + |value|);
  }

  lemma LongParts(text: string, value: seq<Byte>)
    requires |text| == 16 && |value| <= 8
    ensures Filled(text, value)[..8] == Bytes(text[..8]) && Filled(text, value)[8..8+|value|] == value
  {
  }

  lemma LongFieldBytes(h: seq<Byte>, k: nat, text: string, value: seq<Byte>)
    requires |h| == 176 && k < 11 && |text| == 16 && |value| <= 8 && Record(h, k) == Filled(text, value)
    ensures h[16*k..16*k+8] == Bytes(text[..8]) && h[16*k+8..16*k+8+|value|] == value
  {
    LongParts(text, value);
    hide Filled, Bytes;
    Nested(h, 16 * k, 16, 0, 8);
    Nested(h, 16 * k, 16, 8, 8 + |value|);
  }

  /** It names the unit and the two datums. */
  lemma OverviewNames(c: Codec, ct: CTable, file: seq<Byte>)
    requires Sized(c) && Writable(ct) && Encodes(c, ct, file)
    ensures file[48..56] == Bytes("GS_TYPE ") && file[56..63] == Bytes("SECONDS")
    ensures file[80..88] == Bytes("SYSTEM_F") && file[88..93] == Bytes("NAD27")
    ensures file[96..104] == Bytes("SYSTEM_T") && file[104..109] == Bytes("NAD83")
  {
    var h := file[..176];
    hide Record, Filled, Bytes, Ordered, RowsWritten;
    LongFieldBytes(h, 3, "GS_TYPE         ", Bytes("SECONDS"));
    LongFieldBytes(h, 5, "SYSTEM_F        ", Bytes("NAD27"));
    LongFieldBytes(h, 6, "SYSTEM_T        ", Bytes("NAD83"));
    assert "GS_TYPE         "[..8] == "GS_TYPE " && "SYSTEM_F        "[..8] == "SYSTEM_F";
    assert "SYSTEM_T        "[..8] == "SYSTEM_T";
  }

  /** A grid header begins with its name and the name of its parent, of which there is none. */
  lemma HeaderNames(c: Codec, ct: CTable, h: seq<Byte>)
    requires Sized(c) && Writable(ct) && Ordered(c, ct, h, 11)
    ensures h[0..8] == Bytes("SUB_NAME") && h[16..24] == Bytes("PARENT  ") && h[24..28] == Bytes("NONE")
  {
    OrderedAt(c, ct, h, 0);
    OrderedAt(c, ct, h, 1);
    hide Record, Filled, Bytes, Ordered;
    LongFieldBytes(h, 0, "SUB_NAME        ", []);
    LongFieldBytes(h, 1, "PARENT          ", Bytes("NONE"));
    assert "SUB_NAME        "[..8] == "SUB_NAME" && "PARENT          "[..8] == "PARENT  ";
  }

  /** The overview header says that there are eleven records of either kind and one grid. */
  lemma OverviewBytes(c: Codec, ct: CTable, file: seq<Byte>)
    requires Sized(c) && Writable(ct) && Encodes(c, ct, file)
    ensures file[0..8] == Bytes("NUM_OREC") && file[8] == 11
    ensures file[16..24] == Bytes("NUM_SREC") && file[24] == 11
    ensures file[32..40] == Bytes("NUM_FILE") && file[40] == 1
  {
    var h := file[..176];
    hide Record, Filled, Bytes, Ordered, RowsWritten;
    FieldBytes(h, 0, "NUM_OREC", [11]);
    FieldBytes(h, 1, "NUM_SREC", [11]);
    FieldBytes(h, 2, "NUM_FILE", [1]);
    Single(h, 8, 11);
    Single(h, 24, 11);
    Single(h, 40, 1);
  }

  lemma Single(h: seq<Byte>, p: nat, b: Byte)
    requires p < |h| && h[p..p+1] == [b]
    ensures h[p] == b
  {
    assert h[p..p+1][0] == h[p];
  }

  lemma NumberBytes(c: Codec, ct: CTable, h: seq<Byte>, k: nat)
    requires Sized(c) && Writable(ct) && Ordered(c, ct, h, 11) && 4 <= k < 10
    ensures h[16*k..16*k+8] == Bytes(NumberName(k)) && h[16*k+8..16*k+16] == c.double(Number(ct, k))
  {
    OrderedAt(c, ct, h, k);
    hide Record, Filled, Bytes, Number, NumberName;
    FieldBytes(h, k, NumberName(k), c.double(Number(ct, k)));
  }

  /** The grid header holds the limits in seconds, longitudes positive to the west; on hosts of either
      byte order the least significant byte comes first. */
  lemma HeaderLimits(c: Codec, ct: CTable, h: seq<Byte>)
    requires Sized(c) && Writable(ct) && Ordered(c, ct, h, 11)
    ensures h[64..72] == Bytes("S_LAT   ") && h[72..80] == c.double(Seconds(ct.ll.phi))
    ensures h[80..88] == Bytes("N_LAT   ") && h[88..96] == c.double(Seconds(UpperRight(ct).phi))
    ensures h[96..104] == Bytes("E_LONG  ") && h[104..112] == c.double(Seconds(-1.0 * UpperRight(ct).lam))
    ensures h[112..120] == Bytes("W_LONG  ") && h[120..128] == c.double(Seconds(-1.0 * ct.ll.lam))
  {
    hide Ordered, Bytes, Seconds, UpperRight;
    NumberBytes(c, ct, h, 4);
    NumberBytes(c, ct, h, 5);
    NumberBytes(c, ct, h, 6);
    NumberBytes(c, ct, h, 7);
  }

  /** Behind them stand the cell size and the number of cells. */
  lemma HeaderCells(c: Codec, ct: CTable, h: seq<Byte>)
    requires Sized(c) && Writable(ct) && Ordered(c, ct, h, 11)
    ensures h[128..136] == Bytes("LAT_INC ") && h[136..144] == c.double(Seconds(ct.del.phi))
    ensures h[144..152] == Bytes("LONG_INC") && h[152..160] == c.double(Seconds(ct.del.lam))
    ensures h[160..168] == Bytes("GS_COUNT") && h[168..172] == Int32Bytes(ct.limLam * ct.limPhi)
  {
    hide Record, Filled, Bytes, Seconds, Int32Bytes;
    NumberBytes(c, ct, h, 8);
    NumberBytes(c, ct, h, 9);
    OrderedAt(c, ct, h, 10);
    FieldBytes(h, 10, "GS_COUNT", Int32Bytes(ct.limLam * ct.limPhi));
  }

  function Unsigned(b: seq<Byte>): int {
    if |b| == 0 then 0 else b[0] as int + 256 * Unsigned(b[1..])
  }

  /** Four bytes are a signed number, least significant byte first. */
  lemma Int32Signed(b: seq<Byte>)
    requires |b| == 4
    ensures -0x8000_0000 <= Int32(b) < 0x8000_0000
    ensures Int32(b) == Unsigned(b) || Int32(b) == Unsigned(b) - 0x1_0000_0000
  {
    assert Unsigned(b[3..]) == b[3] as int && Unsigned(b[2..]) == b[2] as int + 256 * b[3] as int;
    assert Unsigned(b[1..]) == b[1] as int + 256 * Unsigned(b[2..]);
  }

  /** A degree is 3600 seconds, for positions and for shifts. */
  lemma SecondsOfDegree()
    ensures Seconds(0.0174532925199432958) == 3600.0
    ensures ToSeconds(3.14159265358979323846) == 180.0 * 3600.0
  {
  }

  /** Whatever begins differently is not a grid header. */
  lemma NameChecked(c: Codec, h: seq<Byte>)
    requires |h| == 176 && h[..8] != [83, 85, 66, 95, 78, 65, 77, 69]
    ensures ParseGrid(c, h) == None
  {
    assert Bytes("SUB_NAME") == [83, 85, 66, 95, 78, 65, 77, 69];
  }

  lemma {:induction false} RowThere(c: Codec, ct: CTable, data: seq<Byte>, n: nat, row: nat)
    requires Writable(ct) && row < n <= ct.limPhi && RowsWritten(c, ct, data, n)
    ensures Span(16 * ct.limLam, row) + 16 * ct.limLam <= |data|
    ensures var p := Span(16 * ct.limLam, row); RowWritten(c, ct, row, data[p..p+16*ct.limLam])
    decreases n
  {
    hide RowWritten;
    var before := Span(16 * ct.limLam, n - 1);
    if row < n - 1 {
      RowThere(c, ct, data[..before], n - 1, row);
      var p := Span(16 * ct.limLam, row);
      SliceOfPrefix(data, before, p, p + 16 * ct.limLam);
    } else {
      assert data[before..] == data[before..before+16*ct.limLam];
    }
  }

  lemma EntryBytes(c: Codec, v: LP, data: seq<Byte>, p: nat, size: nat, i: nat)
    requires p + size <= |data| && 16 * i + 16 <= size && EntryAt(c, v, data[p..p+size], i)
    ensures data[p+16*i..p+16*i+4] == c.float(ToSeconds(v.phi))
    ensures data[p+16*i+4..p+16*i+8] == c.float(ToSeconds(v.lam))
  {
    hide ToSeconds;
    Nested(data, p, size, 16 * i, 16 * i + 4);
    Nested(data, p, size, 16 * i + 4, 16 * i + 8);
  }

  lemma NodeCell(ct: CTable, i: nat, j: nat)
    requires Writable(ct) && i < ct.limLam && j < ct.limPhi
    ensures j * ct.limLam + i < |ct.cvs| && CellAt(ct, j, ct.limLam - 1 - i) == ct.cvs[j*ct.limLam+i]
  {
    CellInside(ct.limLam, ct.limPhi, j, i);
  }

  /** The shift of the node in column i and row j stands in row j of the cells, counted from the east,
      latitude first, in seconds. */
  lemma NodeBytes(c: Codec, ct: CTable, data: seq<Byte>, i: nat, j: nat, at: nat)
    requires Writable(ct) && i < ct.limLam && j < ct.limPhi && RowsWritten(c, ct, data, ct.limPhi)
    requires at == 16 * ct.limLam * j + 16 * (ct.limLam - 1 - i)
    ensures j * ct.limLam + i < |ct.cvs| && at + 16 <= |data|
    ensures data[at..at+4] == c.float(ToSeconds(ct.cvs[j*ct.limLam+i].phi))
    ensures data[at+4..at+8] == c.float(ToSeconds(ct.cvs[j*ct.limLam+i].lam))
  {
    hide CellAt, EntryAt, RowsWritten, Span, ToSeconds;
    var k, p := ct.limLam - 1 - i, Span(16 * ct.limLam, j);
    NodeCell(ct, i, j);
    RowThere(c, ct, data, ct.limPhi, j);
    SpanIs(16 * ct.limLam, j);
    EntryBytes(c, CellAt(ct, j, k), data, p, 16 * ct.limLam, k);
  }
}
