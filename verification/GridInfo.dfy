/** Reading NTv2 files: the headers of all grids, and on demand the cells of one grid. */
module GridInfo {
  import opened ByteOrder
  import opened GridTables
  import opened Nad2bin
  import opened Options
  import opened Reals

  /** A grid known from its header; its cells start at offset in the file. */
  datatype Sub = Sub(ct: CTable, offset: nat)

  /** Conversion of a double to an int drops the fraction. */
  function Truncate(x: real): int {
    if x < 0.0 then -((-x).Floor) else x.Floor
  }

  function Value(h: seq<Byte>, k: nat, size: nat): (r: seq<Byte>)
    requires |h| == 176 && k < 11 && size <= 8
    ensures |r| == size
  {
    Record(h, k)[8..8+size]
  }

  function Double(c: Codec, h: seq<Byte>, k: nat): real
    requires |h| == 176 && k < 11
  {
    c.undouble(Value(h, k, 8))
  }

  /** Nodes from one end of an axis to the other; both ends count. */
  function Nodes(low: real, high: real, step: real): int
    requires step != 0.0
  {
    Truncate(Abs(high - low) / step + 0.5) + 1
  }

  function FromSeconds(angle: real): real {
    angle * (DEG_TO_RAD / 3600.0)
  }

  /** The table, still without cells, that a grid header describes; none if it is not a grid header,
      has an increment of zero, or counts a different number of cells. */
  function ParseGrid(c: Codec, h: seq<Byte>): Option<CTable>
    requires |h| == 176
  {
    if h[..8] != Bytes("SUB_NAME") then None
    else
      var ll := LP(-Double(c, h, 7), Double(c, h, 4));
      var ur := LP(-Double(c, h, 6), Double(c, h, 5));
      var del := LP(Double(c, h, 9), Double(c, h, 8));
      if del.lam == 0.0 || del.phi == 0.0 then None
      else
        var limLam, limPhi := Nodes(ll.lam, ur.lam, del.lam), Nodes(ll.phi, ur.phi, del.phi);
        if Int32(Value(h, 10, 4)) != limLam * limPhi then None
        else
          Some(CTable(LP(FromSeconds(ll.lam), FromSeconds(ll.phi)), LP(FromSeconds(del.lam), FromSeconds(del.phi)),
                      limLam, limPhi, []))
  }

  /** Moving the read position; a move to before the start of the file fails. */
  function Seek(pos: nat, offset: int): nat {
    if pos + offset < 0 then pos else pos + offset
  }

  /** The next n grids of the file, the first one's header at pos. */
  function Subfiles(c: Codec, file: seq<Byte>, pos: nat, n: int): Option<seq<Sub>>
    decreases n
  {
    if n <= 0 then Some([])
    else if pos + 176 > |file| then None
    else
      match ParseGrid(c, file[pos..pos+176])
      case None => None
      case Some(ct) =>
        match Subfiles(c, file, Seek(pos + 176, ct.limLam * ct.limPhi * 16), n - 1)
        case None => None
        case Some(rest) => Some([Sub(ct, pos + 176)] + rest)
  }

  /** All grids of a file. */
  function Grids(c: Codec, file: seq<Byte>): Option<seq<Sub>> {
    if |file| < 176 then None else Subfiles(c, file, 176, Int32(Value(file[..176], 2, 4)))
  }

  function EntryOf(c: Codec, row: seq<Byte>, i: nat): LP
    requires 16 * i + 16 <= |row|
  {
    LP(ToRadians(c.unfloat(row[16*i+4..16*i+8])), ToRadians(c.unfloat(row[16*i..16*i+4])))
  }

  /** The cells of a row from west to east; the file has them from east to west. */
  function RowCells(c: Codec, lim: nat, row: seq<Byte>): (r: seq<LP>)
    requires |row| == 16 * lim
    ensures |r| == lim
  {
    seq(lim, k requires 0 <= k < lim => EntryOf(c, row, lim - k - 1))
  }

  function RowsCells(c: Codec, lim: nat, data: seq<Byte>, n: nat): (r: seq<LP>)
    requires |data| == Span(16 * lim, n)
    ensures |r| == lim * n
    decreases n
  {
    if n == 0 then []
    else
      assert lim * n == lim * (n - 1) + lim;
      var before := Span(16 * lim, n - 1);
      RowsCells(c, lim, data[..before], n - 1) + RowCells(c, lim, data[before..])
  }

  /** The cells of a grid; none if their number is negative or the file ends before them. */
  function Cells(c: Codec, file: seq<Byte>, g: Sub): Option<seq<LP>> {
    if g.ct.limLam < 0 || (g.ct.limLam > 0 && g.ct.limPhi < 0) then None
    else if g.ct.limPhi <= 0 || g.ct.limLam == 0 then Some([])
    else
      var size := Span(16 * g.ct.limLam, g.ct.limPhi);
      if g.offset + size > |file| then None
      else Some(RowsCells(c, g.ct.limLam, file[g.offset..g.offset+size], g.ct.limPhi))
  }

  // ----- The reader

  lemma HostValue(c: Codec, h: seq<Byte>, now: seq<Byte>, lsb: bool, k: nat, size: nat)
    requires |h| == |now| == 176 && k < 11 && size <= 8
    requires Record(now, k) == if lsb then Record(h, k) else Put(Record(h, k), 8, Reverse(Value(h, k, size)))
    ensures Image(lsb, Value(now, k, size)) == Value(h, k, size)
  {
    ReverseTwice(Value(h, k, size));
  }

  /** Record k of a header in memory: as in the file h, with its value in the order of the host. */
  ghost predicate Hosted(h: seq<Byte>, now: seq<Byte>, lsb: bool, k: nat, size: nat)
    requires |h| == |now| == 176 && k < 11 && size <= 8
  {
    Record(now, k) == if lsb then Record(h, k) else Put(Record(h, k), 8, Reverse(Value(h, k, size)))
  }

  function SizeOf(k: nat): nat {
    if k == 10 then 4 else 8
  }

  /** Records 4 to 10 before record k are in the order of the host, the others as in the file. */
  ghost predicate HostedTo(h: seq<Byte>, now: seq<Byte>, k: nat) {
    && |h| == |now| == 176
    && forall j | 0 <= j < 11 :: Hosted(h, now, !(4 <= j < k), j, SizeOf(j))
  }

  method SwapHeader(h: array<Byte>, k: nat, ghost file: seq<Byte>)
    requires 4 <= k < 11 && HostedTo(file, h[..], k)
    modifies h
    ensures HostedTo(file, h[..], k + 1)
  {
    hide Record, Put, Reverse;
    SwapField(h, k, if k == 10 then 4 else 8);
  }

  /** Takes a grid header from the file into memory and brings its numbers into the host's order. */
  method LoadHeader(file: seq<Byte>, pos: nat, lsb: bool) returns (h: array<Byte>)
    requires pos + 176 <= |file|
    ensures fresh(h) && h.Length == 176 && h[..8] == file[pos..pos+8]
    ensures forall k | 4 <= k < 11 :: Hosted(file[pos..pos+176], h[..], lsb, k, SizeOf(k))
  {
    hide Record, Put, Reverse;
    h := new Byte[176](i requires 0 <= i < 176 => file[pos+i]);
    ghost var raw := file[pos..pos+176];
    assert h[..] == raw;
    if !lsb {
      SwapHeader(h, 4, raw);
      SwapHeader(h, 5, raw);
      SwapHeader(h, 6, raw);
      SwapHeader(h, 7, raw);
      SwapHeader(h, 8, raw);
      SwapHeader(h, 9, raw);
      SwapHeader(h, 10, raw);
      assert Hosted(raw, h[..], !(4 <= 0 < 11), 0, SizeOf(0));
    }
    StartKept(raw, h[..]);
    assert raw[..8] == file[pos..pos+8];
  }

  lemma StartKept(h: seq<Byte>, now: seq<Byte>)
    requires |h| == |now| == 176 && Record(h, 0) == Record(now, 0)
    ensures h[..8] == now[..8]
  {
    assert h[..8] == Record(h, 0)[..8];
    assert now[..8] == Record(now, 0)[..8];
  }

  /** Takes the overview header into memory and brings its numbers into the host's order. */
  method LoadOverview(file: seq<Byte>, lsb: bool) returns (h: array<Byte>)
    requires |file| >= 176
    ensures fresh(h) && h.Length == 176 && Hosted(file[..176], h[..], lsb, 2, 4)
  {
    hide Record, Put, Reverse;
    h := new Byte[176](i requires 0 <= i < 176 => file[i]);
    assert h[..] == file[..176];
    if !lsb {
      SwapField(h, 0, 4);
      SwapField(h, 1, 4);
      SwapField(h, 2, 4);
      SwapField(h, 7, 8);
      SwapField(h, 8, 8);
      SwapField(h, 9, 8);
      SwapField(h, 10, 8);
    }
  }

  /** The number in record k of a header in memory. */
  method ReadDouble(c: Codec, h: array<Byte>, lsb: bool, k: nat, ghost file: seq<Byte>) returns (x: real)
    requires |file| == 176 && h.Length == 176 && 4 <= k < 10 && Hosted(file, h[..], lsb, k, SizeOf(k))
    ensures x == Double(c, file, k)
  {
    hide Record, Put, Reverse;
    HostValue(c, file, h[..], lsb, k, 8);
    FieldSlice(h[..], k, 8);
    x := c.undouble(Image(lsb, h[..][16*k+8..16*k+16]));
  }

  method ReadInt(c: Codec, h: array<Byte>, lsb: bool, k: nat, ghost file: seq<Byte>) returns (n: int)
    requires |file| == 176 && h.Length == 176 && k < 11 && Hosted(file, h[..], lsb, k, 4)
    ensures n == Int32(Value(file, k, 4))
  {
    hide Record, Put, Reverse, Int32;
    HostValue(c, file, h[..], lsb, k, 4);
    FieldSlice(h[..], k, 4);
    n := Int32(Image(lsb, h[..][16*k+8..16*k+12]));
  }

  /** Reads one grid header. */
  method ReadGrid(c: Codec, file: seq<Byte>, pos: nat, lsb: bool) returns (r: Option<CTable>)
    requires pos + 176 <= |file|
    ensures r == ParseGrid(c, file[pos..pos+176])
  {
    hide Record, Hosted, Double, Value, Int32, Nodes, FromSeconds, Bytes;
    ghost var raw := file[pos..pos+176];
    var h := LoadHeader(file, pos, lsb);
    assert raw[..8] == file[pos..pos+8];
    if h[..8] != Bytes("SUB_NAME") {
      return None;
    }
    var ll, ur, del: LP;
    var x := ReadDouble(c, h, lsb, 7, raw);
    var y := ReadDouble(c, h, lsb, 4, raw);
    ll := LP(-x, y);
    x := ReadDouble(c, h, lsb, 6, raw);
    y := ReadDouble(c, h, lsb, 5, raw);
    ur := LP(-x, y);
    x := ReadDouble(c, h, lsb, 9, raw);
    y := ReadDouble(c, h, lsb, 8, raw);
    del := LP(x, y);
    if del.lam == 0.0 || del.phi == 0.0 {
      return None;
    }
    var limLam, limPhi := Nodes(ll.lam, ur.lam, del.lam), Nodes(ll.phi, ur.phi, del.phi);
    assert SizeOf(10) == 4;
    var gsCount := ReadInt(c, h, lsb, 10, raw);
    if gsCount != limLam * limPhi {
      return None;
    }
    ll := LP(FromSeconds(ll.lam), FromSeconds(ll.phi));
    del := LP(FromSeconds(del.lam), FromSeconds(del.phi));
    r := Some(CTable(ll, del, limLam, limPhi, []));
  }

  /** Reads the headers of all grids and skips their cells. */
  method InitNtv2(c: Codec, file: seq<Byte>, lsb: bool) returns (r: Option<seq<Sub>>)
    ensures r == Grids(c, file)
  {
    hide Record, ParseGrid, Int32, Hosted;
    if |file| < 176 {
      return None;
    }
    var h := LoadOverview(file, lsb);
    var numSubfiles := ReadInt(c, h, lsb, 2, file[..176]);
    var gilist: seq<Sub> := [];
    var pos: nat := 176;
    assert Behind([], Grids(c, file)) == Grids(c, file) by { NothingBefore(Grids(c, file)); }
    var subfile := 0;
    while subfile < numSubfiles
      invariant 0 <= subfile && (numSubfiles >= 0 ==> subfile <= numSubfiles)
      invariant Grids(c, file) == Behind(gilist, Subfiles(c, file, pos, numSubfiles - subfile))
    {
      if pos + 176 > |file| {
        return None;
      }
      var ct := ReadGrid(c, file, pos, lsb);
      if ct.None? {
        return None;
      }
      var next := Seek(pos + 176, ct.value.limLam * ct.value.limPhi * 16);
      BehindStep(gilist, Sub(ct.value, pos + 176), Subfiles(c, file, next, numSubfiles - subfile - 1));
      gilist := gilist + [Sub(ct.value, pos + 176)];
      pos := next;
      subfile := subfile + 1;
    }
    r := Some(gilist);
    assert gilist + [] == gilist;
  }

  function Behind(done: seq<Sub>, rest: Option<seq<Sub>>): Option<seq<Sub>> {
    if rest.None? then None else Some(done + rest.value)
  }

  lemma NothingBefore(rest: Option<seq<Sub>>)
    ensures Behind([], rest) == rest
  {
    if rest.Some? { assert [] + rest.value == rest.value; }
  }

  lemma BehindStep(done: seq<Sub>, g: Sub, rest: Option<seq<Sub>>)
    ensures Behind(done, if rest.None? then None else Some([g] + rest.value)) == Behind(done + [g], rest)
  {
    if rest.Some? { assert done + ([g] + rest.value) == done + [g] + rest.value; }
  }

  /** The entries of a row of the file as the host stores them. */
  lemma HostEntry(row: seq<Byte>, lsb: bool, lim: nat, p: nat)
    requires |row| == 16 * lim && p < 4 * lim
    ensures Span(4, 4 * lim) == 16 * lim
    ensures Image(lsb, (if lsb then row else Swapped(row, 4, 4 * lim))[4*p..4*p+4]) == row[4*p..4*p+4]
  {
    hide Swapped, Span, Reverse;
    SpanIs(4, 4 * lim);
    SpanIs(4, p);
    SwappedAt(row, 4, 4 * lim, p);
    ReverseTwice(row[4*p..4*p+4]);
  }

  lemma HostEntries(row: seq<Byte>, buf: seq<Byte>, lsb: bool, lim: nat)
    requires |row| == |buf| == 16 * lim && Span(4, 4 * lim) == 16 * lim
    requires buf == if lsb then row else Swapped(row, 4, 4 * lim)
    ensures forall p | 0 <= p < 4 * lim :: Image(lsb, buf[4*p..4*p+4]) == row[4*p..4*p+4]
  {
    hide Swapped, Reverse, Image, Span;
    forall p | 0 <= p < 4 * lim ensures Image(lsb, buf[4*p..4*p+4]) == row[4*p..4*p+4] {
      HostEntry(row, lsb, lim, p);
    }
  }

  /** Brings a row into the order of the host. */
  method LoadRow(file: seq<Byte>, pos: nat, lim: nat, lsb: bool, buf: array<Byte>)
    requires buf.Length == 16 * lim && pos + 16 * lim <= |file|
    modifies buf
    ensures forall p | 0 <= p < 4 * lim :: Image(lsb, buf[..][4*p..4*p+4]) == file[pos..pos+16*lim][4*p..4*p+4]
  {
    hide Swapped, Reverse, Image, Span;
    ghost var row := file[pos..pos+16*lim];
    SpanIs(4, 4 * lim);
    Copy(buf, 0, file[pos..pos+16*lim]);
    assert buf[..] == row;
    if !lsb {
      SwapWords(buf, 0, 4, 4 * lim);
      assert row[0..16*lim] == row;
      assert buf[..] == Swapped(row, 4, 4 * lim);
    }
    HostEntries(row, buf[..], lsb, lim);
  }

  /** Puts the entries of one row, which run from east to west, into the table. */
  method StoreRow(c: Codec, buf: array<Byte>, lsb: bool, lim: nat, cvs: array<LP>, at: nat, ghost row: seq<Byte>)
    requires buf.Length == |row| == 16 * lim && at + lim <= cvs.Length
    requires forall p | 0 <= p < 4 * lim :: Image(lsb, buf[..][4*p..4*p+4]) == row[4*p..4*p+4]
    modifies cvs
    ensures cvs[..at] == old(cvs[..at]) && cvs[at..at+lim] == RowCells(c, lim, row)
  {
    hide Image, ToRadians;
    var i := 0;
    while i < lim
      invariant i <= lim && cvs[..at] == old(cvs[..at])
      invariant forall j | 0 <= j < i :: cvs[at+(lim-j-1)] == EntryOf(c, row, j)
    {
      assert row[4*(4*i)..4*(4*i)+4] == row[16*i..16*i+4];
      assert row[4*(4*i+1)..4*(4*i+1)+4] == row[16*i+4..16*i+8];
      var phi := ToRadians(c.unfloat(Image(lsb, buf[..][4*(4*i)..4*(4*i)+4])));
      var lam := ToRadians(c.unfloat(Image(lsb, buf[..][4*(4*i+1)..4*(4*i+1)+4])));
      cvs[at+(lim-i-1)] := LP(lam, phi);
      i := i + 1;
    }
    forall k | 0 <= k < lim ensures cvs[at+k] == RowCells(c, lim, row)[k] {
      var j := lim - k - 1;
      assert cvs[at+(lim-j-1)] == EntryOf(c, row, j);
    }
  }

  lemma {:induction false} SpanShort(size: nat, n: nat, rows: nat)
    requires n < rows
    ensures Span(size, n) + size <= Span(size, rows)
  {
    SpanGrows(size, n + 1, rows);
  }

  lemma RowsCellsStep(c: Codec, lim: nat, data: seq<Byte>, n: nat)
    requires |data| == Span(16 * lim, n + 1)
    ensures var before := Span(16 * lim, n);
            RowsCells(c, lim, data, n + 1) == RowsCells(c, lim, data[..before], n) + RowCells(c, lim, data[before..])
  {
  }

  /** Loads the cells of a grid, turning its rows around. */
  method LoadCells(c: Codec, file: seq<Byte>, g: Sub, lsb: bool) returns (r: Option<seq<LP>>)
    ensures r == Cells(c, file, g)
  {
    if g.ct.limLam < 0 || (g.ct.limLam > 0 && g.ct.limPhi < 0) {
      return None;
    }
    if g.ct.limPhi <= 0 || g.ct.limLam == 0 {
      return Some([]);
    }
    r := LoadRows(c, file, g.offset, g.ct.limLam, g.ct.limPhi, lsb);
  }

  /** Loads the next row. */
  method NextRow(c: Codec, file: seq<Byte>, ghost offset: nat, pos: nat, lim: nat, lsb: bool, buf: array<Byte>,
                 cvs: array<LP>, at: nat, ghost row: nat)
    requires offset <= pos == offset + Span(16 * lim, row) && pos + 16 * lim <= |file|
    requires buf.Length == 16 * lim && at + lim <= cvs.Length
    requires cvs[..at] == RowsCells(c, lim, file[offset..pos], row)
    modifies buf, cvs
    ensures Span(16 * lim, row + 1) == Span(16 * lim, row) + 16 * lim
    ensures cvs[..at+lim] == RowsCells(c, lim, file[offset..pos+16*lim], row + 1)
  {
    hide RowsCells, RowCells, Image;
    LoadRow(file, pos, lim, lsb, buf);
    StoreRow(c, buf, lsb, lim, cvs, at, file[pos..pos+16*lim]);
    ghost var data := file[offset..pos+16*lim];
    assert data[..pos-offset] == file[offset..pos] && data[pos-offset..] == file[pos..pos+16*lim];
    RowsCellsStep(c, lim, data, row);
    assert cvs[..at+lim] == cvs[..at] + cvs[at..at+lim];
  }

  method LoadRows(c: Codec, file: seq<Byte>, offset: nat, lim: nat, rows: nat, lsb: bool) returns (r: Option<seq<LP>>)
    requires lim > 0 && rows > 0
    ensures r == if offset + Span(16 * lim, rows) > |file| then None
                 else Some(RowsCells(c, lim, file[offset..offset+Span(16*lim, rows)], rows))
  {
    hide RowsCells, RowCells, Image, Span;
    var buf := new Byte[16*lim];
    var cvs := new LP[lim*rows];
    var pos, at := offset, 0;
    var row := 0;
    NoRows(c, lim);
    while row < rows
      invariant row <= rows && pos == offset + Span(16 * lim, row)
      invariant row > 0 ==> pos <= |file|
      invariant at == lim * row
      invariant pos <= |file| ==> at <= cvs.Length && cvs[..at] == RowsCells(c, lim, file[offset..pos], row)
    {
      SpanShort(16 * lim, row, rows);
      RowFits(lim, row, rows);
      if pos + 16 * lim > |file| {
        return None;
      }
      NextRow(c, file, offset, pos, lim, lsb, buf, cvs, at, row);
      pos := pos + 16 * lim;
      at := at + lim;
      row := row + 1;
    }
    assert cvs[..at] == cvs[..];
    r := Some(cvs[..]);
  }

  lemma NoRows(c: Codec, lim: nat)
    ensures Span(16 * lim, 0) == 0 && RowsCells(c, lim, [], 0) == []
  {
  }

  lemma RowFits(lim: nat, row: nat, rows: nat)
    requires row < rows
    ensures lim * row + lim == lim * (row + 1) <= lim * rows
  {
  }

  // ----- The round trip

  /** The numbers that the writer stores for the table survive storing. */
  ghost predicate Exact(c: Codec, ct: CTable) {
    && (forall k: nat | 4 <= k < 10 :: c.undouble(c.double(Number(ct, k))) == Number(ct, k))
    && (forall k | 0 <= k < |ct.cvs| :: FloatSurvives(c, ct.cvs[k].lam) && FloatSurvives(c, ct.cvs[k].phi))
  }

  ghost predicate FloatSurvives(c: Codec, x: real) {
    c.unfloat(c.float(ToSeconds(x))) == ToSeconds(x)
  }

  /** An axis that has more than one node runs upwards. */
  predicate Recovers(ct: CTable) {
    (ct.del.lam > 0.0 || ct.limLam == 1) && (ct.del.phi > 0.0 || ct.limPhi == 1)
  }

  lemma FromSecondsInverse(x: real)
    ensures FromSeconds(Seconds(x)) == x && FromSeconds(-Seconds(-1.0 * x)) == x
  {
  }

  lemma ToRadiansInverse(x: real)
    ensures ToRadians(ToSeconds(x)) == x
  {
  }

  lemma Quotient(n: real, s: real)
    requires s != 0.0
    ensures n * s / s == n
  {
  }

  /** The number of nodes is recovered exactly on an axis that runs upwards or has one node. */
  lemma NodesRecovered(n: nat, low: real, high: real, step: real)
    requires n >= 1 && step != 0.0 && high - low == (n - 1) as real * step
    ensures Nodes(low, high, step) == if step > 0.0 || n == 1 then n else 3 - n
  {
    hide Abs, Truncate;
    var m := n - 1;
    AxisQuotient(m as real, step, high - low);
    Rounded(m);
  }

  lemma AxisQuotient(m: real, step: real, span: real)
    requires m >= 0.0 && step != 0.0 && span == m * step
    ensures Abs(span) / step == if step > 0.0 then m else -m
  {
    AbsTimes(m, step);
    if step > 0.0 {
      Quotient(m, step);
    } else {
      Quotient(m, Abs(step));
      NegativeDivisor(Abs(span), step);
    }
  }

  lemma Rounded(m: nat)
    ensures Truncate(m as real + 0.5) == m
    ensures Truncate(-(m as real) + 0.5) == if m == 0 then 0 else 1 - m
  {
    if m > 0 { assert (m as real - 0.5).Floor == m - 1; }
  }

  lemma NegativeDivisor(q: real, s: real)
    requires s < 0.0
    ensures q / s == -(q / Abs(s))
  {
    var t := -s;
    var r := q / t;
    assert r * t == q;
    assert -r * s == q;
    Quotient(-r, s);
  }

  lemma SecondsSpan(low: real, n: real, step: real)
    ensures Seconds(low + n * step) - Seconds(low) == n * Seconds(step)
  {
    assert n * Seconds(step) == Seconds(n * step) by { SecondsScale(n, step); }
  }

  lemma SecondsScale(n: real, step: real)
    ensures n * Seconds(step) == Seconds(n * step)
  {
  }

  lemma SecondsSign(x: real)
    ensures -Seconds(-1.0 * x) == Seconds(x) && (Seconds(x) == 0.0 <==> x == 0.0) && (Seconds(x) > 0.0 <==> x > 0.0)
  {
  }

  lemma HeaderNumber(c: Codec, ct: CTable, h: seq<Byte>, k: nat)
    requires Sized(c) && Writable(ct) && Ordered(c, ct, h, 11) && Exact(c, ct) && 4 <= k < 10
    ensures Double(c, h, k) == Number(ct, k)
  {
    hide Filled, Number, Record;
    assert Record(h, k) == GridRecord(c, ct, true, k);
    assert Record(h, k) == Filled(NumberName(k), c.double(Number(ct, k)));
    FilledParts(NumberName(k), c.double(Number(ct, k)));
  }

  lemma HeaderName(c: Codec, ct: CTable, h: seq<Byte>)
    requires Sized(c) && Writable(ct) && Ordered(c, ct, h, 11)
    ensures h[..8] == Bytes("SUB_NAME")
  {
    assert h[..8] == Record(h, 0)[..8];
    hide Record, Ordered;
    OrderedAt(c, ct, h, 0);
    assert Record(h, 0) == Filled("SUB_NAME        ", []);
    LongText("SUB_NAME        ");
    assert "SUB_NAME        "[..8] == "SUB_NAME";
  }

  lemma OrderedAt(c: Codec, ct: CTable, h: seq<Byte>, k: nat)
    requires Sized(c) && Writable(ct) && Ordered(c, ct, h, 11) && k < 11
    ensures Record(h, k) == GridRecord(c, ct, true, k)
  {
    hide Record, GridRecord;
  }

  lemma LongText(text: string)
    requires |text| == 16
    ensures Filled(text, [])[..8] == Bytes(text[..8])
  {
  }

  lemma HeaderCount(c: Codec, ct: CTable, h: seq<Byte>)
    requires Sized(c) && Writable(ct) && Ordered(c, ct, h, 11)
    ensures Int32(Value(h, 10, 4)) == ct.limLam * ct.limPhi
  {
    hide Record, Ordered, Filled;
    OrderedAt(c, ct, h, 10);
    FilledParts("GS_COUNT", Int32Bytes(ct.limLam * ct.limPhi));
    Int32RoundTrip(ct.limLam * ct.limPhi);
  }

  lemma WrongCount(a: int, b: int, a': int, b': int)
    requires a >= 1 && b >= 1 && (a' == a || (a' == 3 - a && a >= 2)) && (b' == b || (b' == 3 - b && b >= 2))
    requires a' != a || b' != b
    ensures a' * b' != a * b
  {
    if a' == a {
      assert a * (3 - b) != a * b;
    } else if b' == b {
      assert (3 - a) * b != a * b;
    } else {
      assert (3 - a) * (3 - b) == 9 - 3 * a - 3 * b + a * b;
    }
  }

  lemma HeaderNumbers(c: Codec, ct: CTable, h: seq<Byte>)
    requires Sized(c) && Writable(ct) && Ordered(c, ct, h, 11) && Exact(c, ct)
    ensures -Double(c, h, 7) == Seconds(ct.ll.lam) && Double(c, h, 4) == Seconds(ct.ll.phi)
    ensures -Double(c, h, 6) == Seconds(UpperRight(ct).lam) && Double(c, h, 5) == Seconds(UpperRight(ct).phi)
    ensures Double(c, h, 9) == Seconds(ct.del.lam) && Double(c, h, 8) == Seconds(ct.del.phi)
  {
    hide Ordered, Exact, Double, Seconds, UpperRight;
    HeaderNumber(c, ct, h, 4);
    HeaderNumber(c, ct, h, 5);
    HeaderNumber(c, ct, h, 6);
    HeaderNumber(c, ct, h, 7);
    HeaderNumber(c, ct, h, 8);
    HeaderNumber(c, ct, h, 9);
    SecondsSign(ct.ll.lam);
    SecondsSign(UpperRight(ct).lam);
  }

  function Recounted(n: int, step: real): int {
    if step > 0.0 || n == 1 then n else 3 - n
  }

  lemma LimitsRead(ct: CTable)
    requires Writable(ct) && ct.del.lam != 0.0 && ct.del.phi != 0.0
    ensures Seconds(ct.del.lam) != 0.0 && Seconds(ct.del.phi) != 0.0
    ensures Recounted(ct.limLam, ct.del.lam)
         == Nodes(Seconds(ct.ll.lam), Seconds(UpperRight(ct).lam), Seconds(ct.del.lam))
    ensures Recounted(ct.limPhi, ct.del.phi)
         == Nodes(Seconds(ct.ll.phi), Seconds(UpperRight(ct).phi), Seconds(ct.del.phi))
  {
    hide Seconds, Nodes;
    var ur := UpperRight(ct);
    SecondsSign(ct.del.lam);
    SecondsSign(ct.del.phi);
    SecondsSpan(ct.ll.lam, (ct.limLam - 1) as real, ct.del.lam);
    SecondsSpan(ct.ll.phi, (ct.limPhi - 1) as real, ct.del.phi);
    NodesRecovered(ct.limLam, Seconds(ct.ll.lam), Seconds(ur.lam), Seconds(ct.del.lam));
    NodesRecovered(ct.limPhi, Seconds(ct.ll.phi), Seconds(ur.phi), Seconds(ct.del.phi));
  }

  /** Reading the grid header brings back corner, cell size and limits, if and only if the axes run
      upwards; otherwise the reader rejects the file. */
  lemma HeaderRoundTrip(c: Codec, ct: CTable, h: seq<Byte>)
    requires Sized(c) && Writable(ct) && Ordered(c, ct, h, 11) && Exact(c, ct)
    requires ct.del.lam != 0.0 && ct.del.phi != 0.0
    ensures ParseGrid(c, h) == if Recovers(ct) then Some(ct.(cvs := [])) else None
  {
    hide Ordered, Exact, Double, Value, Int32, Nodes, Seconds, FromSeconds, Bytes, UpperRight;
    HeaderName(c, ct, h);
    HeaderCount(c, ct, h);
    HeaderNumbers(c, ct, h);
    LimitsRead(ct);
    FromSecondsInverse(ct.ll.lam);
    FromSecondsInverse(ct.ll.phi);
    FromSecondsInverse(ct.del.lam);
    FromSecondsInverse(ct.del.phi);
    if !Recovers(ct) {
      WrongCount(ct.limLam, ct.limPhi, Recounted(ct.limLam, ct.del.lam), Recounted(ct.limPhi, ct.del.phi));
    }
  }

  lemma EntryRoundTrip(c: Codec, v: LP, b: seq<Byte>, i: nat)
    requires 16 * i + 16 <= |b| && EntryAt(c, v, b, i) && FloatSurvives(c, v.lam) && FloatSurvives(c, v.phi)
    ensures EntryOf(c, b, i) == v
  {
    hide ToSeconds, ToRadians;
    ToRadiansInverse(v.lam);
    ToRadiansInverse(v.phi);
  }

  lemma CellSurvives(c: Codec, ct: CTable, row: nat, i: nat)
    requires Writable(ct) && Exact(c, ct) && row < ct.limPhi && i < ct.limLam
    ensures FloatSurvives(c, CellAt(ct, row, i).lam) && FloatSurvives(c, CellAt(ct, row, i).phi)
  {
    hide FloatSurvives, Exact;
    CellInside(ct.limLam, ct.limPhi, row, ct.limLam - i - 1);
    NodeSurvives(c, ct, row * ct.limLam + (ct.limLam - i - 1));
  }

  lemma NodeSurvives(c: Codec, ct: CTable, k: nat)
    requires Exact(c, ct) && k < |ct.cvs|
    ensures FloatSurvives(c, ct.cvs[k].lam) && FloatSurvives(c, ct.cvs[k].phi)
  {
    hide FloatSurvives;
  }

  lemma RowRoundTrip(c: Codec, ct: CTable, row: nat, b: seq<Byte>)
    requires Writable(ct) && Exact(c, ct) && row < ct.limPhi && RowWritten(c, ct, row, b)
    ensures ct.limLam * row + ct.limLam <= |ct.cvs|
    ensures RowCells(c, ct.limLam, b) == ct.cvs[ct.limLam*row..ct.limLam*row+ct.limLam]
  {
    hide FloatSurvives, Exact, EntryOf, EntryAt;
    RowFits(ct.limLam, row, ct.limPhi);
    forall k | 0 <= k < ct.limLam ensures RowCells(c, ct.limLam, b)[k] == ct.cvs[ct.limLam*row+k] {
      var i := ct.limLam - k - 1;
      CellSurvives(c, ct, row, i);
      EntryRoundTrip(c, CellAt(ct, row, i), b, i);
      assert CellAt(ct, row, i) == ct.cvs[ct.limLam*row+k];
    }
  }

  lemma {:induction false} RowsRoundTrip(c: Codec, ct: CTable, data: seq<Byte>, n: nat)
    requires Writable(ct) && Exact(c, ct) && n <= ct.limPhi && RowsWritten(c, ct, data, n)
    ensures ct.limLam * n <= |ct.cvs| && RowsCells(c, ct.limLam, data, n) == ct.cvs[..ct.limLam*n]
    decreases n
  {
    hide RowWritten, RowCells, Exact;
    if n == 0 {
      NoRows(c, ct.limLam);
    } else {
      var before := Span(16 * ct.limLam, n - 1);
      RowsRoundTrip(c, ct, data[..before], n - 1);
      RowRoundTrip(c, ct, n - 1, data[before..]);
      RowFits(ct.limLam, n - 1, ct.limPhi);
      var at := ct.limLam * (n - 1);
      assert ct.cvs[..at] + ct.cvs[at..at+ct.limLam] == ct.cvs[..at+ct.limLam];
    }
  }

  lemma OneSubfile(c: Codec, file: seq<Byte>)
    requires |file| >= 176 && Record(file[..176], 2) == OverviewRecord(2)
    ensures Int32(Value(file[..176], 2, 4)) == 1
  {
    var zeros: seq<Byte> := seq(16, _ => 0);
    var r := Put(Put(zeros, 0, Bytes("NUM_FILE")), 8, [1]);
    assert r == Record(file[..176], 2);
    assert forall i | 9 <= i < 16 :: r[i] == zeros[i];
    assert r[8..12] == [1, 0, 0, 0];
  }

  /** A table written on one host and read on another one, of either byte order, comes back with its
      corner, cell size, limits and all cells if and only if its axes run upwards; otherwise the
      reader rejects the file. */
  lemma NadRoundTrip(c: Codec, ct: CTable, file: seq<Byte>)
    requires Sized(c) && Writable(ct) && Exact(c, ct) && ct.del.lam != 0.0 && ct.del.phi != 0.0
    requires Encodes(c, ct, file)
    ensures Grids(c, file) == if Recovers(ct) then Some([Sub(ct.(cvs := []), 352)]) else None
    ensures Cells(c, file, Sub(ct.(cvs := []), 352)) == Some(ct.cvs)
  {
    hide Exact, ParseGrid, Recovers, RowsWritten, RowsCells, Record, Value, OverviewRecord, Ordered, Int32;
    OneSubfile(c, file);
    HeaderRoundTrip(c, ct, file[176..352]);
    var none: seq<Sub> := [];
    assert Grids(c, file) == Subfiles(c, file, 176, 1);
    if Recovers(ct) {
      assert Subfiles(c, file, Seek(352, ct.limLam * ct.limPhi * 16), 0) == Some(none);
      assert [Sub(ct.(cvs := []), 352)] + none == [Sub(ct.(cvs := []), 352)];
    }
    RowsRoundTrip(c, ct, file[352..], ct.limPhi);
    DataLength(c, ct, file[352..]);
    assert file[352..] == file[352..|file|];
    assert ct.cvs[..|ct.cvs|] == ct.cvs;
  }

  lemma DataLength(c: Codec, ct: CTable, data: seq<Byte>)
    requires Writable(ct) && RowsWritten(c, ct, data, ct.limPhi)
    ensures |data| == Span(16 * ct.limLam, ct.limPhi)
  {
  }

  // ----- A table that cannot be read back

  /** Four nodes without shifts on an axis of longitudes that runs downwards. */
  function DownTable(): CTable {
    CTable(LP(0.0, 0.0), LP(-1.0, 1.0), 2, 2, [LP(0.0, 0.0), LP(0.0, 0.0), LP(0.0, 0.0), LP(0.0, 0.0)])
  }

  /** An encoding that keeps the numbers of that table apart. */
  function SmallCodec(): Codec {
    Codec(x => [if x == 0.0 then 0 else if x > 0.0 then 1 else 2, 0, 0, 0, 0, 0, 0, 0],
          b => if |b| == 0 || b[0] == 0 then 0.0 else if b[0] == 1 then Seconds(1.0) else Seconds(-1.0),
          x => [0, 0, 0, 0], b => 0.0)
  }

  lemma DownTableExact()
    ensures Sized(SmallCodec()) && Writable(DownTable()) && Exact(SmallCodec(), DownTable())
  {
    var c, ct := SmallCodec(), DownTable();
    forall k: nat | 4 <= k < 10 ensures Number(ct, k) in {0.0, Seconds(1.0), Seconds(-1.0)} {
    }
    assert forall x | x in {0.0, Seconds(1.0), Seconds(-1.0)} :: c.undouble(c.double(x)) == x;
    assert ToSeconds(0.0) == 0.0;
  }

  /** It is written like any other table, and every reader rejects the file. */
  lemma DownwardExample(file: seq<Byte>)
    requires Sized(SmallCodec()) && Writable(DownTable()) && Encodes(SmallCodec(), DownTable(), file)
    ensures Grids(SmallCodec(), file) == None
  {
    DownTableExact();
    hide Encodes, SmallCodec, Exact, Sized;
    NadRoundTrip(SmallCodec(), DownTable(), file);
  }
}
