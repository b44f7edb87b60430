/** The list of loaded grids and the resolution of a grid list string against it. */
module GridList {
  import opened GridTables
  import opened Options

  /** A loaded grid; None marks a file that could not be read. */
  class GridInfo {
    const gridname: string
    const grid: Option<Grid>
    var next: GridInfo?

    constructor (name: string, grid: Option<Grid>)
      ensures this.gridname == name && this.grid == grid && next == null
    {
      this.gridname := name;
      this.grid := grid;
      this.next := null;
    }
  }

  /** The files: every name yields at least a stub. */
  type Files = f: string -> seq<Option<Grid>> | forall name :: |f(name)| > 0
    ghost witness _ => [None]

  // ----- What a grid list string means

  /** The usable grids before the first unusable one. */
  function Usable(gs: seq<Option<Grid>>): seq<Grid> {
    if |gs| == 0 || gs[0].None? then [] else [gs[0].value] + Usable(gs[1..])
  }

  predicate AllUsable(gs: seq<Option<Grid>>) {
    forall i | 0 <= i < |gs| :: gs[i].Some?
  }

  /** The grids in front of the first unusable one. */
  lemma {:induction false} UsablePrefix(gs: seq<Option<Grid>>, k: nat)
    requires k <= |gs| && (forall i | 0 <= i < k :: gs[i].Some?) && (k == |gs| || gs[k].None?)
    ensures |Usable(gs)| == k && forall i | 0 <= i < k :: Usable(gs)[i] == gs[i].value
  {
    if k > 0 { UsablePrefix(gs[1..], k - 1); }
  }

  function NameLength(s: string): (n: nat)
    ensures n <= |s| && (n < |s| ==> s[n] == ',') && forall i | 0 <= i < n :: s[i] != ','
  {
    if |s| == 0 || s[0] == ',' then 0 else 1 + NameLength(s[1..])
  }

  lemma NameLengthIs(s: string, n: nat)
    requires n <= |s| && (n < |s| ==> s[n] == ',') && forall i | 0 <= i < n :: s[i] != ','
    ensures NameLength(s) == n
  {
  }

  const NAME_SIZE: nat := 128

  /** Whether the first name must resolve, the name, and the text behind it. */
  function FirstName(s: string): (r: (bool, string, string))
    requires |s| > 0
    ensures |r.2| < |s|
  {
    var t := if s[0] == '@' then s[1..] else s;
    var n := NameLength(t);
    (s[0] != '@', t[..n], if n < |t| then t[n+1..] else [])
  }

  /** Cuts the first name off the list string. */
  method TakeName(s: string) returns (required: bool, name: string, rest: string)
    requires |s| > 0
    ensures (required, name, rest) == FirstName(s)
  {
    required, rest := true, s;
    if rest[0] == '@' {
      required := false;
      rest := rest[1..];
    }
    var end := 0;
    while end < |rest| && rest[end] != ','
      invariant end <= |rest| && forall i | 0 <= i < end :: rest[i] != ','
    {
      end := end + 1;
    }
    NameLengthIs(rest, end);
    name := rest[..end];
    rest := rest[end..];
    if |rest| > 0 && rest[0] == ',' {
      rest := rest[1..];
    }
  }

  /** The grids that the list string s names, behind the grids found so far; None if a name is too
      long or a required one does not resolve.  Only the files matter. */
  function Resolve(files: Files, s: string, found: seq<Grid>): Option<seq<Grid>>
    decreases |s|
  {
    if |s| == 0 then Some(found)
    else
      var (required, name, rest) := FirstName(s);
      if |name| >= NAME_SIZE || (required && !AllUsable(files(name))) then None
      else Resolve(files, rest, found + Usable(files(name)))
  }

  /** Each name that s lists. */
  function NamesIn(s: string): seq<(bool, string)>
    decreases |s|
  {
    if |s| == 0 then [] else var (required, name, rest) := FirstName(s); [(required, name)] + NamesIn(rest)
  }

  function Concatenated(files: Files, names: seq<(bool, string)>): seq<Grid> {
    if |names| == 0 then [] else Usable(files(names[0].1)) + Concatenated(files, names[1..])
  }

  predicate NameResolves(files: Files, name: (bool, string)) {
    |name.1| < NAME_SIZE && (name.0 ==> AllUsable(files(name.1)))
  }

  predicate AllResolve(files: Files, names: seq<(bool, string)>) {
    forall n | n in names :: NameResolves(files, n)
  }

  lemma NamesStep(s: string)
    requires |s| > 0
    ensures var (required, name, rest) := FirstName(s); NamesIn(s) == [(required, name)] + NamesIn(rest)
  {
  }

  lemma ConcatenatedStep(files: Files, name: (bool, string), names: seq<(bool, string)>)
    ensures Concatenated(files, [name] + names) == Usable(files(name.1)) + Concatenated(files, names)
    ensures AllResolve(files, [name] + names) <==> NameResolves(files, name) && AllResolve(files, names)
  {
    var all := [name] + names;
    assert all[1..] == names;
    assert forall n :: n in all <==> n == name || n in names;
  }

  lemma ResolveStep(files: Files, s: string, found: seq<Grid>)
    requires |s| > 0
    ensures var (required, name, rest) := FirstName(s);
            Resolve(files, s, found) ==
              if NameResolves(files, (required, name)) then Resolve(files, rest, found + Usable(files(name))) else None
  {
    hide AllUsable, Usable, FirstName;
  }

  lemma AppendTwice(a: seq<Grid>, b: seq<Grid>, c: seq<Grid>)
    ensures a + b + c == a + (b + c)
  {
  }

  /** The result is the usable grids of all listed names in order, and there is one exactly when all
      names are short enough and all required ones resolve. */
  lemma {:induction false} ResolveConcatenates(files: Files, s: string, found: seq<Grid>)
    ensures Resolve(files, s, found) ==
      if AllResolve(files, NamesIn(s)) then Some(found + Concatenated(files, NamesIn(s))) else None
    decreases |s|
  {
    if |s| == 0 {
      assert found + [] == found;
    } else {
      hide NamesIn, Concatenated, FirstName, Usable, AllResolve, NameResolves, Resolve;
      var (required, name, rest) := FirstName(s);
      NamesStep(s);
      ConcatenatedStep(files, (required, name), NamesIn(rest));
      ResolveStep(files, s, found);
      ResolveConcatenates(files, rest, found + Usable(files(name)));
      AppendTwice(found, Usable(files(name)), Concatenated(files, NamesIn(rest)));
    }
  }

  // ----- List strings as they are written

  predicate NoComma(a: string) {
    forall i | 0 <= i < |a| :: a[i] != ','
  }

  /** A name as it stands in a list: optional ones are marked. */
  function Entry(required: bool, name: string): string {
    if required then name else "@" + name
  }

  /** The names of a list, separated by commas. */
  function Listed(names: seq<(bool, string)>): string {
    if |names| == 0 then ""
    else if |names| == 1 then Entry(names[0].0, names[0].1)
    else Entry(names[0].0, names[0].1) + "," + Listed(names[1..])
  }

  /** A name that can be told from the text around it. */
  predicate Legible(name: (bool, string)) {
    NoComma(name.1) && (name.0 ==> |name.1| == 0 || name.1[0] != '@')
  }

  lemma FirstOfMany(required: bool, a: string, s: string)
    requires Legible((required, a))
    ensures FirstName(Entry(required, a) + "," + s) == (required, a, s)
  {
    var text := Entry(required, a) + "," + s;
    var t := a + "," + s;
    assert required ==> text == t;
    assert !required ==> text[0] == '@' && text[1..] == t;
    assert forall i | 0 <= i < |a| :: t[i] == a[i];
    NameLengthIs(t, |a|);
    assert t[..|a|] == a && t[|a|+1..] == s;
  }

  lemma OnlyOne(required: bool, a: string)
    requires Legible((required, a)) && |Entry(required, a)| > 0
    ensures FirstName(Entry(required, a)) == (required, a, [])
  {
    assert !required ==> Entry(required, a)[1..] == a;
    NameLengthIs(a, |a|);
    assert a[..|a|] == a;
  }

  /** A required name in front of a comma: the search goes on behind it if all its grids are usable, and
      ends with an error otherwise. */
  lemma RequiredFirst(files: Files, a: string, s: string, found: seq<Grid>)
    requires NoComma(a) && |a| < 128 && (|a| == 0 || a[0] != '@')
    ensures Resolve(files, a + "," + s, found) ==
      if AllUsable(files(a)) then Resolve(files, s, found + Usable(files(a))) else None
  {
    FirstOfMany(true, a, s);
    hide FirstName, Usable, AllUsable;
  }

  /** Behind an optional name the search always goes on. */
  lemma OptionalFirst(files: Files, a: string, s: string, found: seq<Grid>)
    requires NoComma(a) && |a| < 128
    ensures Resolve(files, "@" + a + "," + s, found) == Resolve(files, s, found + Usable(files(a)))
  {
    FirstOfMany(false, a, s);
    hide FirstName, Usable, AllUsable;
  }

  lemma RequiredLast(files: Files, a: string, found: seq<Grid>)
    requires NoComma(a) && 0 < |a| < 128 && a[0] != '@'
    ensures Resolve(files, a, found) == if AllUsable(files(a)) then Some(found + Usable(files(a))) else None
  {
    OnlyOne(true, a);
    hide FirstName, Usable, AllUsable;
  }

  lemma OptionalLast(files: Files, a: string, found: seq<Grid>)
    requires NoComma(a) && |a| < 128
    ensures Resolve(files, "@" + a, found) == Some(found + Usable(files(a)))
  {
    OnlyOne(false, a);
    hide FirstName, Usable, AllUsable;
  }

  /** A name of 128 characters or more ends the search with an error, wherever it stands. */
  lemma TooLong(files: Files, required: bool, a: string, s: string, found: seq<Grid>)
    requires Legible((required, a)) && |a| >= 128
    ensures Resolve(files, Entry(required, a) + "," + s, found) == None
    ensures Resolve(files, Entry(required, a), found) == None
  {
    FirstOfMany(required, a, s);
    OnlyOne(required, a);
    hide FirstName, Usable, AllUsable;
  }

  /** Whether an empty name stands at the end, where the text does not show it. */
  predicate EndsEmpty(names: seq<(bool, string)>) {
    |names| > 0 && names[|names|-1] == (true, "")
  }

  lemma ListedStep(names: seq<(bool, string)>)
    requires |names| > 1
    ensures var rest := names[1..];
            && Listed(names) == Entry(names[0].0, names[0].1) + "," + Listed(rest)
            && EndsEmpty(names) == EndsEmpty(rest) && names == [names[0]] + rest
            && names[..|names|-1] == [names[0]] + rest[..|rest|-1]
  {
  }

  lemma ListedOne(name: (bool, string))
    requires Legible(name)
    ensures NamesIn(Listed([name])) == if EndsEmpty([name]) then [] else [name]
  {
    var (required, a) := name;
    if |Entry(required, a)| > 0 {
      OnlyOne(required, a);
      hide FirstName, Legible;
      NamesStep(Entry(required, a));
    }
  }

  /** Splitting the text of a list gives the names back, with their markers; only an empty name at the
      end, if it is required, is lost. */
  lemma {:induction false} NamesOfListed(names: seq<(bool, string)>)
    requires forall n | n in names :: Legible(n)
    ensures NamesIn(Listed(names)) == if EndsEmpty(names) then names[..|names|-1] else names
  {
    if |names| == 0 {
    } else if |names| == 1 {
      assert names == [names[0]] && names[..0] == [];
      ListedOne(names[0]);
    } else {
      ListedStep(names);
      NamesOfListed(names[1..]);
      hide Listed, FirstName, NamesIn, EndsEmpty;
      var (required, a) := names[0];
      FirstOfMany(required, a, Listed(names[1..]));
      NamesStep(Entry(required, a) + "," + Listed(names[1..]));
    }
  }

  /** So a list resolves to the usable grids of its names, in order, and does exactly if every name is
      shorter than 128 characters and all grids of every required one are usable. */
  lemma ListResolves(files: Files, names: seq<(bool, string)>, found: seq<Grid>)
    requires (forall n | n in names :: Legible(n)) && !EndsEmpty(names)
    ensures Resolve(files, Listed(names), found) ==
      if forall n | n in names :: |n.1| < 128 && (n.0 ==> AllUsable(files(n.1)))
      then Some(found + Concatenated(files, names)) else None
  {
    hide Listed, Resolve, NamesIn, Concatenated, AllUsable, Usable, Legible;
    NamesOfListed(names);
    ResolveConcatenates(files, Listed(names), found);
  }

  // ----- The array of grids under construction

  /** The grid array, terminated by null; it is null itself until something is added. */
  class GridArray {
    var list: array?<GridInfo?>
    var count: nat
    var max: nat

    ghost predicate Valid()
      reads this, list
    {
      && (list == null ==> count == max == 0)
      && (list != null ==> list.Length == max && 0 < count < max && list[count] == null)
      && (list != null ==> forall i | 0 <= i < count :: list[i] != null && list[i].grid.Some?)
    }

    ghost function Grids(): (r: seq<Grid>)
      requires Valid()
      reads this, list
    {
      if list == null then []
      else
        seq(count, i requires 0 <= i < count && Valid() && list != null reads this, list => list[i].grid.value)
    }

    constructor ()
      ensures Valid() && Grids() == [] && list == null
    {
      list, count, max := null, 0, 0;
    }

    /** Adds a grid and moves the terminator, which always fits. */
    method Add(g: GridInfo)
      requires Valid() && g.grid.Some?
      modifies this, list
      ensures Valid() && Grids() == old(Grids()) + [g.grid.value]
      ensures list == old(list) || fresh(list)
    {
      if count >= max - 2 {
        var size := max + 20;
        var larger := new GridInfo?[size](_ => null);
        if list != null {
          var i := 0;
          while i < max
            invariant 0 <= i <= max
            invariant forall k | 0 <= k < i :: larger[k] == list[k]
            modifies larger
          {
            larger[i] := list[i];
            i := i + 1;
          }
        }
        list := larger;
        max := size;
      }
      list[count] := g;
      count := count + 1;
      list[count] := null;
    }
  }

  // ----- The cache

  /** Name and grid of a loaded node. */
  datatype Cell = Cell(name: string, grid: Option<Grid>)

  /** The nodes one file yields. */
  function CellsOf(files: Files, name: string): (r: seq<Cell>)
    ensures |r| == |files(name)|
  {
    seq(|files(name)|, i requires 0 <= i < |files(name)| => Cell(name, files(name)[i]))
  }

  /** The nodes that a sequence of loaded files yields. */
  function AllCells(files: Files, loaded: seq<string>): seq<Cell> {
    if |loaded| == 0 then [] else AllCells(files, loaded[..|loaded|-1]) + CellsOf(files, loaded[|loaded|-1])
  }

  /** The grids of the nodes of one name. */
  function OfName(cells: seq<Cell>, name: string): seq<Option<Grid>> {
    if |cells| == 0 then []
    else OfName(cells[..|cells|-1], name) + if cells[|cells|-1].name == name then [cells[|cells|-1].grid] else []
  }

  lemma {:induction false} OfNameConcat(a: seq<Cell>, b: seq<Cell>, name: string)
    ensures OfName(a + b, name) == OfName(a, name) + OfName(b, name)
    decreases |b|
  {
    if |b| == 0 {
      assert a + b == a;
    } else {
      assert (a + b)[..|a + b|-1] == a + b[..|b|-1];
      OfNameConcat(a, b[..|b|-1], name);
    }
  }

  lemma {:induction false} OfNameSame(cells: seq<Cell>, name: string, grids: seq<Option<Grid>>)
    requires |cells| == |grids| && forall i | 0 <= i < |cells| :: cells[i] == Cell(name, grids[i])
    ensures OfName(cells, name) == grids
  {
    if |cells| > 0 {
      OfNameSame(cells[..|cells|-1], name, grids[..|grids|-1]);
    }
  }

  lemma {:induction false} OfNameOther(cells: seq<Cell>, name: string)
    requires forall i | 0 <= i < |cells| :: cells[i].name != name
    ensures OfName(cells, name) == []
  {
    if |cells| > 0 {
      OfNameOther(cells[..|cells|-1], name);
    }
  }

  predicate Distinct(names: seq<string>) {
    forall i, k | 0 <= i < k < |names| :: names[i] != names[k]
  }

  lemma OfNameCellsOf(files: Files, loaded: string, name: string)
    ensures OfName(CellsOf(files, loaded), name) == if loaded == name then files(name) else []
  {
    if loaded == name {
      OfNameSame(CellsOf(files, loaded), name, files(name));
    } else {
      OfNameOther(CellsOf(files, loaded), name);
    }
  }

  /** The cache holds exactly the nodes of a file that has been loaded and none of any other. */
  lemma {:induction false} OfNameLoaded(files: Files, loaded: seq<string>, name: string)
    requires Distinct(loaded)
    ensures OfName(AllCells(files, loaded), name) == if name in loaded then files(name) else []
  {
    hide CellsOf, OfName;
    if |loaded| == 0 {
      OfNameOther([], name);
    } else {
      var before, last := loaded[..|loaded|-1], loaded[|loaded|-1];
      OfNameLoaded(files, before, name);
      OfNameConcat(AllCells(files, before), CellsOf(files, last), name);
      OfNameCellsOf(files, last, name);
      assert loaded == before + [last];
      assert last !in before;
      var found := if name in before then files(name) else [];
      assert found + [] == found && [] + files(name) == files(name);
    }
  }

  lemma {:induction false} UsableSnoc(gs: seq<Option<Grid>>, g: Option<Grid>)
    ensures Usable(gs + [g]) == if AllUsable(gs) && g.Some? then Usable(gs) + [g.value] else Usable(gs)
  {
    if |gs| > 0 {
      assert (gs + [g])[1..] == gs[1..] + [g];
      assert AllUsable(gs) <==> gs[0].Some? && AllUsable(gs[1..]);
      UsableSnoc(gs[1..], g);
    }
  }

  lemma {:induction false} UsableConcat(a: seq<Option<Grid>>, b: seq<Option<Grid>>)
    requires !AllUsable(a)
    ensures Usable(a + b) == Usable(a) && !AllUsable(a + b)
  {
    assert (a + b)[1..] == a[1..] + b;
    assert forall i | 0 <= i < |a| :: (a + b)[i] == a[i];
    if a[0].Some? {
      assert !AllUsable(a[1..]) by {
        var i :| 0 <= i < |a| && a[i].None?;
        assert a[1..][i-1].None?;
      }
      UsableConcat(a[1..], b);
    }
  }

  lemma {:induction false} OfNamePrefix(cells: seq<Cell>, i: nat, name: string)
    requires i < |cells|
    ensures cells[..i+1] == cells[..i] + [cells[i]]
    ensures OfName(cells[..i+1], name)
         == if cells[i].name == name then OfName(cells[..i], name) + [cells[i].grid] else OfName(cells[..i], name)
  {
    assert cells[..i+1][..i] == cells[..i];
  }

  /** An unusable node ends the search with the grids before it. */
  lemma UsableUpTo(cells: seq<Cell>, i: nat, name: string)
    requires i < |cells| && cells[i].name == name && cells[i].grid.None?
    requires AllUsable(OfName(cells[..i], name))
    ensures Usable(OfName(cells, name)) == Usable(OfName(cells[..i], name))
    ensures !AllUsable(OfName(cells, name))
  {
    var before := OfName(cells[..i], name);
    var upTo := before + [None];
    OfNamePrefix(cells, i, name);
    assert cells == cells[..i+1] + cells[i+1..];
    OfNameConcat(cells[..i+1], cells[i+1..], name);
    UsableSnoc(before, None);
    assert upTo[|before|].None?;
    UsableConcat(upTo, OfName(cells[i+1..], name));
  }

  lemma StartOfSearch(cells: seq<Cell>, name: string)
    ensures OfName(cells[..0], name) == [] && Usable([]) == []
  {
  }

  function After(nodes: seq<GridInfo>, i: nat): GridInfo?
    requires i < |nodes|
  {
    if i + 1 < |nodes| then nodes[i+1] else null
  }

  /** nodes are the nodes of the list from head on, in order; no node occurs twice, so the list ends. */
  ghost predicate Chained(head: GridInfo?, nodes: seq<GridInfo>)
    reads nodes
  {
    && head == (if |nodes| == 0 then null else nodes[0])
    && (forall i | 0 <= i < |nodes| :: nodes[i].next == After(nodes, i))
    && (forall i, k | 0 <= i < k < |nodes| :: nodes[i] != nodes[k])
  }

  function CellOf(node: GridInfo): Cell {
    Cell(node.gridname, node.grid)
  }

  ghost function Cells(nodes: seq<GridInfo>): (r: seq<Cell>)
    ensures |r| == |nodes|
  {
    seq(|nodes|, i requires 0 <= i < |nodes| => CellOf(nodes[i]))
  }

  lemma CellsConcat(a: seq<GridInfo>, b: seq<GridInfo>)
    ensures Cells(a + b) == Cells(a) + Cells(b)
  {
  }

  lemma ChainFacts(head: GridInfo?, nodes: seq<GridInfo>)
    requires Chained(head, nodes)
    ensures head == if |nodes| == 0 then null else nodes[0]
    ensures forall i | 0 <= i < |nodes| :: nodes[i].next == After(nodes, i)
  {
  }

  lemma AfterConcat(a: seq<GridInfo>, b: seq<GridInfo>, i: nat)
    requires i < |a + b|
    ensures After(a + b, i) ==
      if i >= |a| then After(b, i - |a|) else if i + 1 < |a| || |b| == 0 then After(a, i) else b[0]
  {
  }

  lemma DistinctConcat(a: seq<GridInfo>, b: seq<GridInfo>)
    requires forall i, k | 0 <= i < k < |a| :: a[i] != a[k]
    requires forall i, k | 0 <= i < k < |b| :: b[i] != b[k]
    requires forall n | n in b :: n !in a
    ensures forall i, k | 0 <= i < k < |a + b| :: (a + b)[i] != (a + b)[k]
  {
    forall i, k | 0 <= i < k < |a + b| ensures (a + b)[i] != (a + b)[k] {
      if i < |a| && k >= |a| {
        assert (a + b)[k] in b && (a + b)[i] in a;
      } else if i >= |a| {
        assert b[i - |a|] != b[k - |a|];
      }
    }
  }

  lemma ChainedNone()
    ensures Chained(null, [])
  {
  }

  lemma ChainedOne(node: GridInfo)
    requires node.next == null
    ensures Chained(node, [node])
  {
  }

  /** Hangs the second list behind the last node of the first one. */
  method Join(head: GridInfo?, tail: GridInfo?, more: GridInfo?, ghost a: seq<GridInfo>, ghost b: seq<GridInfo>)
    returns (first: GridInfo?)
    requires Chained(head, a) && Chained(more, b) && tail == (if |a| == 0 then null else a[|a|-1])
    requires forall n | n in b :: n !in a
    modifies if tail == null then {} else {tail}
    ensures Chained(first, a + b)
  {
    forall i: nat | i < |a + b|
      ensures After(a + b, i) ==
        if i >= |a| then After(b, i - |a|) else if i + 1 < |a| || |b| == 0 then After(a, i) else b[0]
    {
      AfterConcat(a, b, i);
    }
    hide After;
    if tail != null {
      tail.next := more;
      first := head;
      assert forall i | 0 <= i < |a| - 1 :: a[i] != tail;
      assert tail in a;
      forall i | 0 <= i < |b| ensures b[i] != tail {
        assert b[i] in b;
      }
    } else {
      first := more;
      assert a + b == b;
    }
    ghost var all := a + b;
    forall i: nat | i < |all| ensures all[i].next == After(all, i) {
      if i >= |a| {
        assert all[i] == b[i - |a|];
      } else {
        assert all[i] == a[i];
      }
    }
    DistinctConcat(a, b);
  }

  /** Reads a file: a fresh node for each of its grids. */
  method Load(files: Files, name: string) returns (first: GridInfo?, ghost nodes: seq<GridInfo>)
    ensures Chained(first, nodes) && Cells(nodes) == CellsOf(files, name)
    ensures forall n | n in nodes :: fresh(n)
  {
    hide Chained;
    var grids := files(name);
    var last: GridInfo? := null;
    first, nodes := null, [];
    ChainedNone();
    var i := 0;
    while i < |grids|
      invariant 0 <= i == |nodes| <= |grids|
      invariant Chained(first, nodes) && last == if i == 0 then null else nodes[i-1]
      invariant Cells(nodes) == CellsOf(files, name)[..i]
      invariant forall n | n in nodes :: fresh(n)
    {
      var item := new GridInfo(name, grids[i]);
      ChainedOne(item);
      assert last != null ==> last in nodes;
      first := Join(first, last, item, nodes, [item]);
      CellsConcat(nodes, [item]);
      nodes := nodes + [item];
      last := item;
      i := i + 1;
    }
  }

  lemma CellsAt(nodes: seq<GridInfo>, i: nat)
    requires i < |nodes|
    ensures Cells(nodes)[i] == Cell(nodes[i].gridname, nodes[i].grid)
  {
  }

  lemma AllCellsSnoc(files: Files, loaded: seq<string>, name: string)
    ensures AllCells(files, loaded + [name]) == AllCells(files, loaded) + CellsOf(files, name)
  {
    assert (loaded + [name])[..|loaded|] == loaded;
  }

  /** The grids of the first i nodes of that name have been added, and all of them were usable. */
  ghost predicate Collected(cells: seq<Cell>, i: nat, name: string, was: seq<Grid>, now: seq<Grid>, gotMatch: bool)
    requires i <= |cells|
  {
    var found := OfName(cells[..i], name);
    AllUsable(found) && now == was + Usable(found) && (gotMatch <==> |found| > 0) && (!gotMatch ==> now == was)
  }

  lemma CollectedStart(cells: seq<Cell>, name: string, was: seq<Grid>)
    ensures Collected(cells, 0, name, was, was, false)
  {
    StartOfSearch(cells, name);
    assert was + [] == was;
  }

  lemma CollectedStep(cells: seq<Cell>, i: nat, name: string, was: seq<Grid>, now: seq<Grid>, gotMatch: bool)
    requires i < |cells| && Collected(cells, i, name, was, now, gotMatch)
    ensures cells[i].name != name ==> Collected(cells, i + 1, name, was, now, gotMatch)
    ensures cells[i].name == name && cells[i].grid.Some? ==>
      Collected(cells, i + 1, name, was, now + [cells[i].grid.value], true)
    ensures cells[i].name == name && cells[i].grid.None? ==>
      now == was + Usable(OfName(cells, name)) && !AllUsable(OfName(cells, name)) && |OfName(cells, name)| > 0
  {
    hide OfName, Usable;
    OfNamePrefix(cells, i, name);
    var found := OfName(cells[..i], name);
    if cells[i].name == name {
      if cells[i].grid.None? {
        UsableUpTo(cells, i, name);
      } else {
        UsableSnoc(found, cells[i].grid);
        assert was + Usable(found) + [cells[i].grid.value] == was + (Usable(found) + [cells[i].grid.value]);
      }
    }
  }

  lemma CollectedAll(cells: seq<Cell>, name: string, was: seq<Grid>, now: seq<Grid>, gotMatch: bool)
    requires Collected(cells, |cells|, name, was, now, gotMatch)
    ensures now == was + Usable(OfName(cells, name)) && AllUsable(OfName(cells, name))
    ensures (gotMatch <==> |OfName(cells, name)| > 0) && (!gotMatch ==> now == was)
  {
    assert cells[..|cells|] == cells;
  }

  /** Walks the list and adds the grids of that name to the array, up to the first unusable one. */
  method Collect(head: GridInfo?, name: string, list: GridArray, ghost nodes: seq<GridInfo>)
    returns (ok: bool, gotMatch: bool, tail: GridInfo?)
    requires Chained(head, nodes) && list.Valid()
    modifies list, list.list
    ensures list.Valid() && (list.list == old(list.list) || fresh(list.list))
    ensures list.Grids() == old(list.Grids()) + Usable(OfName(Cells(nodes), name))
    ensures ok <==> AllUsable(OfName(Cells(nodes), name))
    ensures ok ==> tail == if |nodes| == 0 then null else nodes[|nodes|-1]
    ensures gotMatch <==> |OfName(Cells(nodes), name)| > 0
    ensures !gotMatch ==> list.Grids() == old(list.Grids())
  {
    hide Chained, Cells, OfName, Usable, Collected, AllUsable, GridArray.Valid, GridArray.Grids;
    ChainFacts(head, nodes);
    ghost var cells := Cells(nodes);
    ghost var was := list.Grids();
    CollectedStart(cells, name, was);
    gotMatch, tail := false, null;
    var node := head;
    ghost var i := 0;
    while node != null
      invariant 0 <= i <= |nodes| && node == if i < |nodes| then nodes[i] else null
      invariant tail == if i == 0 then null else nodes[i-1]
      invariant list.Valid() && (list.list == old(list.list) || fresh(list.list))
      invariant Collected(cells, i, name, was, list.Grids(), gotMatch)
      decreases |nodes| - i
    {
      CellsAt(nodes, i);
      CollectedStep(cells, i, name, was, list.Grids(), gotMatch);
      if node.gridname == name {
        gotMatch := true;
        if node.grid == None {
          return false, true, tail;
        }
        list.Add(node);
      }
      tail := node;
      node := node.next;
      i := i + 1;
    }
    CollectedAll(cells, name, was, list.Grids(), gotMatch);
    ok := true;
  }

  /** All grids loaded so far, as one linked list. */
  class Cache {
    const files: Files
    var gridList: GridInfo?
    ghost var nodes: seq<GridInfo>
    /** The names of the files that have been read, in order. */
    ghost var loaded: seq<string>

    ghost function Repr(): set<object>
      reads this
    {
      var own: set<object> := set n: GridInfo | n in nodes; own + {this}
    }

    ghost predicate Valid()
      reads this, nodes
    {
      Chained(gridList, nodes) && Cells(nodes) == AllCells(files, loaded) && Distinct(loaded)
    }

    constructor (files: Files)
      ensures Valid() && this.files == files && loaded == [] && nodes == [] && fresh(Repr())
    {
      this.files := files;
      gridList, nodes, loaded := null, [], [];
    }

    /** Reads a file that has not been read and hangs its nodes behind the last one. */
    method Fetch(name: string, tail: GridInfo?)
      requires Valid() && name !in loaded && tail == if |nodes| == 0 then null else nodes[|nodes|-1]
      modifies Repr()
      ensures Valid() && loaded == old(loaded) + [name]
      ensures fresh(Repr() - old(Repr()))
    {
      hide Chained, Cells, AllCells;
      assert tail != null ==> tail in nodes;
      var first, more := Load(files, name);
      gridList := Join(gridList, tail, first, nodes, more);
      CellsConcat(nodes, more);
      AllCellsSnoc(files, loaded, name);
      nodes := nodes + more;
      loaded := loaded + [name];
    }

    /** Adds the grids of the file to the array, reading the file if that has not happened before:
        all that is added, and the answer, depend on the file only.  No file is read twice. */
    method Merge(name: string, list: GridArray) returns (ok: bool)
      requires Valid() && list.Valid()
      modifies Repr(), list, list.list
      ensures Valid() && list.Valid() && (list.list == old(list.list) || fresh(list.list))
      ensures list.Grids() == old(list.Grids()) + Usable(files(name))
      ensures ok <==> AllUsable(files(name))
      ensures loaded == if name in old(loaded) then old(loaded) else old(loaded) + [name]
      ensures fresh(Repr() - old(Repr()))
      decreases name !in loaded
    {
      hide Chained, Cells, AllCells, OfName, Usable, GridArray.Valid, GridArray.Grids;
      OfNameLoaded(files, loaded, name);
      var gotMatch, tail;
      ok, gotMatch, tail := Collect(gridList, name, list, nodes);
      if !ok || gotMatch {
        return;
      }
      label Before:
      Fetch(name, tail);
      assert list.Grids() == old@Before(list.Grids());
      assert list.list == old(list.list) || fresh(list.list);
      ok := Merge(name, list);
    }

    /** The grids for a list string, or null with an error.  The outcome is what Resolve makes of the
        string and the files: what earlier calls have loaded does not matter. */
    method FromNadgrids(nadgrids: string) returns (list: GridArray?)
      requires Valid()
      modifies Repr()
      ensures Valid() && old(loaded) <= loaded
      ensures list != null ==> fresh(list) && list.Valid() && Resolve(files, nadgrids, []) == Some(list.Grids())
      ensures list == null ==> Resolve(files, nadgrids, []) == None
    {
      hide Chained, Cells, AllCells, Usable, AllUsable, Distinct, FirstName;
      list := new GridArray();
      var s := nadgrids;
      while |s| > 0
        invariant Valid() && list.Valid() && old(loaded) <= loaded
        invariant list.list == null || fresh(list.list)
        invariant fresh(Repr() - old(Repr()))
        invariant Resolve(files, nadgrids, []) == Resolve(files, s, list.Grids())
        decreases |s|
      {
        var required, name, rest := TakeName(s);
        if |name| >= NAME_SIZE {
          return null;
        }
        var ok := Merge(name, list);
        if !ok && required {
          return null;
        }
        s := rest;
      }
    }
  }
}
