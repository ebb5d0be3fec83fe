/** The register table: printed in padded hexadecimal columns, turned into ?register rows, and read back. */
module RegisterTable {

  import opened Text
  import opened PyInt
  import Csv
  import opened Wrappers

  datatype Mode = R | W | RW

  datatype Register = Register(name: string, mode: Mode, offset: nat, nbytes: nat)

  datatype Core = Core(regname: string, mode: Mode, baseAddr: nat, nbytes: nat, memoryMap: seq<Register>)

  /** One line of the table. */
  datatype Entry = Entry(name: string, mode: Mode, addr: nat, nbytes: nat)

  /** One assignment of the reader. */
  datatype Named = Named(name: string, addr: int)

  /** Bit 0 says readable, bit 1 writable. */
  function ModeDigit(m: Mode): (d: string)
    ensures |d| == 1 && DigitOf(d[0]) == (if m.W? then 0 else 1) + (if m.R? then 0 else 2)
  {
    match m case R => "1" case W => "2" case RW => "3"
  }

  function Alias(c: Core, r: Register): Entry {
    Entry(r.name, r.mode, c.baseAddr + r.offset, r.nbytes)
  }

  /** A core's own line, then its first n aliases. */
  function CoreEntries(c: Core, n: nat): seq<Entry>
    requires n <= |c.memoryMap|
  {
    if n == 0 then [Entry(c.regname, c.mode, c.baseAddr, c.nbytes)]
    else CoreEntries(c, n - 1) + [Alias(c, c.memoryMap[n - 1])]
  }

  function Entries(cores: seq<Core>, n: nat): seq<Entry>
    requires n <= |cores|
  {
    if n == 0 then [] else Entries(cores, n - 1) + CoreEntries(cores[n - 1], |cores[n - 1].memoryMap|)
  }

  /** The width of the first column: aliases are not counted. */
  function Longest(cores: seq<Core>, n: nat): (w: nat)
    requires n <= |cores|
    ensures forall i :: 0 <= i < n ==> |cores[i].regname| <= w
  {
    if n == 0 then 0
    else
      var w := Longest(cores, n - 1);
      if |cores[n - 1].regname| > w then |cores[n - 1].regname| else w
  }

  function Pad(s: string, width: nat): (r: string)
    ensures r == s + Blanks(width - |s|)
  {
    if |s| >= width then s + "" else s + Blanks(width - |s|)
  }

  function Blanks(n: int): (s: string)
    ensures Spaces(s) && forall i :: 0 <= i < |s| ==> s[i] == ' '
  {
    if n <= 0 then "" else seq(n, _ => ' ')
  }

  function TwoColumns(a: string, b: string): string {
    " " + (Pad(a, 16) + (" " + (Pad(b, 16) + "\n")))
  }

  /** What follows the name: the mode, and address and size in hexadecimal, left-justified to 16 characters. */
  function RowTail(e: Entry): string {
    " " + (Pad(ModeDigit(e.mode), 1) + TwoColumns(Hex(e.addr), Hex(e.nbytes)))
  }

  function Row(e: Entry, width: nat): string {
    Pad(e.name, width) + RowTail(e)
  }

  function Rows(es: seq<Entry>, width: nat): (rows: seq<string>)
    ensures |rows| == |es| && forall i :: 0 <= i < |es| ==> rows[i] == Row(es[i], width)
  {
    seq(|es|, i requires 0 <= i < |es| => Row(es[i], width))
  }

  function Table(es: seq<Entry>, width: nat): string {
    Concat(Rows(es, width))
  }

  lemma {:induction false} TableSnoc(es: seq<Entry>, e: Entry, width: nat)
    ensures Table(es + [e], width) == Table(es, width) + Row(e, width)
  {
    assert Rows(es + [e], width) == Rows(es, width) + [Row(e, width)];
    ConcatSnoc(Rows(es, width), Row(e, width));
  }

  /** The table with a row for every core and alias, the first column as wide as the longest core name. */
  ghost predicate IsTableOf(table: string, cores: seq<Core>) {
    table == Table(Entries(cores, |cores|), Longest(cores, |cores|))
  }

  /** The lines stand for the cores: core i at at[i], which counts the lines before it, under its own name, address and size,
      and its aliases behind it in order, at the core's address plus their offset; there is no other line. */
  ghost predicate Listed(es: seq<Entry>, cores: seq<Core>, at: seq<nat>) {
    && |at| == |cores| + 1 && at[0] == 0 && at[|cores|] == |es|
    && forall i :: 0 <= i < |cores| ==>
         && at[i + 1] == at[i] + 1 + |cores[i].memoryMap| <= |es|
         && CoreListed(es, cores[i], at[i])
  }

  ghost predicate CoreListed(es: seq<Entry>, c: Core, start: nat)
    requires start + 1 + |c.memoryMap| <= |es|
  {
    && es[start] == Entry(c.regname, c.mode, c.baseAddr, c.nbytes)
    && forall j :: 0 <= j < |c.memoryMap| ==>
         var r := c.memoryMap[j]; es[start + 1 + j] == Entry(r.name, r.mode, c.baseAddr + r.offset, r.nbytes)
  }

  lemma {:induction false} CoreEntriesListed(c: Core, n: nat)
    requires n <= |c.memoryMap|
    ensures |CoreEntries(c, n)| == n + 1 && CoreEntries(c, n)[0] == Entry(c.regname, c.mode, c.baseAddr, c.nbytes)
    ensures forall j :: 0 <= j < n ==>
              var r := c.memoryMap[j]; CoreEntries(c, n)[1 + j] == Entry(r.name, r.mode, c.baseAddr + r.offset, r.nbytes)
  {
    if n > 0 {
      CoreEntriesListed(c, n - 1);
    }
  }

  lemma {:induction false} ListedNext(es: seq<Entry>, cs: seq<Entry>, cores: seq<Core>, c: Core, at: seq<nat>)
    requires Listed(es, cores, at) && |cs| == 1 + |c.memoryMap| && CoreListed(cs, c, 0)
    ensures Listed(es + cs, cores + [c], at + [|es| + |cs|])
  {
    var all, u, after := es + cs, cores + [c], at + [|es| + |cs|];
    forall i | 0 <= i < |u|
      ensures after[i + 1] == after[i] + 1 + |u[i].memoryMap| <= |all| && CoreListed(all, u[i], after[i])
    {
      if i < |cores| {
        assert u[i] == cores[i] && CoreListed(es, cores[i], at[i]);
      } else {
        assert u[i] == c && after[i] == |es|;
      }
    }
  }

  lemma {:induction false} EntriesListed(cores: seq<Core>, n: nat) returns (at: seq<nat>)
    requires n <= |cores|
    ensures Listed(Entries(cores, n), cores[..n], at)
  {
    if n == 0 {
      at := [0];
    } else {
      var c := cores[n - 1];
      at := EntriesListed(cores, n - 1);
      CoreEntriesListed(c, |c.memoryMap|);
      ListedNext(Entries(cores, n - 1), CoreEntries(c, |c.memoryMap|), cores[..n - 1], c, at);
      at := at + [|Entries(cores, n)|];
      assert cores[..n] == cores[..n - 1] + [c];
    }
  }

  /** The width is the greatest length of a core name, 0 without cores. */
  ghost predicate IsLongest(width: nat, cores: seq<Core>) {
    && (forall i :: 0 <= i < |cores| ==> |cores[i].regname| <= width)
    && (width == 0 || exists i :: 0 <= i < |cores| && |cores[i].regname| == width)
  }

  lemma {:induction false} LongestIs(cores: seq<Core>, n: nat)
    requires n <= |cores|
    ensures Longest(cores, n) == 0 || exists i :: 0 <= i < n && |cores[i].regname| == Longest(cores, n)
  {
    if n > 0 {
      LongestIs(cores, n - 1);
    }
  }

  /** The text of the lines that stand for the cores, the first column as wide as the longest core name. */
  ghost predicate Describes(table: string, cores: seq<Core>) {
    exists es, at, width :: Listed(es, cores, at) && IsLongest(width, cores) && table == Table(es, width)
  }

  lemma {:induction false} TableDescribes(table: string, cores: seq<Core>)
    requires IsTableOf(table, cores)
    ensures Describes(table, cores)
  {
    var es, width := Entries(cores, |cores|), Longest(cores, |cores|);
    LongestIs(cores, |cores|);
    var at := EntriesListed(cores, |cores|);
    assert cores[..|cores|] == cores;
    assert Listed(es, cores, at) && IsLongest(width, cores) && table == Table(es, width);
  }

  /** write_core_info, on an empty base table. */
  method WriteCoreInfo(cores: seq<Core>) returns (table: string)
    ensures IsTableOf(table, cores) && Describes(table, cores)
  {
    table := "";
    var width := Longest(cores, |cores|);
    var i := 0;
    while i < |cores|
      invariant 0 <= i <= |cores|
      invariant table == Table(Entries(cores, i), width)
    {
      table := WriteCore(table, Entries(cores, i), cores[i], width);
      i := i + 1;
    }
    TableDescribes(table, cores);
  }

  /** One core and its aliases, after the lines for es. */
  method WriteCore(before: string, ghost es: seq<Entry>, c: Core, width: nat) returns (s: string)
    requires before == Table(es, width)
    ensures s == Table(es + CoreEntries(c, |c.memoryMap|), width)
  {
    s := WriteRow(before, es, Entry(c.regname, c.mode, c.baseAddr, c.nbytes), width);
    var j := 0;
    while j < |c.memoryMap|
      invariant 0 <= j <= |c.memoryMap|
      invariant s == Table(es + CoreEntries(c, j), width)
    {
      s := WriteAlias(s, es, c, j, width);
      j := j + 1;
    }
  }

  method WriteAlias(before: string, ghost es: seq<Entry>, c: Core, j: nat, width: nat) returns (s: string)
    requires j < |c.memoryMap| && before == Table(es + CoreEntries(c, j), width)
    ensures s == Table(es + CoreEntries(c, j + 1), width)
  {
    s := WriteRow(before, es + CoreEntries(c, j), Alias(c, c.memoryMap[j]), width);
    CoreEntriesNext(es, c, j);
  }

  lemma {:induction false} CoreEntriesNext(es: seq<Entry>, c: Core, j: nat)
    requires j < |c.memoryMap|
    ensures (es + CoreEntries(c, j)) + [Alias(c, c.memoryMap[j])] == es + CoreEntries(c, j + 1)
  {
  }

  method WriteRow(before: string, ghost es: seq<Entry>, e: Entry, width: nat) returns (s: string)
    requires before == Table(es, width)
    ensures s == Table(es + [e], width)
  {
    s := before + Row(e, width);
    TableSnoc(es, e, width);
  }

  // ---------------------------------------------------------------------------------------------------------
  // ?register rows
  // ---------------------------------------------------------------------------------------------------------

  function RegisterRow(cols: seq<string>): string
    requires |cols| == 4
  {
    "?register\t" + cols[0] + "\t0x" + cols[2] + "\t0x" + cols[3] + "\n"
  }

  /** The rows for the first n lines; unpacking a line with another number of columns raises. */
  function RegisterRows(lines: seq<string>, n: nat): Option<seq<string>>
    requires n <= |lines|
  {
    if n == 0 then Some([])
    else
      var p, cols := RegisterRows(lines, n - 1), Split(lines[n - 1]);
      if p.None? || |cols| != 4 then None else Some(p.value + [RegisterRow(cols)])
  }

  /** The register part of mkfpg. */
  method MkRegisters(table: string) returns (r: Option<string>)
    ensures var rows := RegisterRows(Lines(table), |Lines(table)|);
            r == if rows.None? then None else Some(Concat(rows.value))
  {
    var lines := Lines(table);
    var s := "";
    var i := 0;
    while i < |lines|
      invariant 0 <= i <= |lines|
      invariant RegisterRows(lines, i).Some? && s == Concat(RegisterRows(lines, i).value)
    {
      var cols := Split(lines[i]);
      if |cols| != 4 {
        RegisterRowsStop(lines, i + 1, |lines|);
        return None;
      }
      ConcatSnoc(RegisterRows(lines, i).value, RegisterRow(cols));
      s := s + RegisterRow(cols);
      i := i + 1;
    }
    r := Some(s);
  }

  lemma {:induction false} RegisterRowsStop(lines: seq<string>, m: nat, n: nat)
    requires m <= n <= |lines| && RegisterRows(lines, m).None?
    ensures RegisterRows(lines, n).None?
  {
    if m < n {
      RegisterRowsStop(lines, m, n - 1);
    }
  }

  const HEADER := ["#!/bin/kcpfpg\n", "?uploadbin\n"]

  /** The text of the file up to and including its meta rows. */
  function Fpg(registers: string, meta: string): string {
    Concat(HEADER) + registers + "?meta\t" + meta
  }

  // ---------------------------------------------------------------------------------------------------------
  // The reader
  // ---------------------------------------------------------------------------------------------------------

  /** What one row of the file does. */
  datatype Action = Stop | Skip | Assign(named: Named) | Fail

  function Act(row: seq<string>): Action {
    if row == [] then Fail
    else if row[0] == "?meta" then Stop
    else if row[0] != "?register" then Skip
    else if |row| < 3 then Fail
    else
      var v := Parse(row[2], 16);
      if v.None? then Fail else Assign(Named(row[1], v.value))
  }

  function Actions(rows: seq<seq<string>>): (acts: seq<Action>)
    ensures |acts| == |rows| && forall i :: 0 <= i < |rows| ==> acts[i] == Act(rows[i])
  {
    seq(|rows|, i requires 0 <= i < |rows| => Act(rows[i]))
  }

  /** The assignments of the rows from i on, in order. */
  function Read(acts: seq<Action>, i: nat): Option<seq<Named>>
    requires i <= |acts|
    decreases |acts| - i
  {
    if i == |acts| then Some([])
    else
      match acts[i]
      case Stop => Some([])
      case Fail => None
      case Skip => Read(acts, i + 1)
      case Assign(x) =>
        var rest := Read(acts, i + 1);
        if rest.None? then None else Some([x] + rest.value)
  }

  /** The dictionary after a sequence of assignments. */
  function Dictionary(xs: seq<Named>, n: nat): map<string, int>
    requires n <= |xs|
  {
    if n == 0 then map[] else Dictionary(xs, n - 1)[xs[n - 1].name := xs[n - 1].addr]
  }

  /** The row loop, with its break at the first meta row; the assignments in order and the dictionary they fill. */
  method ReadRegisters(text: string) returns (r: Option<seq<Named>>, lcl: map<string, int>)
    ensures r == Read(Actions(Csv.Records(text)), 0)
    ensures r.Some? ==> lcl == Dictionary(r.value, |r.value|)
  {
    r, lcl := Perform(Actions(Csv.Records(text)));
  }

  method Perform(acts: seq<Action>) returns (r: Option<seq<Named>>, lcl: map<string, int>)
    ensures r == Read(acts, 0)
    ensures r.Some? ==> lcl == Dictionary(r.value, |r.value|)
  {
    var done := [];
    lcl := map[];
    var i := 0;
    PendingStart(acts);
    while i < |acts|
      invariant 0 <= i <= |acts|
      invariant Pending(acts, done, i)
      invariant lcl == Dictionary(done, |done|)
    {
      PendingNext(acts, done, i);
      match acts[i] {
        case Stop =>
          return Some(done), lcl;
        case Fail =>
          return None, lcl;
        case Skip =>
        case Assign(x) =>
          DictionarySnoc(done, x);
          done := done + [x];
          lcl := lcl[x.name := x.addr];
      }
      i := i + 1;
    }
    PendingEnd(acts, done);
    r := Some(done);
  }

  /** What has been assigned, and what the rows from i on will add. */
  ghost predicate Pending(acts: seq<Action>, done: seq<Named>, i: nat)
    requires i <= |acts|
  {
    var rest := Read(acts, i);
    Read(acts, 0) == if rest.None? then None else Some(done + rest.value)
  }

  lemma {:induction false} PendingStart(acts: seq<Action>)
    ensures Pending(acts, [], 0)
  {
    var rest := Read(acts, 0);
    if rest.Some? {
      assert [] + rest.value == rest.value;
    }
  }

  lemma {:induction false} PendingEnd(acts: seq<Action>, done: seq<Named>)
    requires Pending(acts, done, |acts|)
    ensures Read(acts, 0) == Some(done)
  {
    assert done + [] == done;
  }

  lemma {:induction false} PendingNext(acts: seq<Action>, done: seq<Named>, i: nat)
    requires i < |acts| && Pending(acts, done, i)
    ensures acts[i].Stop? ==> Read(acts, 0) == Some(done)
    ensures acts[i].Fail? ==> Read(acts, 0) == None
    ensures acts[i].Skip? ==> Pending(acts, done, i + 1)
    ensures acts[i].Assign? ==> Pending(acts, done + [acts[i].named], i + 1)
  {
    var rest := Read(acts, i + 1);
    if acts[i].Assign? && rest.Some? {
      Regroup(done, [acts[i].named], rest.value);
    }
    assert done + [] == done;
  }

  lemma {:induction false} DictionarySnoc(done: seq<Named>, x: Named)
    ensures Dictionary(done + [x], |done| + 1) == Dictionary(done, |done|)[x.name := x.addr]
  {
    DictionaryPrefix(done, [x], |done|);
  }

  lemma {:induction false} DictionaryPrefix(a: seq<Named>, b: seq<Named>, n: nat)
    requires n <= |a|
    ensures Dictionary(a + b, n) == Dictionary(a, n)
  {
    if n > 0 {
      DictionaryPrefix(a, b, n - 1);
    }
  }

  /** The last assignment to a name wins. */
  lemma {:induction false} LastWins(xs: seq<Named>, n: nat, i: nat)
    requires i < n <= |xs| && forall j :: i < j < n ==> xs[j].name != xs[i].name
    ensures xs[i].name in Dictionary(xs, n) && Dictionary(xs, n)[xs[i].name] == xs[i].addr
  {
    if i < n - 1 {
      LastWins(xs, n - 1, i);
    }
  }

  /** The dictionary has the assigned names and no others. */
  lemma {:induction false} DictionaryNames(xs: seq<Named>, n: nat, name: string)
    requires n <= |xs|
    ensures name in Dictionary(xs, n) <==> exists i :: 0 <= i < n && xs[i].name == name
  {
    if n > 0 {
      DictionaryNames(xs, n - 1, name);
    }
  }

  // ---------------------------------------------------------------------------------------------------------
  // Columns of a printed row
  // ---------------------------------------------------------------------------------------------------------

  /** A padded word, then something that starts with whitespace. */
  lemma {:induction false} SplitPadded(w: string, width: nat, rest: string)
    requires Word(w) && rest != "" && IsSpace(rest[0])
    ensures Split(Pad(w, width) + rest) == [w] + Split(rest)
  {
    var blanks := Blanks(width - |w|);
    Regroup(w, blanks, rest);
    assert blanks + rest != "" && IsSpace((blanks + rest)[0]);
    SplitWord(w, blanks + rest);
    SplitSpaces(blanks, rest);
  }

  lemma {:induction false} SplitBlank(s: string)
    ensures Split(" " + s) == Split(s)
  {
    SplitSpaces(" ", s);
  }

  lemma {:induction false} SplitTwoColumns(a: string, b: string)
    requires Word(a) && Word(b)
    ensures Split(TwoColumns(a, b)) == [a, b]
  {
    var r := " " + (Pad(b, 16) + "\n");
    LastColumn(b);
    SplitBlank(Pad(b, 16) + "\n");
    SplitPadded(a, 16, r);
    SplitBlank(Pad(a, 16) + r);
  }

  lemma {:induction false} TailColumns(e: Entry)
    ensures Split(RowTail(e)) == [ModeDigit(e.mode), Hex(e.addr), Hex(e.nbytes)]
  {
    HexWord(e.addr);
    HexWord(e.nbytes);
    var m, r := ModeDigit(e.mode), TwoColumns(Hex(e.addr), Hex(e.nbytes));
    SplitTwoColumns(Hex(e.addr), Hex(e.nbytes));
    SplitPadded(m, 1, r);
    SplitBlank(Pad(m, 1) + r);
  }

  /** The columns come back, however long the name is. */
  lemma {:induction false} RowColumns(e: Entry, width: nat)
    requires Word(e.name)
    ensures Split(Row(e, width)) == [e.name, ModeDigit(e.mode), Hex(e.addr), Hex(e.nbytes)]
  {
    TailColumns(e);
    SplitPadded(e.name, width, RowTail(e));
  }

  /** r is s with blanks behind it up to the width. */
  ghost predicate LeftJustified(r: string, s: string, width: nat) {
    s <= r && |r| == (if |s| < width then width else |s|) && forall i :: |s| <= i < |r| ==> r[i] == ' '
  }

  lemma {:induction false} PadJustifies(s: string, width: nat)
    ensures LeftJustified(Pad(s, width), s, width)
  {
  }

  /** The columns are left-justified and one blank apart: the name to the given width, address and size to 16. */
  lemma {:induction false} RowLayout(e: Entry, width: nat)
    ensures exists a, b, c :: LeftJustified(a, e.name, width) && LeftJustified(b, Hex(e.addr), 16) &&
                              LeftJustified(c, Hex(e.nbytes), 16) &&
                              Row(e, width) == a + " " + ModeDigit(e.mode) + " " + b + " " + c + "\n"
  {
    var a, b, c := Pad(e.name, width), Pad(Hex(e.addr), 16), Pad(Hex(e.nbytes), 16);
    PadJustifies(e.name, width);
    PadJustifies(Hex(e.addr), 16);
    PadJustifies(Hex(e.nbytes), 16);
    assert Pad(ModeDigit(e.mode), 1) == ModeDigit(e.mode);
    Flattened(a, ModeDigit(e.mode), b, c);
  }

  lemma {:induction false} Flattened(a: string, m: string, b: string, c: string)
    ensures a + (" " + (m + (" " + (b + (" " + (c + "\n")))))) == a + " " + m + " " + b + " " + c + "\n"
  {
  }

  lemma {:induction false} LastColumn(w: string)
    requires Word(w)
    ensures Split(Pad(w, 16) + "\n") == [w]
  {
    SplitPadded(w, 16, "\n");
    SplitSpaces("\n", "");
    assert "\n" + "" == "\n";
  }

  // ---------------------------------------------------------------------------------------------------------
  // The table read line by line
  // ---------------------------------------------------------------------------------------------------------

  ghost predicate WordNames(es: seq<Entry>) {
    forall i :: 0 <= i < |es| ==> Word(es[i].name)
  }

  lemma {:induction false} PrefixLine(x: string, y: string)
    requires Free(x, '\n') && IsLine(y)
    ensures IsLine(x + y)
  {
    assert (x + y)[..|x + y| - 1] == x + y[..|y| - 1];
  }

  lemma {:induction false} TailIsLine(e: Entry)
    ensures IsLine(RowTail(e))
  {
    var m, a, b := ModeDigit(e.mode), Hex(e.addr), Hex(e.nbytes);
    HexWord(e.addr);
    HexWord(e.nbytes);
    PadFree(m, 1);
    PadFree(a, 16);
    PadFree(b, 16);
    PrefixLine(Pad(b, 16), "\n");
    PrefixLine(" ", Pad(b, 16) + "\n");
    PrefixLine(Pad(a, 16), " " + (Pad(b, 16) + "\n"));
    PrefixLine(" ", Pad(a, 16) + (" " + (Pad(b, 16) + "\n")));
    PrefixLine(Pad(m, 1), TwoColumns(a, b));
    PrefixLine(" ", Pad(m, 1) + TwoColumns(a, b));
  }

  lemma {:induction false} RowIsLine(e: Entry, width: nat)
    requires Free(e.name, '\n')
    ensures IsLine(Row(e, width))
  {
    TailIsLine(e);
    PadFree(e.name, width);
    PrefixLine(Pad(e.name, width), RowTail(e));
  }

  lemma {:induction false} PadFree(w: string, width: nat)
    requires Free(w, '\n')
    ensures Free(Pad(w, width), '\n')
  {
    var b := Blanks(width - |w|);
    assert Free(b, '\n');
  }

  lemma {:induction false} TableLines(es: seq<Entry>, width: nat)
    requires WordNames(es)
    ensures Lines(Table(es, width)) == Rows(es, width)
  {
    var rows := Rows(es, width);
    forall i | 0 <= i < |rows| ensures IsLine(rows[i]) {
      RowIsLine(es[i], width);
    }
    LinesConcat(rows, "");
    assert Concat(rows) + "" == Concat(rows);
  }

  ghost predicate FourColumns(lines: seq<string>) {
    forall i :: 0 <= i < |lines| ==> |Split(lines[i])| == 4
  }

  /** Every line has four columns, or unpacking raises. */
  lemma {:induction false} RegisterRowsAre(lines: seq<string>, n: nat)
    requires n <= |lines|
    ensures RegisterRows(lines, n).Some? <==> FourColumns(lines[..n])
    ensures RegisterRows(lines, n).Some? ==>
              && |RegisterRows(lines, n).value| == n
              && forall i :: 0 <= i < n ==>
                   |Split(lines[i])| == 4 && RegisterRows(lines, n).value[i] == RegisterRow(Split(lines[i]))
  {
    if n > 0 {
      RegisterRowsAre(lines, n - 1);
      assert lines[..n] == lines[..n - 1] + [lines[n - 1]];
    }
  }
}
