/** Printing the register table, splitting it into register rows and reading those gives the registers back. */
module RegisterRoundTrip {

  import opened Text
  import opened PyInt
  import opened Csv
  import opened RegisterTable
  import opened Wrappers

  ghost function Wanted(es: seq<Entry>): (xs: seq<Named>)
    ensures |xs| == |es| && forall i :: 0 <= i < |es| ==> xs[i] == Named(es[i].name, es[i].addr)
  {
    seq(|es|, i requires 0 <= i < |es| => Named(es[i].name, es[i].addr))
  }

  /** What the reader finds in the file made from a table. */
  ghost function ReadBack(table: string, meta: string): Option<seq<Named>> {
    var rows := RegisterRows(Lines(table), |Lines(table)|);
    if rows.None? then None else Read(Actions(Records(Fpg(Concat(rows.value), meta))), 0)
  }

  /** A name that survives: non-empty, free of whitespace, and not starting with a double quote. */
  ghost predicate Good(name: string) {
    Word(name) && name[0] != '"'
  }

  ghost predicate GoodNames(es: seq<Entry>) {
    forall i :: 0 <= i < |es| ==> Good(es[i].name)
  }

  // ---------------------------------------------------------------------------------------------------------
  // Register rows as records
  // ---------------------------------------------------------------------------------------------------------

  ghost predicate Words4(cols: seq<string>) {
    |cols| == 4 && Word(cols[0]) && Word(cols[2]) && Word(cols[3])
  }

  ghost function FieldRow(cols: seq<string>): seq<string>
    requires |cols| == 4
  {
    ["?register", cols[0], "0x" + cols[2], "0x" + cols[3]]
  }

  lemma {:induction false} RowText(cols: seq<string>, s: string)
    requires |cols| == 4
    ensures RegisterRow(cols) + s ==
            "?register" + ("\t" + (cols[0] + ("\t" + ("0x" + cols[2] + ("\t" + ("0x" + cols[3] + ("\n" + s)))))))
  {
  }

  lemma {:induction false} HexUnquoted(w: string)
    requires Word(w)
    ensures Unquoted("0x" + w)
  {
  }

  /** A register row whose name does not start with a quote is read as its four fields. */
  lemma {:induction false} RowRecord(cols: seq<string>, s: string)
    requires Words4(cols) && cols[0][0] != '"'
    ensures Records(RegisterRow(cols) + s) == [FieldRow(cols)] + Records(s)
  {
    var a, b := "0x" + cols[2], "0x" + cols[3];
    HexUnquoted(cols[2]);
    HexUnquoted(cols[3]);
    RowText(cols, s);
    FieldThenNewline(b, s);
    FieldThenTab(a, b + ("\n" + s));
    FieldThenTab(cols[0], a + ("\t" + (b + ("\n" + s))));
    FieldThenTab("?register", cols[0] + ("\t" + (a + ("\t" + (b + ("\n" + s))))));
    assert (RegisterRow(cols) + s)[0] == '?';
    assert ["?register"] + ([cols[0]] + ([a] + [b])) == FieldRow(cols);
  }

  /** Otherwise the second field is something else. */
  lemma {:induction false} QuotedRecord(cols: seq<string>, s: string) returns (d: string)
    requires Words4(cols) && cols[0][0] == '"'
    ensures var row := Record(RegisterRow(cols) + s).row;
            |row| >= 2 && row[0] == "?register" && Unquoting(cols[0], row[1], d)
    ensures Records(RegisterRow(cols) + s) != [] && Records(RegisterRow(cols) + s)[0] == Record(RegisterRow(cols) + s).row
  {
    var t := cols[2] + ("\t" + ("0x" + cols[3] + ("\n" + s)));
    RowText(cols, s);
    assert "0x" + cols[2] + ("\t" + ("0x" + cols[3] + ("\n" + s))) == "0x" + t;
    assert "\t" + ("0x" + t) == "\t0x" + t;
    FieldThenTab("?register", cols[0] + ("\t0x" + t));
    d := QuotedField(cols[0], t);
    assert (RegisterRow(cols) + s)[0] == '?';
  }

  // ---------------------------------------------------------------------------------------------------------
  // The file
  // ---------------------------------------------------------------------------------------------------------

  ghost predicate AllGood(colss: seq<seq<string>>) {
    forall i :: 0 <= i < |colss| ==> Words4(colss[i]) && colss[i][0][0] != '"'
  }

  ghost function RowTexts(colss: seq<seq<string>>): (rows: seq<string>)
    requires AllGood(colss)
    ensures |rows| == |colss| && forall i :: 0 <= i < |colss| ==> rows[i] == RegisterRow(colss[i])
  {
    seq(|colss|, i requires 0 <= i < |colss| => RegisterRow(colss[i]))
  }

  ghost function FieldRows(colss: seq<seq<string>>): (rows: seq<seq<string>>)
    requires AllGood(colss)
    ensures |rows| == |colss| && forall i :: 0 <= i < |colss| ==> rows[i] == FieldRow(colss[i])
  {
    seq(|colss|, i requires 0 <= i < |colss| => FieldRow(colss[i]))
  }

  lemma {:induction false} RowsRecords(colss: seq<seq<string>>, s: string)
    requires AllGood(colss)
    ensures Records(Concat(RowTexts(colss)) + s) == FieldRows(colss) + Records(s)
    decreases |colss|
  {
    if colss == [] {
      assert Concat(RowTexts(colss)) + s == s;
    } else {
      var cols, rest := colss[0], colss[1..];
      assert RowTexts(colss)[1..] == RowTexts(rest);
      RowsRecords(rest, s);
      Regroup(RegisterRow(cols), Concat(RowTexts(rest)), s);
      RowRecord(cols, Concat(RowTexts(rest)) + s);
      Regroup([FieldRow(cols)], FieldRows(rest), Records(s));
      assert [FieldRow(cols)] + FieldRows(rest) == FieldRows(colss);
    }
  }

  lemma {:induction false} HeaderRecords(s: string)
    ensures Records(Concat(HEADER) + s) == [["#!/bin/kcpfpg"], ["?uploadbin"]] + Records(s)
  {
    var a, b := "#!/bin/kcpfpg", "?uploadbin";
    assert HEADER[1..] == [HEADER[1]] && HEADER[1..][1..] == [];
    assert Concat(HEADER[1..]) == HEADER[1] + "";
    assert Concat(HEADER) + s == a + ("\n" + (b + ("\n" + s)));
    LineRecord(b, s);
    LineRecord(a, b + ("\n" + s));
  }

  lemma {:induction false} HeaderActs()
    ensures Act(["#!/bin/kcpfpg"]) == Skip && Act(["?uploadbin"]) == Skip
  {
    assert "#!/bin/kcpfpg"[1] == '!' && "?uploadbin"[1] == 'u' && "?register"[1] == 'r' && "?meta"[1] == 'm';
  }

  /** The row that ends the reading. */
  lemma {:induction false} MetaRecord(meta: string)
    ensures Records("?meta\t" + meta) != [] && Act(Records("?meta\t" + meta)[0]) == Stop
  {
    var s := "?meta\t" + meta;
    assert s == "?meta" + ("\t" + meta);
    FieldThenTab("?meta", meta);
    assert s[0] == '?';
  }

  /** The actions of a file whose register rows start with the given good ones. */
  lemma {:induction false} FileActs(colss: seq<seq<string>>, more: string, meta: string)
    requires AllGood(colss)
    ensures var acts := Actions(Records(Fpg(Concat(RowTexts(colss)) + more, meta)));
            var tail := Actions(Records(more + ("?meta\t" + meta)));
            acts == [Skip, Skip] + Actions(FieldRows(colss)) + tail
  {
    var rows := Concat(RowTexts(colss));
    var end := "?meta\t" + meta;
    assert Fpg(rows + more, meta) == Concat(HEADER) + (rows + (more + end));
    HeaderRecords(rows + (more + end));
    RowsRecords(colss, more + end);
    var header := [["#!/bin/kcpfpg"], ["?uploadbin"]];
    HeaderActs();
    assert Actions(header) == [Skip, Skip];
    ActionsConcat(header, FieldRows(colss) + Records(more + end));
    ActionsConcat(FieldRows(colss), Records(more + end));
    Regroup([Skip, Skip], Actions(FieldRows(colss)), Actions(Records(more + end)));
  }

  lemma {:induction false} ActionsConcat(a: seq<seq<string>>, b: seq<seq<string>>)
    ensures Actions(a + b) == Actions(a) + Actions(b)
  {
  }

  /** A register row assigns its name, unless its address is no number. */
  lemma {:induction false} ActRegister(cols: seq<string>)
    requires |cols| == 4
    ensures var v := Parse("0x" + cols[2], 16);
            Act(FieldRow(cols)) == if v.None? then Fail else Assign(Named(cols[0], v.value))
  {
    assert "?register"[1] == 'r' && "?meta"[1] == 'm';
  }

  // ---------------------------------------------------------------------------------------------------------
  // Reading
  // ---------------------------------------------------------------------------------------------------------

  /** What is read of a stretch of assignments and failures. */
  lemma {:induction false} ReadPrefix(acts: seq<Action>, i: nat, n: nat)
    requires i + n <= |acts| && forall j :: i <= j < i + n ==> acts[j].Assign? || acts[j].Fail?
    requires Read(acts, i).Some?
    ensures |Read(acts, i).value| >= n
    ensures forall j :: i <= j < i + n ==> acts[j] == Assign(Read(acts, i).value[j - i])
    decreases n
  {
    if n > 0 {
      ReadPrefix(acts, i + 1, n - 1);
    }
  }

  lemma {:induction false} ReadAssigns(acts: seq<Action>, i: nat, xs: seq<Named>)
    requires i + |xs| < |acts| && acts[i + |xs|] == Stop
    requires forall j :: 0 <= j < |xs| ==> acts[i + j] == Assign(xs[j])
    ensures Read(acts, i) == Some(xs)
    decreases |xs|
  {
    if xs != [] {
      assert acts[i + 0] == Assign(xs[0]);
      forall j | 0 <= j < |xs| - 1 ensures acts[i + 1 + j] == Assign(xs[1..][j]) {
        assert acts[i + (j + 1)] == Assign(xs[j + 1]);
      }
      ReadAssigns(acts, i + 1, xs[1..]);
      assert [xs[0]] + xs[1..] == xs;
    }
  }

  // ---------------------------------------------------------------------------------------------------------
  // Good names come back
  // ---------------------------------------------------------------------------------------------------------

  ghost function ColumnsOf(es: seq<Entry>): (colss: seq<seq<string>>)
    ensures |colss| == |es|
    ensures forall i :: 0 <= i < |es| ==> colss[i] == [es[i].name, ModeDigit(es[i].mode), Hex(es[i].addr), Hex(es[i].nbytes)]
  {
    seq(|es|, i requires 0 <= i < |es| => [es[i].name, ModeDigit(es[i].mode), Hex(es[i].addr), Hex(es[i].nbytes)])
  }

  lemma {:induction false} ColumnsGood(es: seq<Entry>)
    requires GoodNames(es)
    ensures AllGood(ColumnsOf(es))
    ensures forall i :: 0 <= i < |es| ==> Actions(FieldRows(ColumnsOf(es)))[i] == Assign(Wanted(es)[i])
  {
    forall i | 0 <= i < |es| ensures Words4(ColumnsOf(es)[i]) && Good(ColumnsOf(es)[i][0]) {
      HexWord(es[i].addr);
      HexWord(es[i].nbytes);
    }
    forall i | 0 <= i < |es| ensures Act(FieldRow(ColumnsOf(es)[i])) == Assign(Wanted(es)[i]) {
      ActRegister(ColumnsOf(es)[i]);
      ParseHex(es[i].addr);
    }
  }

  lemma {:induction false} PrintedColumns(es: seq<Entry>, width: nat, lines: seq<string>, n: nat)
    requires GoodNames(es) && n <= |es| && n <= |lines| && forall i :: 0 <= i < n ==> lines[i] == Row(es[i], width)
    ensures forall i :: 0 <= i < n ==> Split(lines[i]) == ColumnsOf(es)[i]
  {
    forall i | 0 <= i < n ensures Split(lines[i]) == ColumnsOf(es)[i] {
      RowColumns(es[i], width);
    }
  }

  /** The register rows made from lines with known columns. */
  lemma {:induction false} RowsFromColumns(lines: seq<string>, colss: seq<seq<string>>, n: nat)
    requires AllGood(colss) && n <= |colss| && n <= |lines| && forall i :: 0 <= i < n ==> Split(lines[i]) == colss[i]
    ensures RegisterRows(lines, n) == Some(RowTexts(colss)[..n])
  {
    RegisterRowsAre(lines, n);
    assert FourColumns(lines[..n]) by {
      forall i | 0 <= i < n ensures |Split(lines[..n][i])| == 4 {
        assert Words4(colss[i]);
      }
    }
    var rows, texts := RegisterRows(lines, n).value, RowTexts(colss)[..n];
    assert forall i :: 0 <= i < n ==> rows[i] == texts[i];
    assert rows == texts;
  }

  /** The register rows made from a printed table. */
  lemma {:induction false} PrintedRows(es: seq<Entry>, width: nat)
    requires GoodNames(es)
    ensures AllGood(ColumnsOf(es))
    ensures RegisterRows(Lines(Table(es, width)), |Lines(Table(es, width))|) == Some(RowTexts(ColumnsOf(es)))
  {
    TableLines(es, width);
    ColumnsGood(es);
    PrintedColumns(es, width, Rows(es, width), |es|);
    RowsFromColumns(Rows(es, width), ColumnsOf(es), |es|);
    assert RowTexts(ColumnsOf(es))[..|es|] == RowTexts(ColumnsOf(es));
  }

  lemma {:induction false} GoodNamesComeBack(es: seq<Entry>, width: nat, meta: string)
    requires GoodNames(es)
    ensures ReadBack(Table(es, width), meta) == Some(Wanted(es))
  {
    PrintedRows(es, width);
    GoodFileReads(es, meta);
  }

  lemma {:induction false} GoodFileReads(es: seq<Entry>, meta: string)
    requires GoodNames(es) && AllGood(ColumnsOf(es))
    ensures Read(Actions(Records(Fpg(Concat(RowTexts(ColumnsOf(es))), meta))), 0) == Some(Wanted(es))
  {
    var rows, fields := Concat(RowTexts(ColumnsOf(es))), FieldRows(ColumnsOf(es));
    var header, tail := [["#!/bin/kcpfpg"], ["?uploadbin"]], Records("?meta\t" + meta);
    ColumnsGood(es);
    FileRecords(ColumnsOf(es), meta);
    HeaderActs();
    assert Actions(header) == [Skip, Skip];
    ActionsConcat(header + fields, tail);
    ActionsConcat(header, fields);
    MetaRecord(meta);
    FromTheTop(Actions(header + fields + tail), Actions(fields), Actions(tail), Wanted(es));
  }

  /** What the file's rows say of the entries: the name, the address and the size in hexadecimal, after the two header
      rows. */
  ghost predicate RowsSay(rows: seq<seq<string>>, es: seq<Entry>) {
    && |rows| >= 2 + |es|
    && forall k :: 0 <= k < |es| ==>
         rows[2 + k] == ["?register", es[k].name, "0x" + Hex(es[k].addr), "0x" + Hex(es[k].nbytes)]
  }

  lemma {:induction false} FileRecords(colss: seq<seq<string>>, meta: string)
    requires AllGood(colss)
    ensures Records(Fpg(Concat(RowTexts(colss)), meta)) ==
            [["#!/bin/kcpfpg"], ["?uploadbin"]] + FieldRows(colss) + Records("?meta\t" + meta)
  {
    var rows, end := Concat(RowTexts(colss)), "?meta\t" + meta;
    assert Fpg(rows, meta) == Concat(HEADER) + (rows + end);
    HeaderRecords(rows + end);
    RowsRecords(colss, end);
    Regroup([["#!/bin/kcpfpg"], ["?uploadbin"]], FieldRows(colss), Records(end));
  }

  /** Good names, their addresses and their sizes stand in the rows of the file. */
  lemma {:induction false} GoodRows(es: seq<Entry>, width: nat, meta: string)
    requires GoodNames(es)
    ensures var rows := RegisterRows(Lines(Table(es, width)), |Lines(Table(es, width))|);
            rows.Some? && RowsSay(Records(Fpg(Concat(rows.value), meta)), es)
  {
    PrintedRows(es, width);
    FileRecords(ColumnsOf(es), meta);
    FieldsSay(es, Records("?meta\t" + meta));
  }

  lemma {:induction false} FieldsSay(es: seq<Entry>, tail: seq<seq<string>>)
    requires AllGood(ColumnsOf(es))
    ensures RowsSay([["#!/bin/kcpfpg"], ["?uploadbin"]] + FieldRows(ColumnsOf(es)) + tail, es)
  {
    var header := [["#!/bin/kcpfpg"], ["?uploadbin"]];
    var rows := header + FieldRows(ColumnsOf(es)) + tail;
    forall k | 0 <= k < |es|
      ensures rows[2 + k] == ["?register", es[k].name, "0x" + Hex(es[k].addr), "0x" + Hex(es[k].nbytes)]
    {
      assert rows[2 + k] == FieldRows(ColumnsOf(es))[k];
    }
  }

  lemma {:induction false} FromTheTop(acts: seq<Action>, mid: seq<Action>, tail: seq<Action>, xs: seq<Named>)
    requires acts == [Skip, Skip] + mid + tail && tail != [] && tail[0] == Stop
    requires |mid| == |xs| && forall i :: 0 <= i < |xs| ==> mid[i] == Assign(xs[i])
    ensures Read(acts, 0) == Some(xs)
  {
    assert Read(acts, 0) == Read(acts, 1) == Read(acts, 2);
    forall j | 0 <= j < |xs| ensures acts[2 + j] == Assign(xs[j]) {
      assert acts[2 + j] == mid[j];
    }
    assert acts[2 + |xs|] == tail[0];
    ReadAssigns(acts, 2, xs);
  }

  // ---------------------------------------------------------------------------------------------------------
  // Other names do not
  // ---------------------------------------------------------------------------------------------------------

  /** The first line of a text. */
  lemma {:induction false} FirstLine(p: string, s: string) returns (u: string)
    requires p != "" && Free(p, '\n')
    ensures Lines(p + s) != [] && Lines(p + s)[0] == p + u
  {
    var t := p + s;
    var k := Find(t, '\n', 0);
    assert forall i :: 0 <= i < |p| ==> t[i] == p[i];
    var line := Lines(t)[0];
    assert |p| <= |line| && line[..|p|] == p;
    u := line[|p|..];
  }

  lemma {:induction false} FirstWordChar(s: string)
    requires s != "" && !IsSpace(s[0])
    ensures Split(s) != [] && Split(s)[0] != "" && Split(s)[0][0] == s[0]
  {
  }

  /** A nameless row has three columns. */
  lemma {:induction false} NamelessRow(e: Entry, width: nat, s: string)
    requires e.name == ""
    ensures Lines(Row(e, width) + s) != [] && |Split(Lines(Row(e, width) + s)[0])| == 3
  {
    RowIsLine(e, width);
    LinesRow(Row(e, width), s);
    TailColumns(e);
    assert Pad("", width) == Blanks(width);
    SplitSpaces(Pad("", width), RowTail(e));
  }

  /** A text that starts with a tab and a number. */
  lemma {:induction false} TabFirst(t: string)
    requires "\t0x" <= t
    ensures Lines(t) != []
    ensures var cols := Split(Lines(t)[0]); cols != [] && cols[0] != "" && cols[0][0] == '0'
  {
    assert t == "\t0x" + t[3..];
    var u := FirstLine("\t0x", t[3..]);
    assert "\t0x" + u == "\t" + ("0x" + u);
    SplitSpaces("\t", "0x" + u);
    FirstWordChar("0x" + u);
  }

  /** A text that starts with a word. */
  lemma {:induction false} WordFirst(t: string, d: string, c: char)
    requires Word(d) && d + [c] <= t && IsSpace(c) && c != '\n'
    ensures Lines(t) != []
    ensures var cols := Split(Lines(t)[0]); cols != [] && cols[0] == d
  {
    var p := d + [c];
    assert t == p + t[|p|..];
    var u := FirstLine(p, t[|p|..]);
    assert p + u == d + ([c] + u);
    SplitWord(d, [c] + u);
  }

  /** A row starts with its name, and a blank behind it. */
  lemma {:induction false} RowStarts(e: Entry, width: nat, s: string)
    ensures e.name + [' '] <= Row(e, width) + s
  {
    var after := RowTail(e) + s;
    assert RowTail(e)[0] == ' ';
    Regroup(Pad(e.name, width), RowTail(e), s);
    BlankBehind(e.name, Blanks(width - |e.name|), after);
  }

  lemma {:induction false} BlankBehind(n: string, blanks: string, after: string)
    requires (forall i :: 0 <= i < |blanks| ==> blanks[i] == ' ') && after != "" && after[0] == ' '
    ensures n + [' '] <= (n + blanks) + after
  {
    assert ((n + blanks) + after)[..|n|] == n;
    assert ((n + blanks) + after)[|n|] == ' ';
  }

  lemma {:induction false} PrefixOfPrefix(a: string, b: string, c: string)
    requires a <= b && b <= c
    ensures a <= c
  {
  }

  /** An entry that came out of a quoted first column does not print with that first column. */
  lemma {:induction false} QuotedNeverPrinted(e: Entry, width: nat, s: string, w: string, d: string)
    requires w != "" && w[0] == '"' && Unquoting(w, e.name, d)
    ensures Lines(Row(e, width) + s) != []
    ensures var cols := Split(Lines(Row(e, width) + s)[0]); |cols| != 4 || cols[0] != w
  {
    var t := Row(e, width) + s;
    RowStarts(e, width, s);
    if e.name == "" {
      NamelessRow(e, width, s);
    } else if e.name == d {
      WordFirst(t, d, ' ');
    } else {
      PrefixOfPrefix(e.name, e.name + [' '], t);
      PrefixOfPrefix(d + "\t0x", e.name, t);
      if d == "" {
        assert d + "\t0x" == "\t0x";
        TabFirst(t);
      } else {
        assert d + ['\t'] <= d + "\t0x";
        PrefixOfPrefix(d + ['\t'], d + "\t0x", t);
        WordFirst(t, d, '\t');
      }
    }
  }

  /** A table in front of, at and behind entry k. */
  lemma {:induction false} TableSplit(es: seq<Entry>, width: nat, k: nat) returns (s: string)
    requires k < |es|
    ensures Table(es, width) == Concat(Rows(es[..k], width)) + (Row(es[k], width) + s)
  {
    var rows := Rows(es, width);
    s := Concat(rows[k + 1..]);
    assert rows[..k] == Rows(es[..k], width);
    ConcatAt(rows, k);
  }

  /** The lines of a table up to the first entry in question. */
  lemma {:induction false} LinesUpTo(es: seq<Entry>, width: nat, k: nat) returns (s: string)
    requires k < |es| && GoodNames(es[..k])
    ensures Lines(Table(es, width)) == Rows(es[..k], width) + Lines(Row(es[k], width) + s)
  {
    s := TableSplit(es, width, k);
    var front := Rows(es[..k], width);
    forall i | 0 <= i < |front| ensures IsLine(front[i]) {
      RowIsLine(es[..k][i], width);
    }
    LinesConcat(front, Row(es[k], width) + s);
  }

  /** The file read up to register row k, after good ones. */
  lemma {:induction false} ReadUpTo(colss: seq<seq<string>>, cols: seq<string>, more: string, meta: string, xs: seq<Named>)
      returns (d: string)
    requires AllGood(colss) && Words4(cols)
    requires Read(Actions(Records(Fpg(Concat(RowTexts(colss)) + (RegisterRow(cols) + more), meta))), 0) == Some(xs)
    ensures |xs| > |colss|
    ensures if cols[0][0] == '"' then Unquoting(cols[0], xs[|colss|].name, d) else xs[|colss|].name == cols[0]
  {
    var end := "?meta\t" + meta;
    var acts := Actions(Records(Fpg(Concat(RowTexts(colss)) + (RegisterRow(cols) + more), meta)));
    var mid := Actions(FieldRows(colss));
    var rest := Records(RegisterRow(cols) + more + end);
    FileActs(colss, RegisterRow(cols) + more, meta);
    Regroup(RegisterRow(cols), more, end);
    d := "";
    if cols[0][0] == '"' {
      d := QuotedRecord(cols, more + end);
    } else {
      RowRecord(cols, more + end);
    }
    RegisterActs(rest[0]);
    forall i | 0 <= i < |colss| ensures mid[i].Assign? || mid[i].Fail? {
      RegisterActs(FieldRow(colss[i]));
    }
    NextAssigned(acts, mid, Actions(rest), xs);
  }

  lemma {:induction false} RegisterActs(row: seq<string>)
    requires |row| >= 2 && row[0] == "?register"
    ensures Act(row).Fail? || (Act(row).Assign? && Act(row).named.name == row[1])
  {
    assert "?register"[1] == 'r' && "?meta"[1] == 'm';
  }

  lemma {:induction false} NextAssigned(acts: seq<Action>, mid: seq<Action>, tail: seq<Action>, xs: seq<Named>)
    requires acts == [Skip, Skip] + mid + tail && Read(acts, 0) == Some(xs)
    requires tail != [] && (tail[0].Assign? || tail[0].Fail?)
    requires forall i :: 0 <= i < |mid| ==> mid[i].Assign? || mid[i].Fail?
    ensures |xs| > |mid| && tail[0] == Assign(xs[|mid|])
  {
    assert Read(acts, 0) == Read(acts, 1) == Read(acts, 2);
    var n := |mid| + 1;
    forall j | 2 <= j < 2 + n ensures acts[j].Assign? || acts[j].Fail? {
      assert acts[j] == if j < 2 + |mid| then mid[j - 2] else tail[0];
    }
    ReadPrefix(acts, 2, n);
    assert acts[2 + |mid|] == tail[0];
  }

  /** What line k of a table that comes back says about name k. */
  lemma {:induction false} LineSays(lines: seq<string>, colss: seq<seq<string>>, meta: string, k: nat, xs: seq<Named>)
      returns (d: string)
    requires k < |lines| && |colss| == k && AllGood(colss) && forall i :: 0 <= i < k ==> Split(lines[i]) == colss[i]
    requires var rows := RegisterRows(lines, |lines|);
             rows.Some? && Read(Actions(Records(Fpg(Concat(rows.value), meta))), 0) == Some(xs)
    ensures |xs| > k && |Split(lines[k])| == 4 && Word(Split(lines[k])[0])
    ensures var w := Split(lines[k])[0];
            if w[0] == '"' then Unquoting(w, xs[k].name, d) else xs[k].name == w
  {
    var more := RowsSplit(lines, colss, k);
    SplitWords(lines[k]);
    d := ReadUpTo(colss, Split(lines[k]), more, meta, xs);
  }

  /** The names before k being good, so is name k. */
  lemma {:induction false} NextNameGood(es: seq<Entry>, width: nat, meta: string, k: nat)
    requires k < |es| && ReadBack(Table(es, width), meta) == Some(Wanted(es))
    requires GoodUpTo(es, k)
    ensures Good(es[k].name)
  {
    var lines, front := Lines(Table(es, width)), es[..k];
    var s := FrontColumns(es, width, k);
    ColumnsGood(front);
    var d := LineSays(lines, ColumnsOf(front), meta, k, Wanted(es));
    var w := Split(lines[k])[0];
    if w[0] == '"' {
      QuotedNeverPrinted(es[k], width, s, w, d);
    }
  }

  /** The lines in front of entry k have the columns of the entries, and line k starts entry k. */
  lemma {:induction false} FrontColumns(es: seq<Entry>, width: nat, k: nat) returns (s: string)
    requires k < |es| && GoodNames(es[..k])
    ensures var lines := Lines(Table(es, width));
            && k < |lines| && (forall i :: 0 <= i < k ==> Split(lines[i]) == ColumnsOf(es[..k])[i])
            && Lines(Row(es[k], width) + s) != [] && lines[k] == Lines(Row(es[k], width) + s)[0]
  {
    s := LinesUpTo(es, width, k);
    RowStarts(es[k], width, s);
    assert Lines(Row(es[k], width) + s) != [];
    PrintedColumns(es[..k], width, Lines(Table(es, width)), k);
  }

  /** The register rows of a table, taken apart at line k. */
  lemma {:induction false} RowsSplit(lines: seq<string>, colss: seq<seq<string>>, k: nat) returns (more: string)
    requires k < |lines| && |colss| == k && AllGood(colss) && RegisterRows(lines, |lines|).Some?
    requires forall i :: 0 <= i < k ==> Split(lines[i]) == colss[i]
    ensures |Split(lines[k])| == 4
    ensures Concat(RegisterRows(lines, |lines|).value) == Concat(RowTexts(colss)) + (RegisterRow(Split(lines[k])) + more)
  {
    RegisterRowsAre(lines, |lines|);
    var rows := RegisterRows(lines, |lines|).value;
    more := Concat(rows[k + 1..]);
    assert rows[..k] == RowTexts(colss);
    ConcatAt(rows, k);
  }

  ghost predicate GoodUpTo(es: seq<Entry>, k: nat) {
    k <= |es| && forall i :: 0 <= i < k ==> Good(es[i].name)
  }

  lemma {:induction false} GoodByStep(es: seq<Entry>, n: nat)
    requires n <= |es| && forall k :: 0 <= k < |es| && GoodUpTo(es, k) ==> Good(es[k].name)
    ensures GoodUpTo(es, n)
  {
    if n > 0 {
      GoodByStep(es, n - 1);
    }
  }

  lemma {:induction false} ReturnedNamesGood(es: seq<Entry>, width: nat, meta: string)
    requires ReadBack(Table(es, width), meta) == Some(Wanted(es))
    ensures GoodNames(es)
  {
    forall k | 0 <= k < |es| && GoodUpTo(es, k) ensures Good(es[k].name) {
      NextNameGood(es, width, meta, k);
    }
    GoodByStep(es, |es|);
  }

  /** The names and addresses come back, all of them and in order, if and only if every name is non-empty, free of
      whitespace and does not start with a double quote; the width of the first column does not matter. */
  lemma {:induction false} RoundTripIff(es: seq<Entry>, width: nat, meta: string)
    ensures ReadBack(Table(es, width), meta) == Some(Wanted(es)) <==> GoodNames(es)
  {
    if GoodNames(es) {
      GoodNamesComeBack(es, width, meta);
    }
    if ReadBack(Table(es, width), meta) == Some(Wanted(es)) {
      ReturnedNamesGood(es, width, meta);
    }
  }

  /** The assignments are those of the cores: core i at at[i], which counts the ones before it, with its own address, and its
      aliases behind it in order, with the core's address plus their offset; there is no other assignment. */
  ghost predicate Reads(xs: seq<Named>, cores: seq<Core>, at: seq<nat>) {
    && |at| == |cores| + 1 && at[0] == 0 && at[|cores|] == |xs|
    && forall i :: 0 <= i < |cores| ==>
         && at[i + 1] == at[i] + 1 + |cores[i].memoryMap| <= |xs|
         && CoreRead(xs, cores[i], at[i])
  }

  ghost predicate CoreRead(xs: seq<Named>, c: Core, start: nat)
    requires start + 1 + |c.memoryMap| <= |xs|
  {
    && xs[start] == Named(c.regname, c.baseAddr)
    && forall j :: 0 <= j < |c.memoryMap| ==>
         xs[start + 1 + j] == Named(c.memoryMap[j].name, c.baseAddr + c.memoryMap[j].offset)
  }

  /** The names and addresses of all cores and aliases come back, in order, and nothing else. */
  ghost predicate ComesBack(r: Option<seq<Named>>, cores: seq<Core>) {
    r.Some? && exists at :: Reads(r.value, cores, at)
  }

  /** All cores and aliases have good names. */
  ghost predicate GoodCores(cores: seq<Core>) {
    forall i :: 0 <= i < |cores| ==>
      Good(cores[i].regname) && forall j :: 0 <= j < |cores[i].memoryMap| ==> Good(cores[i].memoryMap[j].name)
  }

  lemma {:induction false} WantedReads(es: seq<Entry>, cores: seq<Core>, at: seq<nat>)
    requires Listed(es, cores, at)
    ensures Reads(Wanted(es), cores, at)
  {
    forall i | 0 <= i < |cores| ensures CoreRead(Wanted(es), cores[i], at[i]) {
      assert CoreListed(es, cores[i], at[i]);
    }
  }

  /** The line a position belongs to. */
  lemma {:induction false} CoreOf(cores: seq<Core>, at: seq<nat>, n: nat, q: nat) returns (i: nat)
    requires |at| == |cores| + 1 && at[0] == 0 && n <= |cores| && q < at[n]
    requires forall i :: 0 <= i < |cores| ==> at[i + 1] == at[i] + 1 + |cores[i].memoryMap|
    ensures i < n && at[i] <= q <= at[i] + |cores[i].memoryMap|
  {
    i := n - 1;
    if q < at[i] {
      i := CoreOf(cores, at, n - 1, q);
    }
  }

  lemma {:induction false} SameStarts(cores: seq<Core>, at: seq<nat>, at': seq<nat>, n: nat)
    requires |at| == |at'| == |cores| + 1 && at[0] == at'[0] == 0 && n <= |cores|
    requires forall i :: 0 <= i < |cores| ==> at[i + 1] == at[i] + 1 + |cores[i].memoryMap|
    requires forall i :: 0 <= i < |cores| ==> at'[i + 1] == at'[i] + 1 + |cores[i].memoryMap|
    ensures at[n] == at'[n]
  {
    if n > 0 {
      SameStarts(cores, at, at', n - 1);
    }
  }

  lemma {:induction false} CoreReadAt(xs: seq<Named>, c: Core, start: nat, q: nat)
    requires start + 1 + |c.memoryMap| <= |xs| && CoreRead(xs, c, start) && start <= q <= start + |c.memoryMap|
    ensures xs[q] == if q == start then Named(c.regname, c.baseAddr)
                     else Named(c.memoryMap[q - start - 1].name, c.baseAddr + c.memoryMap[q - start - 1].offset)
  {
    if q > start {
      var j := q - start - 1;
      assert xs[start + 1 + j] == Named(c.memoryMap[j].name, c.baseAddr + c.memoryMap[j].offset);
    }
  }

  /** Only one list of assignments is that of the cores. */
  lemma {:induction false} ReadsUnique(xs: seq<Named>, ys: seq<Named>, cores: seq<Core>, at: seq<nat>, at': seq<nat>)
    requires Reads(xs, cores, at) && Reads(ys, cores, at')
    ensures xs == ys
  {
    SameStarts(cores, at, at', |cores|);
    forall q | 0 <= q < |xs| ensures xs[q] == ys[q] {
      var i := CoreOf(cores, at, |cores|, q);
      SameStarts(cores, at, at', i);
      CoreReadAt(xs, cores[i], at[i], q);
      CoreReadAt(ys, cores[i], at'[i], q);
    }
  }

  lemma {:induction false} ComesBackIff(r: Option<seq<Named>>, es: seq<Entry>, cores: seq<Core>, at: seq<nat>)
    requires Listed(es, cores, at)
    ensures ComesBack(r, cores) <==> r == Some(Wanted(es))
  {
    WantedReads(es, cores, at);
    if ComesBack(r, cores) {
      var at' :| Reads(r.value, cores, at');
      ReadsUnique(r.value, Wanted(es), cores, at', at);
    }
  }

  lemma {:induction false} GoodCoresIff(es: seq<Entry>, cores: seq<Core>, at: seq<nat>)
    requires Listed(es, cores, at)
    ensures GoodCores(cores) <==> GoodNames(es)
  {
    if GoodNames(es) {
      forall i | 0 <= i < |cores|
        ensures Good(cores[i].regname)
        ensures forall j :: 0 <= j < |cores[i].memoryMap| ==> Good(cores[i].memoryMap[j].name)
      {
        assert CoreListed(es, cores[i], at[i]);
        assert Good(es[at[i]].name);
        forall j | 0 <= j < |cores[i].memoryMap| ensures Good(cores[i].memoryMap[j].name) {
          assert Good(es[at[i] + 1 + j].name);
        }
      }
    }
    if GoodCores(cores) {
      forall q | 0 <= q < |es| ensures Good(es[q].name) {
        var i := CoreOf(cores, at, |cores|, q);
        assert CoreListed(es, cores[i], at[i]);
        if q > at[i] {
          var j := q - at[i] - 1;
          assert es[at[i] + 1 + j].name == cores[i].memoryMap[j].name;
        }
      }
    }
  }

  /** The whole chain: print, split into rows, read back. */
  method Chain(cores: seq<Core>, meta: string) returns (r: Option<seq<Named>>, lcl: map<string, int>)
    ensures ComesBack(r, cores) <==> GoodCores(cores)
    ensures r.Some? ==> lcl == Dictionary(r.value, |r.value|)
  {
    var table := WriteCoreInfo(cores);
    ghost var es := Entries(cores, |cores|);
    ghost var at := EntriesListed(cores, |cores|);
    assert cores[..|cores|] == cores;
    GoodCoresIff(es, cores, at);
    RoundTripIff(es, Longest(cores, |cores|), meta);
    var registers := MkRegisters(table);
    if registers.None? {
      ComesBackIff(None, es, cores, at);
      return None, map[];
    }
    r, lcl := ReadRegisters(Fpg(registers.value, meta));
    ComesBackIff(r, es, cores, at);
  }
}
