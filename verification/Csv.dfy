/** The records of a tab-separated file, as Python's csv reader finds them: a field that starts with a double quote runs
    on over tabs and newlines until the quote is closed. */
module Csv {

  import opened Text

  /** At the start of a field, inside an unquoted one, inside a quoted one, or after a quote inside a quoted one. */
  datatype Mode = Fresh | Plain | Quoted | Closing

  datatype Parsed = Parsed(row: seq<string>, rest: string)

  /** The fields of a record from here on, the current one having collected `field`. */
  function Fields(s: string, mode: Mode, field: string): (p: Parsed)
    ensures p.row != [] && |p.rest| <= |s| && (s != "" ==> |p.rest| < |s|)
    decreases |s|
  {
    if s == "" then Parsed([field], "")
    else
      var c, t := s[0], s[1..];
      if mode.Quoted? then
        if c == '"' then Fields(t, Closing, field) else Fields(t, Quoted, field + [c])
      else if c == '\n' then Parsed([field], t)
      else if c == '\t' then
        var p := Fields(t, Fresh, "");
        Parsed([field] + p.row, p.rest)
      else if c == '"' && mode.Fresh? then Fields(t, Quoted, field)
      else if c == '"' && mode.Closing? then Fields(t, Quoted, field + [c])
      else Fields(t, Plain, field + [c])
  }

  /** One record; an empty line is a record without fields. */
  function Record(s: string): (p: Parsed)
    requires s != ""
    ensures |p.rest| < |s|
  {
    if s[0] == '\n' then Parsed([], s[1..]) else Fields(s, Fresh, "")
  }

  function Records(s: string): seq<seq<string>>
    decreases |s|
  {
    if s == "" then [] else [Record(s).row] + Records(Record(s).rest)
  }

  /** Neither tabs nor newlines. */
  predicate OneField(f: string) {
    Free(f, '\t') && Free(f, '\n')
  }

  /** A field the reader takes as it is: a quote matters only at its start. */
  predicate Unquoted(f: string) {
    f != "" && f[0] != '"' && OneField(f)
  }

  lemma {:induction false} PlainRun(f: string, s: string, field: string)
    requires OneField(f)
    ensures Fields(f + s, Plain, field) == Fields(s, Plain, field + f)
    decreases |f|
  {
    if f == "" {
      assert f + s == s && field + f == field;
    } else {
      assert (f + s)[0] == f[0] && (f + s)[1..] == f[1..] + s;
      PlainRun(f[1..], s, field + [f[0]]);
      assert field + [f[0]] + f[1..] == field + f;
    }
  }

  lemma {:induction false} UnquotedRun(f: string, s: string)
    requires Unquoted(f)
    ensures Fields(f + s, Fresh, "") == Fields(s, Plain, f)
  {
    assert (f + s)[0] == f[0] && (f + s)[1..] == f[1..] + s;
    PlainRun(f[1..], s, [f[0]]);
    assert [f[0]] + f[1..] == f && "" + [f[0]] == [f[0]];
  }

  lemma {:induction false} FieldThenTab(f: string, t: string)
    requires Unquoted(f)
    ensures var p := Fields(t, Fresh, "");
            Fields(f + ("\t" + t), Fresh, "") == Parsed([f] + p.row, p.rest)
  {
    UnquotedRun(f, "\t" + t);
    assert ("\t" + t)[1..] == t;
  }

  lemma {:induction false} FieldThenNewline(f: string, t: string)
    requires Unquoted(f)
    ensures Fields(f + ("\n" + t), Fresh, "") == Parsed([f], t)
  {
    UnquotedRun(f, "\n" + t);
    assert ("\n" + t)[1..] == t;
  }

  /** A line of one field. */
  lemma {:induction false} LineRecord(f: string, t: string)
    requires Unquoted(f)
    ensures Records(f + ("\n" + t)) == [[f]] + Records(t)
  {
    FieldThenNewline(f, t);
    assert (f + ("\n" + t))[0] == f[0];
  }

  // ---------------------------------------------------------------------------------------------------------
  // Quoted fields
  // ---------------------------------------------------------------------------------------------------------

  /** What reading a word adds to a field that has begun: no more than the word, and no whitespace. */
  lemma {:induction false} WordRun(w: string, s: string, mode: Mode, field: string) returns (mode': Mode, d: string)
    requires mode != Fresh && forall i :: 0 <= i < |w| ==> !IsSpace(w[i])
    ensures mode' != Fresh && |d| <= |w| && (forall i :: 0 <= i < |d| ==> !IsSpace(d[i]))
    ensures Fields(w + s, mode, field) == Fields(s, mode', field + d)
    decreases |w|
  {
    if w == "" {
      mode', d := mode, "";
      assert w + s == s && field + d == field;
    } else {
      var c := w[0];
      assert (w + s)[0] == c && (w + s)[1..] == w[1..] + s;
      var next := if c == '"' then (if mode.Quoted? then Closing else if mode.Closing? then Quoted else Plain)
                  else (if mode.Quoted? then Quoted else Plain);
      var add := if c == '"' && mode.Quoted? then "" else [c];
      assert Fields(w + s, mode, field) == Fields(w[1..] + s, next, field + add) by {
        assert field + "" == field;
      }
      var e;
      mode', e := WordRun(w[1..], s, next, field + add);
      d := add + e;
      assert field + add + e == field + d;
    }
  }

  /** A field keeps what it has collected. */
  lemma {:induction false} FieldKeeps(s: string, mode: Mode, field: string)
    ensures field <= Fields(s, mode, field).row[0]
    decreases |s|
  {
    if s != "" {
      var c, t := s[0], s[1..];
      if mode.Quoted? {
        if c == '"' { FieldKeeps(t, Closing, field); } else { FieldKeeps(t, Quoted, field + [c]); }
      } else if c != '\n' && c != '\t' {
        if c == '"' && mode.Fresh? {
          FieldKeeps(t, Quoted, field);
        } else if c == '"' && mode.Closing? {
          FieldKeeps(t, Quoted, field + [c]);
        } else {
          FieldKeeps(t, Plain, field + [c]);
        }
      }
    }
  }

  /** What a quoted word before a tab can come out as: a shorter word, or a shorter word that runs on over the tab. */
  ghost predicate Unquoting(w: string, f: string, d: string) {
    && |d| < |w| && (forall i :: 0 <= i < |d| ==> !IsSpace(d[i]))
    && (f == d || d + "\t0x" <= f)
  }

  lemma {:induction false} QuotedField(w: string, t: string) returns (d: string)
    requires Word(w) && w[0] == '"'
    ensures Unquoting(w, Fields(w + ("\t0x" + t), Fresh, "").row[0], d)
  {
    var s := "\t0x" + t;
    assert (w + s)[0] == '"' && (w + s)[1..] == w[1..] + s;
    var mode;
    mode, d := WordRun(w[1..], s, Quoted, "");
    assert "" + d == d;
    if mode.Quoted? {
      assert s[1..] == "0x" + t && ("0x" + t)[1..] == "x" + t && ("x" + t)[1..] == t;
      assert Fields(s, Quoted, d) == Fields("0x" + t, Quoted, d + ['\t']);
      assert Fields("0x" + t, Quoted, d + ['\t']) == Fields("x" + t, Quoted, d + ['\t'] + ['0']);
      assert Fields("x" + t, Quoted, d + ['\t'] + ['0']) == Fields(t, Quoted, d + ['\t'] + ['0'] + ['x']);
      assert d + ['\t'] + ['0'] + ['x'] == d + "\t0x";
      FieldKeeps(t, Quoted, d + "\t0x");
    }
  }

  /** A text with every double quote doubled. */
  function Doubled(f: string): string {
    if f == "" then "" else (if f[0] == '"' then "\"\"" else [f[0]]) + Doubled(f[1..])
  }

  lemma {:induction false} DoubledStep(c: char, rest: string, field: string)
    ensures Fields((if c == '"' then "\"\"" else [c]) + rest, Quoted, field) == Fields(rest, Quoted, field + [c])
  {
    if c == '"' {
      assert ("\"\"" + rest)[1..] == "\"" + rest && ("\"" + rest)[1..] == rest;
    } else {
      assert ([c] + rest)[1..] == rest;
    }
  }

  /** Inside quotes every character stands for itself, a doubled quote for one. */
  lemma {:induction false} DoubledRun(f: string, s: string, field: string)
    ensures Fields(Doubled(f) + s, Quoted, field) == Fields(s, Quoted, field + f)
    decreases |f|
  {
    if f == "" {
      assert Doubled(f) + s == s && field + f == field;
    } else {
      Regroup(if f[0] == '"' then "\"\"" else [f[0]], Doubled(f[1..]), s);
      DoubledStep(f[0], Doubled(f[1..]) + s, field);
      DoubledRun(f[1..], s, field + [f[0]]);
      assert field + [f[0]] + f[1..] == field + f;
    }
  }

  /** Any text whatever, tabs, newlines and quotes included, comes back as one field if it is put in quotes and its own
      quotes are doubled. */
  lemma {:induction false} QuotingRoundTrip(f: string, t: string)
    ensures var p := Fields(t, Fresh, "");
            Fields("\"" + (Doubled(f) + ("\"\t" + t)), Fresh, "") == Parsed([f] + p.row, p.rest)
  {
    var end := "\"\t" + t;
    var s := "\"" + (Doubled(f) + end);
    assert s[1..] == Doubled(f) + end;
    DoubledRun(f, end, "");
    assert "" + f == f;
    assert end[1..] == "\t" + t && ("\t" + t)[1..] == t;
  }
}
