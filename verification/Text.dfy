/** The string operations of Python that the register table, the integer lists and the port names rely on. */
module Text {

  /** What str.split() and int() take for whitespace. */
  predicate IsSpace(c: char) {
    var n := c as int;
    || 9 <= n <= 13 || 28 <= n <= 32 || n == 0x85 || n == 0xA0 || n == 0x1680 || 0x2000 <= n <= 0x200A
    || n == 0x2028 || n == 0x2029 || n == 0x202F || n == 0x205F || n == 0x3000
  }

  predicate Spaces(s: string) {
    forall i :: 0 <= i < |s| ==> IsSpace(s[i])
  }

  /** Non-empty and free of whitespace. */
  predicate Word(s: string) {
    s != "" && forall i :: 0 <= i < |s| ==> !IsSpace(s[i])
  }

  predicate Free(s: string, c: char) {
    forall i :: 0 <= i < |s| ==> s[i] != c
  }

  // ---------------------------------------------------------------------------------------------------------
  // Letters
  // ---------------------------------------------------------------------------------------------------------

  const LOWER := "abcdefghijklmnopqrstuvwxyz"
  const UPPER := "ABCDEFGHIJKLMNOPQRSTUVWXYZ"

  lemma {:induction false} Alphabets(k: nat)
    requires k < 26
    ensures LOWER[k] as int == 'a' as int + k && UPPER[k] as int == 'A' as int + k
  {
  }

  lemma {:induction false} LetterIff(c: char)
    ensures 'a' <= c <= 'z' <==> c in LOWER
    ensures 'A' <= c <= 'Z' <==> c in UPPER
  {
    if 'a' <= c <= 'z' {
      var k := c as int - 'a' as int;
      Alphabets(k);
      assert LOWER[k] == c;
    }
    if 'A' <= c <= 'Z' {
      var k := c as int - 'A' as int;
      Alphabets(k);
      assert UPPER[k] == c;
    }
    if c in LOWER {
      var k :| 0 <= k < 26 && LOWER[k] == c;
      Alphabets(k);
    }
    if c in UPPER {
      var k :| 0 <= k < 26 && UPPER[k] == c;
      Alphabets(k);
    }
  }

  // ---------------------------------------------------------------------------------------------------------
  // split()
  // ---------------------------------------------------------------------------------------------------------

  /** Where the run of non-space characters from i ends. */
  function WordEnd(s: string, i: nat): (k: nat)
    requires i <= |s|
    ensures i <= k <= |s| && (forall j :: i <= j < k ==> !IsSpace(s[j])) && (k < |s| ==> IsSpace(s[k]))
    decreases |s| - i
  {
    if i == |s| || IsSpace(s[i]) then i else WordEnd(s, i + 1)
  }

  /** The words between runs of whitespace. */
  function Split(s: string): seq<string>
    decreases |s|
  {
    if s == "" then []
    else if IsSpace(s[0]) then Split(s[1..])
    else
      var k := WordEnd(s, 1);
      [s[..k]] + Split(s[k..])
  }

  lemma {:induction false} SplitSpaces(a: string, s: string)
    requires Spaces(a)
    ensures Split(a + s) == Split(s)
  {
    if a == "" {
      assert a + s == s;
    } else {
      assert (a + s)[1..] == a[1..] + s;
      SplitSpaces(a[1..], s);
    }
  }

  lemma {:induction false} SplitWord(w: string, s: string)
    requires Word(w) && (s == "" || IsSpace(s[0]))
    ensures Split(w + s) == [w] + Split(s)
  {
    var t := w + s;
    assert forall i :: 0 <= i < |w| ==> t[i] == w[i];
    assert s != "" ==> t[|w|] == s[0];
    assert WordEnd(t, 1) == |w|;
    assert t[..|w|] == w && t[|w|..] == s;
  }

  lemma {:induction false} SplitWords(s: string)
    ensures forall i :: 0 <= i < |Split(s)| ==> Word(Split(s)[i])
    decreases |s|
  {
    if s != "" {
      if IsSpace(s[0]) {
        SplitWords(s[1..]);
      } else {
        var k := WordEnd(s, 1);
        SplitWords(s[k..]);
        assert Word(s[..k]);
      }
    }
  }

  // ---------------------------------------------------------------------------------------------------------
  // split(c)
  // ---------------------------------------------------------------------------------------------------------

  function Find(s: string, c: char, i: nat): (k: nat)
    requires i <= |s|
    ensures i <= k <= |s| && (forall j :: i <= j < k ==> s[j] != c) && (k < |s| ==> s[k] == c)
    decreases |s| - i
  {
    if i == |s| || s[i] == c then i else Find(s, c, i + 1)
  }

  /** The fields between occurrences of c; there is always at least one. */
  function SplitOn(s: string, c: char): (fields: seq<string>)
    ensures fields != []
    decreases |s|
  {
    var k := Find(s, c, 0);
    if k == |s| then [s] else [s[..k]] + SplitOn(s[k + 1..], c)
  }

  lemma {:induction false} FindFree(f: string, c: char, s: string)
    requires Free(f, c) && (s == "" || s[0] == c)
    ensures Find(f + s, c, 0) == |f|
  {
    var t := f + s;
    assert forall i :: 0 <= i < |f| ==> t[i] == f[i];
    assert s != "" ==> t[|f|] == s[0];
  }

  lemma {:induction false} SplitOnLast(f: string, c: char)
    requires Free(f, c)
    ensures SplitOn(f, c) == [f]
  {
    FindFree(f, c, "");
    assert f + "" == f;
  }

  lemma {:induction false} SplitOnField(f: string, c: char, s: string)
    requires Free(f, c)
    ensures SplitOn(f + [c] + s, c) == [f] + SplitOn(s, c)
  {
    var t := f + [c] + s;
    FindFree(f, c, [c] + s);
    assert t == f + ([c] + s);
    assert t[..|f|] == f && t[|f| + 1..] == s;
  }

  // ---------------------------------------------------------------------------------------------------------
  // Lines
  // ---------------------------------------------------------------------------------------------------------

  /** The lines of a file, each with its newline; the last one may lack it. */
  function Lines(s: string): seq<string>
    decreases |s|
  {
    if s == "" then []
    else
      var k := Find(s, '\n', 0);
      if k == |s| then [s] else [s[..k + 1]] + Lines(s[k + 1..])
  }

  /** A line body followed by a newline. */
  predicate IsLine(s: string) {
    s != "" && s[|s| - 1] == '\n' && Free(s[..|s| - 1], '\n')
  }

  function Concat(rows: seq<string>): string {
    if rows == [] then "" else rows[0] + Concat(rows[1..])
  }

  lemma {:induction false} LinesRow(row: string, s: string)
    requires IsLine(row)
    ensures Lines(row + s) == [row] + Lines(s)
  {
    var body := row[..|row| - 1];
    var t := row + s;
    FindFree(body, '\n', "\n" + s);
    assert t == body + ("\n" + s);
    assert t[..|row|] == row && t[|row|..] == s;
  }

  predicate AllLines(rows: seq<string>) {
    forall i :: 0 <= i < |rows| ==> IsLine(rows[i])
  }

  lemma {:induction false} Regroup<T>(a: seq<T>, b: seq<T>, c: seq<T>)
    ensures (a + b) + c == a + (b + c)
  {
  }

  lemma {:induction false} LinesConcat(rows: seq<string>, s: string)
    requires AllLines(rows)
    ensures Lines(Concat(rows) + s) == rows + Lines(s)
  {
    if rows == [] {
      assert Concat(rows) + s == s;
    } else {
      var row, rest := rows[0], rows[1..];
      assert IsLine(row) && AllLines(rest);
      LinesConcat(rest, s);
      LinesRow(row, Concat(rest) + s);
      Regroup(row, Concat(rest), s);
      Regroup([row], rest, Lines(s));
      assert [row] + rest == rows;
    }
  }

  lemma {:induction false} ConcatAppend(a: seq<string>, b: seq<string>)
    ensures Concat(a + b) == Concat(a) + Concat(b)
  {
    if a == [] {
      assert a + b == b;
    } else {
      assert (a + b)[1..] == a[1..] + b;
      ConcatAppend(a[1..], b);
    }
  }

  /** Rows in front of, at and behind k. */
  lemma {:induction false} ConcatAt(rows: seq<string>, k: nat)
    requires k < |rows|
    ensures Concat(rows) == Concat(rows[..k]) + (rows[k] + Concat(rows[k + 1..]))
  {
    assert rows == rows[..k] + rows[k..];
    ConcatAppend(rows[..k], rows[k..]);
    assert rows[k..][1..] == rows[k + 1..];
  }

  lemma {:induction false} ConcatSnoc(a: seq<string>, row: string)
    ensures Concat(a + [row]) == Concat(a) + row
  {
    ConcatAppend(a, [row]);
    assert Concat([row]) == row + Concat([]);
  }

  // ---------------------------------------------------------------------------------------------------------
  // strip
  // ---------------------------------------------------------------------------------------------------------

  function TrimLeft(s: string): string {
    if s != "" && IsSpace(s[0]) then TrimLeft(s[1..]) else s
  }

  function TrimRight(s: string): string {
    if s != "" && IsSpace(s[|s| - 1]) then TrimRight(s[..|s| - 1]) else s
  }

  function Trim(s: string): string {
    TrimRight(TrimLeft(s))
  }

  /** rstrip(c) */
  function StripEnd(s: string, c: char): string {
    if s != "" && s[|s| - 1] == c then StripEnd(s[..|s| - 1], c) else s
  }

  /** What is left is the string up to its last character other than c. */
  lemma {:induction false} StripEndIs(s: string, c: char)
    ensures var r := StripEnd(s, c);
            && r <= s && (forall i :: |r| <= i < |s| ==> s[i] == c)
            && (r == "" || r[|r| - 1] != c)
  {
    if s != "" && s[|s| - 1] == c {
      StripEndIs(s[..|s| - 1], c);
    }
  }

  /** Stripping stops at a prefix that ends otherwise. */
  lemma {:induction false} StripEndBehind(p: string, s: string, c: char)
    requires p != "" && p[|p| - 1] != c
    ensures StripEnd(p + s, c) == p + StripEnd(s, c)
  {
    var t := p + s;
    if s == "" {
      assert t == p;
    } else if s[|s| - 1] == c {
      assert t[..|t| - 1] == p + s[..|s| - 1];
      StripEndBehind(p, s[..|s| - 1], c);
    }
  }

  /** What Trim takes away, on both sides. */
  lemma {:induction false} TrimLeftSplits(s: string) returns (a: string)
    ensures s == a + TrimLeft(s) && Spaces(a)
    ensures TrimLeft(s) == "" || !IsSpace(TrimLeft(s)[0])
  {
    a := "";
    if s != "" && IsSpace(s[0]) {
      a := TrimLeftSplits(s[1..]);
      a := [s[0]] + a;
    }
  }

  lemma {:induction false} TrimRightSplits(s: string) returns (b: string)
    ensures s == TrimRight(s) + b && Spaces(b)
  {
    b := "";
    if s != "" && IsSpace(s[|s| - 1]) {
      b := TrimRightSplits(s[..|s| - 1]);
      b := b + [s[|s| - 1]];
    }
  }

  /** Whitespace around a word is taken away. */
  lemma {:induction false} TrimWord(a: string, w: string, b: string)
    requires Spaces(a) && Word(w) && Spaces(b)
    ensures Trim(a + w + b) == w
    decreases |a| + |b|
  {
    TrimLeftSpaces(a, w + b);
    assert a + w + b == a + (w + b);
    assert (w + b)[0] == w[0];
    TrimRightSpaces(w, b);
  }

  lemma {:induction false} TrimLeftSpaces(a: string, s: string)
    requires Spaces(a) && s != "" && !IsSpace(s[0])
    ensures TrimLeft(a + s) == s
  {
    if a == "" {
      assert a + s == s;
    } else {
      assert (a + s)[1..] == a[1..] + s;
      TrimLeftSpaces(a[1..], s);
    }
  }

  lemma {:induction false} TrimRightSpaces(s: string, b: string)
    requires Spaces(b) && s != "" && !IsSpace(s[|s| - 1])
    ensures TrimRight(s + b) == s
  {
    var t := s + b;
    if b == "" {
      assert t == s;
    } else {
      assert t[..|t| - 1] == s + b[..|b| - 1];
      TrimRightSpaces(s, b[..|b| - 1]);
    }
  }
}
