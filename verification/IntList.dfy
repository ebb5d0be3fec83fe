/** Parsing a printed list of integers. */
module IntList {

  import opened Text
  import opened PyInt
  import opened Wrappers

  /** lstrip(c) */
  function StripStart(s: string, c: char): string {
    if s != "" && s[0] == c then StripStart(s[1..], c) else s
  }

  function Inside(s: string): string {
    StripStart(StripEnd(s, ']'), '[')
  }

  /** list(map(int, fields)); None is a ValueError. */
  function ParseAll(fields: seq<string>): Option<seq<int>> {
    if fields == [] then Some([])
    else
      var x, rest := Parse(fields[0], 10), ParseAll(fields[1..]);
      if x.None? || rest.None? then None else Some([x.value] + rest.value)
  }

  function CommaReading(s: string): Option<seq<int>> {
    ParseAll(SplitOn(Inside(s), ','))
  }

  function SpaceReading(s: string): Option<seq<int>> {
    ParseAll(Split(Inside(s)))
  }

  /** The comma form first, the whitespace form if that raises. */
  function ToIntList(s: string): Option<seq<int>> {
    var r := CommaReading(s);
    if r.Some? then r else SpaceReading(s)
  }

  // ---------------------------------------------------------------------------------------------------------
  // Printed forms
  // ---------------------------------------------------------------------------------------------------------

  function Join(xs: seq<int>, sep: string): string {
    if xs == [] then ""
    else if |xs| == 1 then Decimal(xs[0])
    else Decimal(xs[0]) + sep + Join(xs[1..], sep)
  }

  function Printed(xs: seq<int>, sep: string): string {
    "[" + Join(xs, sep) + "]"
  }

  predicate NoBrackets(s: string) {
    Free(s, '[') && Free(s, ']')
  }

  lemma {:induction false} JoinNoBrackets(xs: seq<int>, sep: string)
    requires NoBrackets(sep)
    ensures NoBrackets(Join(xs, sep))
  {
    if xs != [] {
      DecimalWord(xs[0]);
      JoinNoBrackets(xs[1..], sep);
    }
  }

  lemma {:induction false} StripsBrackets(body: string)
    requires NoBrackets(body)
    ensures Inside("[" + body + "]") == body
  {
    var s := "[" + body + "]";
    assert s[..|s| - 1] == "[" + body;
    var t := "[" + body;
    assert t[|t| - 1] == '[' || t[|t| - 1] == body[|body| - 1];
    assert StripEnd(t, ']') == t;
    assert t[1..] == body;
    assert StripStart(body, '[') == body;
  }

  lemma {:induction false} InsidePrinted(xs: seq<int>, sep: string)
    requires NoBrackets(sep)
    ensures Inside(Printed(xs, sep)) == Join(xs, sep)
  {
    JoinNoBrackets(xs, sep);
    StripsBrackets(Join(xs, sep));
  }

  // ---------------------------------------------------------------------------------------------------------
  // Comma form
  // ---------------------------------------------------------------------------------------------------------

  lemma {:induction false} ParseAllCons(f: string, fs: seq<string>, x: int, xs: seq<int>)
    requires Parse(f, 10) == Some(x) && ParseAll(fs) == Some(xs)
    ensures ParseAll([f] + fs) == Some([x] + xs)
  {
    assert ([f] + fs)[1..] == fs;
  }

  lemma {:induction false} LeadingField(lead: string, x: int)
    requires Spaces(lead)
    ensures Free(lead + Decimal(x), ',') && Parse(lead + Decimal(x), 10) == Some(x)
  {
    DecimalWord(x);
    ParseDecimal(lead, x, "");
    assert lead + Decimal(x) + "" == lead + Decimal(x);
  }

  /** One more field in front. */
  lemma {:induction false} CommaNext(lead: string, x: int, t: string, xs: seq<int>)
    requires Spaces(lead) && ParseAll(SplitOn(t, ',')) == Some(xs)
    ensures ParseAll(SplitOn(lead + Decimal(x) + [','] + t, ',')) == Some([x] + xs)
  {
    LeadingField(lead, x);
    SplitOnField(lead + Decimal(x), ',', t);
    ParseAllCons(lead + Decimal(x), SplitOn(t, ','), x, xs);
  }

  lemma {:induction false} CommaLast(lead: string, x: int)
    requires Spaces(lead)
    ensures ParseAll(SplitOn(lead + Decimal(x), ',')) == Some([x])
  {
    var f := lead + Decimal(x);
    LeadingField(lead, x);
    SplitOnLast(f, ',');
    ParseAllCons(f, [], x, []);
    assert [f] + [] == [f] && [x] + [] == [x];
  }

  lemma {:induction false} FieldShape(lead: string, d: string, gap: string, t: string)
    ensures lead + (d + ("," + gap) + t) == lead + d + [','] + (gap + t)
  {
  }

  /** Comma-separated fields, with whitespace after the commas. */
  lemma {:induction false} CommaFieldsParse(xs: seq<int>, lead: string, gap: string)
    requires xs != [] && Spaces(lead) && Spaces(gap)
    ensures ParseAll(SplitOn(lead + Join(xs, "," + gap), ',')) == Some(xs)
    decreases |xs|
  {
    var x, rest := xs[0], xs[1..];
    assert [x] + rest == xs;
    if rest == [] {
      CommaLast(lead, x);
    } else {
      var t := Join(rest, "," + gap);
      CommaFieldsParse(rest, gap, gap);
      CommaNext(lead, x, gap + t, rest);
      FieldShape(lead, Decimal(x), gap, t);
    }
  }

  // ---------------------------------------------------------------------------------------------------------
  // Space form
  // ---------------------------------------------------------------------------------------------------------

  function Decimals(xs: seq<int>): (ws: seq<string>)
    ensures |ws| == |xs|
  {
    if xs == [] then [] else [Decimal(xs[0])] + Decimals(xs[1..])
  }

  lemma {:induction false} DecimalsParse(xs: seq<int>)
    ensures ParseAll(Decimals(xs)) == Some(xs)
  {
    if xs != [] {
      DecimalsParse(xs[1..]);
      LeadingField("", xs[0]);
      assert "" + Decimal(xs[0]) == Decimal(xs[0]);
      ParseAllCons(Decimal(xs[0]), Decimals(xs[1..]), xs[0], xs[1..]);
      assert [xs[0]] + xs[1..] == xs;
    }
  }

  lemma {:induction false} SpaceWords(xs: seq<int>)
    ensures Split(Join(xs, " ")) == Decimals(xs)
  {
    if xs != [] {
      DecimalWord(xs[0]);
      if |xs| == 1 {
        SplitWord(Decimal(xs[0]), "");
        assert Decimal(xs[0]) + "" == Decimal(xs[0]);
        assert Decimals(xs[1..]) == [];
      } else {
        var rest := Join(xs[1..], " ");
        SpaceWords(xs[1..]);
        assert Join(xs, " ") == Decimal(xs[0]) + (" " + rest);
        SplitWord(Decimal(xs[0]), " " + rest);
        SplitSpaces(" ", rest);
      }
    }
  }

  // ---------------------------------------------------------------------------------------------------------
  // One reading at most
  // ---------------------------------------------------------------------------------------------------------

  lemma {:induction false} ValueChars(s: string)
    requires Value(s, 10).Some?
    ensures Word(s) && Free(s, ',')
  {
    var init := s[..|s| - 1];
    if init != "" {
      var high := if init[|init| - 1] == '_' then init[..|init| - 1] else init;
      ValueChars(high);
      assert forall i :: 0 <= i < |s| ==> (i < |high| && s[i] == high[i]) || s[i] == '_' || i == |s| - 1;
    }
  }

  lemma {:induction false} ParseWord(s: string)
    requires Parse(s, 10).Some?
    ensures Word(Trim(s)) && Free(Trim(s), ',')
  {
    var t := Trim(s);
    var u := Unsigned(t);
    ValueChars(u);
    if u != t {
      assert t == [t[0]] + u;
    }
  }

  lemma {:induction false} SplitOfWord(a: string, w: string, b: string)
    requires Spaces(a) && Word(w) && Spaces(b)
    ensures Split(a + (w + b)) == [w]
  {
    SplitSpaces(a, w + b);
    SplitWord(w, b);
    SplitSpaces(b, "");
    assert b + "" == b;
  }

  lemma {:induction false} SplitOfTrim(s: string)
    requires Word(Trim(s))
    ensures Split(s) == [Trim(s)]
  {
    var a := TrimLeftSplits(s);
    var b := TrimRightSplits(TrimLeft(s));
    SplitOfWord(a, Trim(s), b);
  }

  lemma {:induction false} ParseTrimmed(s: string)
    requires Word(Trim(s))
    ensures Parse(Trim(s), 10) == Parse(s, 10)
  {
    var t := Trim(s);
    TrimWord("", t, "");
    assert "" + t + "" == t;
  }

  /** A text that parses is one word with whitespace around. */
  lemma {:induction false} ParseChars(s: string)
    requires Parse(s, 10).Some?
    ensures Split(s) == [Trim(s)] && Parse(Trim(s), 10) == Parse(s, 10)
  {
    ParseWord(s);
    SplitOfTrim(s);
    ParseTrimmed(s);
  }

  /** A character that is not whitespace is part of some word. */
  lemma {:induction false} SplitCovers(s: string, i: nat) returns (j: nat)
    requires i < |s| && !IsSpace(s[i])
    ensures j < |Split(s)| && s[i] in Split(s)[j]
    decreases |s|
  {
    if IsSpace(s[0]) {
      j := SplitCovers(s[1..], i - 1);
    } else {
      var k := WordEnd(s, 1);
      if i < k {
        j := 0;
        assert s[..k][i] == s[i];
      } else {
        j := SplitCovers(s[k..], i - k);
        j := j + 1;
      }
    }
  }

  lemma {:induction false} ParseAllEach(fields: seq<string>, i: nat)
    requires ParseAll(fields).Some? && i < |fields|
    ensures Parse(fields[i], 10).Some?
  {
    if i > 0 {
      ParseAllEach(fields[1..], i - 1);
    }
  }

  lemma {:induction false} WordNoComma(w: string)
    requires Parse(w, 10).Some?
    ensures ',' !in w
  {
    ParseWord(w);
    var a := TrimLeftSplits(w);
    var b := TrimRightSplits(TrimLeft(w));
    assert w == a + (Trim(w) + b);
    assert ',' !in a && ',' !in b;
  }

  /** Words that all parse leave no room for a comma. */
  lemma {:induction false} SpaceReadingNoComma(t: string)
    requires ParseAll(Split(t)).Some?
    ensures Free(t, ',')
  {
    forall i | 0 <= i < |t| ensures t[i] != ',' {
      if t[i] == ',' {
        var j := SplitCovers(t, i);
        ParseAllEach(Split(t), j);
        WordNoComma(Split(t)[j]);
        assert false;
      }
    }
  }

  /** When both forms can be read they agree, so the order of the attempts does not matter. */
  lemma {:induction false} OneReading(s: string)
    requires CommaReading(s).Some? && SpaceReading(s).Some?
    ensures CommaReading(s) == SpaceReading(s)
  {
    var t := Inside(s);
    SpaceReadingNoComma(t);
    SplitOnLast(t, ',');
    ParseAllEach([t], 0);
    ParseChars(t);
    assert [t][1..] == [] && [Trim(t)][1..] == [];
  }

  // ---------------------------------------------------------------------------------------------------------
  // Round trips
  // ---------------------------------------------------------------------------------------------------------

  /** Printing with commas, and any whitespace after them, is undone; only the empty list needs the fallback. */
  lemma {:induction false} CommaRoundTrip(xs: seq<int>, gap: string)
    requires Spaces(gap)
    ensures ToIntList(Printed(xs, "," + gap)) == Some(xs)
    ensures CommaReading(Printed(xs, "," + gap)).None? <==> xs == []
  {
    assert NoBrackets("," + gap) by {
      assert forall i :: 0 <= i < |gap| ==> gap[i] != '[' && gap[i] != ']';
    }
    InsidePrinted(xs, "," + gap);
    if xs == [] {
      EmptyReadings();
    } else {
      CommaFieldsParse(xs, "", gap);
      assert "" + Join(xs, "," + gap) == Join(xs, "," + gap);
    }
  }

  lemma {:induction false} EmptyReadings()
    ensures ParseAll(SplitOn("", ',')) == None && ParseAll(Split("")) == Some([])
  {
    SplitOnLast("", ',');
    assert Parse("", 10).None?;
    assert ParseAll([""]) == None;
  }

  /** Printing with spaces is undone; the fallback is taken for every list but a singleton. */
  lemma {:induction false} SpaceRoundTrip(xs: seq<int>)
    ensures ToIntList(Printed(xs, " ")) == Some(xs)
    ensures CommaReading(Printed(xs, " ")).None? <==> |xs| != 1
  {
    InsidePrinted(xs, " ");
    SpaceWords(xs);
    DecimalsParse(xs);
    if xs == [] {
      EmptyReadings();
    } else {
      SpaceFormAsField(xs);
    }
    if CommaReading(Printed(xs, " ")).Some? {
      OneReading(Printed(xs, " "));
    }
  }

  lemma {:induction false} SpaceFormAsField(xs: seq<int>)
    requires xs != []
    ensures ParseAll(SplitOn(Join(xs, " "), ',')).None? <==> |xs| != 1
  {
    var t := Join(xs, " ");
    SpaceWords(xs);
    DecimalsParse(xs);
    SpaceReadingNoComma(t);
    SplitOnLast(t, ',');
    if |xs| == 1 {
      LeadingField("", xs[0]);
      assert "" + t == t;
      ParseAllCons(t, [], xs[0], []);
    } else if ParseAll([t]).Some? {
      ParseAllEach([t], 0);
      ParseChars(t);
      assert false;
    }
  }
}
