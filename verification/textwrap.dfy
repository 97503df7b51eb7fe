/** `textwrap.dedent` as Python 2.7 defines it: lines holding only blanks are
    emptied, the margin is the indentation shared by every line that holds
    text, and that margin is cut from the start of each line. */
module TextWrap {
  import opened Strings

  predicate IsBlank(c: char)
  {
    c == ' ' || c == '\t'
  }

  /** The run of blanks a line starts with. */
  function LeadingBlanks(line: string): (r: string)
    ensures |r| <= |line| && r == line[..|r|]
    ensures forall i :: 0 <= i < |r| ==> IsBlank(r[i])
    ensures |r| < |line| ==> !IsBlank(line[|r|])
  {
    if |line| > 0 && IsBlank(line[0]) then [line[0]] + LeadingBlanks(line[1..]) else ""
  }

  /** The line holds a character other than a blank. */
  predicate HasText(line: string)
  {
    |LeadingBlanks(line)| < |line|
  }

  /** `^[ \t]+$` matched on one line is replaced by nothing. */
  function BlankOut(line: string): string
  {
    if |line| > 0 && !HasText(line) then "" else line
  }

  /** The indentation of every line that holds text, in order. */
  function Indents(lines: seq<string>): seq<string>
  {
    if |lines| == 0 then []
    else if HasText(lines[0]) then [LeadingBlanks(lines[0])] + Indents(lines[1..])
    else Indents(lines[1..])
  }

  predicate StartsWith(s: string, prefix: string)
  {
    |prefix| <= |s| && s[..|prefix|] == prefix
  }

  /** The loop over indents: a longer indent that extends the margin keeps it,
      a shorter one the margin extends replaces it, and two that disagree
      leave no margin at all. */
  function MarginFrom(margin: string, indents: seq<string>): string
  {
    if |indents| == 0 then margin
    else if StartsWith(indents[0], margin) then MarginFrom(margin, indents[1..])
    else if StartsWith(margin, indents[0]) then MarginFrom(indents[0], indents[1..])
    else ""
  }

  function Margin(lines: seq<string>): string
  {
    var indents := Indents(lines);
    if |indents| == 0 then "" else MarginFrom(indents[0], indents[1..])
  }

  function CutMargin(margin: string, line: string): string
  {
    if |margin| > 0 && StartsWith(line, margin) then line[|margin|..] else line
  }

  function MapBlankOut(lines: seq<string>): (r: seq<string>)
    ensures |r| == |lines|
    ensures forall i :: 0 <= i < |lines| ==> r[i] == BlankOut(lines[i])
  {
    seq(|lines|, i requires 0 <= i < |lines| => BlankOut(lines[i]))
  }

  function MapCutMargin(margin: string, lines: seq<string>): (r: seq<string>)
    ensures |r| == |lines|
    ensures forall i :: 0 <= i < |lines| ==> r[i] == CutMargin(margin, lines[i])
  {
    seq(|lines|, i requires 0 <= i < |lines| => CutMargin(margin, lines[i]))
  }

  /** `textwrap.dedent(text)`. */
  function Dedent(text: string): string
  {
    var lines := MapBlankOut(Split(text, '\n'));
    Join("\n", MapCutMargin(Margin(lines), lines))
  }

  // ----------------------------------------------------- common margin

  predicate AllSpaces(s: string)
  {
    forall i :: 0 <= i < |s| ==> s[i] == ' '
  }

  /** Every line of `bodies` with `margin` in front. */
  function Prefixed(margin: string, bodies: seq<string>): (r: seq<string>)
    ensures |r| == |bodies|
    ensures forall i :: 0 <= i < |bodies| ==> r[i] == margin + bodies[i]
  {
    seq(|bodies|, i requires 0 <= i < |bodies| => margin + bodies[i])
  }

  lemma {:induction false} LeadingBlanksAfterSpaces(m: string, b: string)
    requires AllSpaces(m)
    ensures LeadingBlanks(m + b) == m + LeadingBlanks(b)
    decreases |m|
  {
    if |m| == 0 {
      assert m + b == b;
    } else {
      assert (m + b)[1..] == m[1..] + b;
      LeadingBlanksAfterSpaces(m[1..], b);
      assert [m[0]] + (m[1..] + LeadingBlanks(b)) == m + LeadingBlanks(b);
    }
  }

  lemma SpacesPrefix(a: string, b: string)
    requires AllSpaces(a) && AllSpaces(b)
    ensures StartsWith(a, b) <==> |b| <= |a|
  {
    if |b| <= |a| {
      assert a[..|b|] == b;
    }
  }

  /** Over indents made of spaces only, the loop finds the shortest one. */
  lemma {:induction false} MarginFromShortest(margin: string, indents: seq<string>, m: string)
    requires AllSpaces(margin) && AllSpaces(m) && |m| <= |margin|
    requires forall i :: 0 <= i < |indents| ==> AllSpaces(indents[i]) && |m| <= |indents[i]|
    requires |margin| == |m| || exists i :: 0 <= i < |indents| && |indents[i]| == |m|
    ensures MarginFrom(margin, indents) == m
    decreases |indents|
  {
    if |indents| == 0 {
      assert margin == m;
    } else {
      SpacesPrefix(indents[0], margin);
      SpacesPrefix(margin, indents[0]);
      if |margin| <= |indents[0]| {
        if |margin| != |m| {
          var i :| 0 <= i < |indents| && |indents[i]| == |m|;
          assert i != 0;
          assert indents[1..][i - 1] == indents[i];
        }
        MarginFromShortest(margin, indents[1..], m);
      } else {
        if |indents[0]| != |m| {
          var i :| 0 <= i < |indents| && |indents[i]| == |m|;
          assert i != 0;
          assert indents[1..][i - 1] == indents[i];
        }
        MarginFromShortest(indents[0], indents[1..], m);
      }
    }
  }

  /** Bodies whose own indentation is made of spaces, each holding text. */
  predicate SpaceIndented(bodies: seq<string>)
  {
    forall i :: 0 <= i < |bodies| ==> HasText(bodies[i]) && AllSpaces(LeadingBlanks(bodies[i]))
  }

  lemma {:induction false} IndentsOfPrefixed(m: string, bodies: seq<string>)
    requires AllSpaces(m) && SpaceIndented(bodies)
    ensures Indents(Prefixed(m, bodies)) == Prefixed(m, seq(|bodies|, i requires 0 <= i < |bodies| => LeadingBlanks(bodies[i])))
    decreases |bodies|
  {
    if |bodies| > 0 {
      LeadingBlanksAfterSpaces(m, bodies[0]);
      assert Prefixed(m, bodies)[1..] == Prefixed(m, bodies[1..]);
      IndentsOfPrefixed(m, bodies[1..]);
    }
  }

  /** The margin of lines that all carry `m` in front of a body of their own
      is `m`, once some body starts with text. */
  lemma MarginOfPrefixed(m: string, bodies: seq<string>, j: nat)
    requires AllSpaces(m) && SpaceIndented(bodies)
    requires j < |bodies| && !IsBlank(bodies[j][0])
    ensures Margin(Prefixed(m, bodies)) == m
  {
    IndentsOfPrefixed(m, bodies);
    var indents := Indents(Prefixed(m, bodies));
    assert |indents| == |bodies|;
    forall i | 0 <= i < |indents|
      ensures AllSpaces(indents[i]) && |m| <= |indents[i]|
    {
      assert indents[i] == m + LeadingBlanks(bodies[i]);
    }
    assert indents[j] == m + LeadingBlanks(bodies[j]);
    assert LeadingBlanks(bodies[j]) == "";
    if j == 0 {
      MarginFromShortest(indents[0], indents[1..], m);
    } else {
      assert indents[1..][j - 1] == indents[j];
      MarginFromShortest(indents[0], indents[1..], m);
    }
  }

  lemma PrefixedHasNoNewline(m: string, bodies: seq<string>)
    requires AllSpaces(m)
    requires forall i :: 0 <= i < |bodies| ==> '\n' !in bodies[i]
    ensures forall i :: 0 <= i < |bodies| ==> '\n' !in Prefixed(m, bodies)[i]
  {
    assert '\n' !in m;
  }

  lemma PrefixedKeptByBlankOut(m: string, bodies: seq<string>)
    requires AllSpaces(m) && SpaceIndented(bodies)
    ensures MapBlankOut(Prefixed(m, bodies)) == Prefixed(m, bodies)
  {
    forall i | 0 <= i < |bodies|
      ensures BlankOut(m + bodies[i]) == m + bodies[i]
    {
      LeadingBlanksAfterSpaces(m, bodies[i]);
    }
  }

  lemma PrefixedCut(m: string, bodies: seq<string>)
    ensures MapCutMargin(m, Prefixed(m, bodies)) == bodies
  {
    forall i | 0 <= i < |bodies|
      ensures CutMargin(m, m + bodies[i]) == bodies[i]
    {
      assert (m + bodies[i])[..|m|] == m;
      assert (m + bodies[i])[|m|..] == bodies[i];
    }
  }

  /** Dedenting text whose every line is `m` followed by an indented body,
      with at least one body flush left, gives the bodies back. */
  lemma DedentCommonMargin(m: string, bodies: seq<string>, j: nat)
    requires AllSpaces(m) && SpaceIndented(bodies)
    requires forall i :: 0 <= i < |bodies| ==> '\n' !in bodies[i]
    requires j < |bodies| && !IsBlank(bodies[j][0])
    ensures Dedent(Join("\n", Prefixed(m, bodies))) == Join("\n", bodies)
  {
    var lines := Prefixed(m, bodies);
    PrefixedHasNoNewline(m, bodies);
    SplitJoin(lines, '\n');
    PrefixedKeptByBlankOut(m, bodies);
    MarginOfPrefixed(m, bodies, j);
    PrefixedCut(m, bodies);
  }
}
