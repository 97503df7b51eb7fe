/** String helpers shared by the renderers: Python's `str.join`, `str.split` on one
    character, `str.replace`, slicing, padding, ASCII case
    mapping and decimal integers. */
module Strings {
  import opened Results

  /** `sep.join(parts)`. */
  function Join(sep: string, parts: seq<string>): string
  {
    if |parts| == 0 then ""
    else if |parts| == 1 then parts[0]
    else parts[0] + sep + Join(sep, parts[1..])
  }

  /** Joining one more part adds the separator and that part. */
  lemma {:induction false} JoinSnoc(sep: string, parts: seq<string>, x: string)
    requires |parts| > 0
    ensures Join(sep, parts + [x]) == Join(sep, parts) + sep + x
  {
    if |parts| > 1 {
      assert (parts + [x])[1..] == parts[1..] + [x];
      JoinSnoc(sep, parts[1..], x);
    }
  }

  /** `"".join(parts)`. */
  function Concat(parts: seq<string>): string
  {
    if |parts| == 0 then "" else parts[0] + Concat(parts[1..])
  }

  lemma {:induction false} ConcatAppend(a: seq<string>, b: seq<string>)
    ensures Concat(a + b) == Concat(a) + Concat(b)
  {
    if |a| == 0 {
      assert a + b == b;
    } else {
      assert (a + b)[1..] == a[1..] + b;
      ConcatAppend(a[1..], b);
    }
  }

  lemma ConcatFour(s0: string, s1: string, s2: string, s3: string)
    ensures Concat([s0, s1, s2, s3]) == s0 + (s1 + (s2 + s3))
  {
    assert Concat([s3]) == s3 by {
      assert [s3][1..] == [];
    }
    assert Concat([s2, s3]) == s2 + Concat([s3]) by {
      assert [s2, s3][1..] == [s3];
    }
    assert Concat([s1, s2, s3]) == s1 + Concat([s2, s3]) by {
      assert [s1, s2, s3][1..] == [s2, s3];
    }
    assert Concat([s0, s1, s2, s3]) == s0 + Concat([s1, s2, s3]) by {
      assert [s0, s1, s2, s3][1..] == [s1, s2, s3];
    }
  }

  /** Where part `i` begins in `Concat(parts)`. */
  function StartOf(parts: seq<string>, i: nat): nat
    requires i <= |parts|
  {
    if i == 0 then 0 else |parts[0]| + StartOf(parts[1..], i - 1)
  }

  lemma ConcatFrom(parts: seq<string>, k: nat)
    requires k < |parts|
    ensures Concat(parts[k..]) == parts[k] + Concat(parts[k + 1..])
  {
    assert parts[k..][1..] == parts[k + 1..];
  }

  /** Part `i` of a concatenation sits at `StartOf(parts, i)`. */
  lemma {:induction false} ConcatAt(parts: seq<string>, i: nat)
    requires i < |parts|
    ensures StartOf(parts, i) + |parts[i]| <= |Concat(parts)|
    ensures Concat(parts)[StartOf(parts, i)..StartOf(parts, i) + |parts[i]|] == parts[i]
    decreases i
  {
    var rest := Concat(parts[1..]);
    assert Concat(parts) == parts[0] + rest;
    if i > 0 {
      ConcatAt(parts[1..], i - 1);
      var m := StartOf(parts[1..], i - 1);
      assert Concat(parts)[|parts[0]| + m..|parts[0]| + m + |parts[i]|] == rest[m..m + |parts[i]|];
    }
  }

  /** A part ends before any later part begins. */
  lemma {:induction false} StartOfGrows(parts: seq<string>, i: nat, j: nat)
    requires i < j <= |parts|
    ensures StartOf(parts, i) + |parts[i]| <= StartOf(parts, j)
    decreases j
  {
    if i > 0 {
      StartOfGrows(parts[1..], i - 1, j - 1);
    } else if j > 1 {
      StartOfGrows(parts[1..], 0, j - 1);
    }
  }

  /** `s.split(sep)` for a one-character separator: never empty, and the empty
      string splits into one empty piece. */
  function Split(s: string, sep: char): (r: seq<string>)
    ensures |r| > 0
  {
    if |s| == 0 then [""]
    else
      var rest := Split(s[1..], sep);
      if s[0] == sep then [""] + rest
      else [[s[0]] + rest[0]] + rest[1..]
  }

  lemma {:induction false} SplitFree(p: string, t: string, sep: char)
    requires sep !in p
    ensures Split(p + t, sep) == [p + Split(t, sep)[0]] + Split(t, sep)[1..]
    decreases |p|
  {
    if |p| > 0 {
      assert (p + t)[1..] == p[1..] + t;
      SplitFree(p[1..], t, sep);
      assert [p[0]] + (p[1..] + Split(t, sep)[0]) == p + Split(t, sep)[0];
    } else {
      assert p + t == t;
      var st := Split(t, sep);
      assert st == [st[0]] + st[1..];
      assert p + st[0] == st[0];
    }
  }

  /** Splitting a join on a separator that no part contains gives the parts back. */
  lemma {:induction false} SplitJoin(parts: seq<string>, sep: char)
    requires |parts| > 0
    requires forall i :: 0 <= i < |parts| ==> sep !in parts[i]
    ensures Split(Join([sep], parts), sep) == parts
  {
    if |parts| == 1 {
      SplitFree(parts[0], "", sep);
      assert parts[0] + "" == parts[0];
    } else {
      var t := Join([sep], parts[1..]);
      SplitJoin(parts[1..], sep);
      assert Join([sep], parts) == parts[0] + ([sep] + t);
      SplitFree(parts[0], [sep] + t, sep);
      assert ([sep] + t)[1..] == t;
      assert Split([sep] + t, sep) == [""] + parts[1..];
      assert Join([sep], parts) == parts[0] + [sep] + t;
      assert parts[0] + "" == parts[0];
      assert [parts[0]] + parts[1..] == parts;
    }
  }

  /** `s.replace(pat, rep)`: occurrences found left to right, never overlapping. */
  function Replace(s: string, pat: string, rep: string): string
    requires |pat| > 0
    decreases |s|
  {
    if |s| < |pat| then s
    else if s[..|pat|] == pat then rep + Replace(s[|pat|..], pat, rep)
    else [s[0]] + Replace(s[1..], pat, rep)
  }

  /** Replacing one character by a text that starts with it loses nothing:
      the result starts with that character exactly when the input does. */
  lemma {:induction false} ReplaceCharInjective(s: string, t: string, c: char, rep: string)
    requires |rep| > 0 && rep[0] == c
    requires Replace(s, [c], rep) == Replace(t, [c], rep)
    ensures s == t
    decreases |s| + |t|
  {
    var rs, rt := Replace(s, [c], rep), Replace(t, [c], rep);
    if |s| > 0 && |t| > 0 {
      assert rs[0] == c <==> s[0] == c;
      assert rt[0] == c <==> t[0] == c;
      if s[0] == c {
        assert rs == rep + Replace(s[1..], [c], rep);
        assert rt == rep + Replace(t[1..], [c], rep);
        assert Replace(s[1..], [c], rep) == rs[|rep|..];
        ReplaceCharInjective(s[1..], t[1..], c, rep);
      } else {
        assert s[0] == t[0];
        assert Replace(s[1..], [c], rep) == rs[1..];
        ReplaceCharInjective(s[1..], t[1..], c, rep);
      }
      assert s == [s[0]] + s[1..];
      assert t == [t[0]] + t[1..];
    }
  }

  /** True iff `sub` occurs in `s` at position `i`. */
  predicate OccursAt(s: string, sub: string, i: nat)
  {
    i + |sub| <= |s| && s[i..i + |sub|] == sub
  }

  /** `sub in s`. */
  predicate Contains(s: string, sub: string)
  {
    exists i: nat :: i <= |s| && OccursAt(s, sub, i)
  }

  /** `s[:n]` for a non-negative `n`. */
  function Take(s: string, n: nat): (r: string)
    ensures |r| == if n < |s| then n else |s|
    ensures r == s[..|r|]
  {
    if n < |s| then s[..n] else s
  }

  /** `"%-*s" % (w, s)`: left-justified, padded with spaces to at least `w`. */
  function PadRight(s: string, w: nat): (r: string)
    ensures |r| == if w < |s| then |s| else w
    ensures r[..|s|] == s
    ensures forall k :: |s| <= k < |r| ==> r[k] == ' '
  {
    if w <= |s| then s else s + seq(w - |s|, _ => ' ')
  }

  predicate IsUpper(c: char) { 'A' <= c <= 'Z' }
  predicate IsLower(c: char) { 'a' <= c <= 'z' }
  predicate IsLetter(c: char) { IsUpper(c) || IsLower(c) }

  function LowerChar(c: char): char
  {
    if IsUpper(c) then (c as int + 32) as char else c
  }

  function UpperChar(c: char): char
  {
    if IsLower(c) then (c as int - 32) as char else c
  }

  /** `s.lower()` on ASCII letters. */
  function Lower(s: string): (r: string)
    ensures |r| == |s|
    ensures forall i :: 0 <= i < |s| ==> !IsUpper(r[i])
    ensures forall i :: 0 <= i < |s| ==> IsLetter(s[i]) || r[i] == s[i]
  {
    seq(|s|, i requires 0 <= i < |s| => LowerChar(s[i]))
  }

  /** `s.title()` on ASCII letters: a letter is upper-cased when the character
      before it is not a letter and lower-cased otherwise. */
  function Title(s: string): (r: string)
    ensures |r| == |s|
  {
    TitleAfter(s, false)
  }

  function TitleAfter(s: string, previousIsLetter: bool): (r: string)
    ensures |r| == |s|
  {
    if |s| == 0 then ""
    else
      var c := if previousIsLetter then LowerChar(s[0]) else UpperChar(s[0]);
      [c] + TitleAfter(s[1..], IsLetter(s[0]))
  }

  predicate IsDigit(c: char) { '0' <= c <= '9' }

  predicate AllDigits(s: string) { forall i :: 0 <= i < |s| ==> IsDigit(s[i]) }

  function DigitChar(d: nat): (c: char)
    requires d < 10
    ensures IsDigit(c)
  {
    ('0' as int + d) as char
  }

  function DigitValue(c: char): nat
    requires IsDigit(c)
  {
    c as int - '0' as int
  }

  /** Decimal rendering of a natural number, as `str(n)`. */
  function NatToString(n: nat): (r: string)
    ensures |r| > 0 && AllDigits(r)
  {
    if n < 10 then [DigitChar(n)] else NatToString(n / 10) + [DigitChar(n % 10)]
  }

  /** Decimal rendering of an integer, as `str(n)` or `'{0}'.format(n)`. */
  function IntToString(n: int): (r: string)
    ensures |r| > 0
    ensures r[0] == '-' || IsDigit(r[0])
    ensures IsDigit(r[|r| - 1])
    ensures forall i :: 0 <= i < |r| ==> r[i] == '-' || IsDigit(r[i])
  {
    if n < 0 then "-" + NatToString(-n) else NatToString(n)
  }

  /** Value of a string of decimal digits. */
  function ParseNat(s: string): nat
    requires AllDigits(s)
  {
    if |s| == 0 then 0 else 10 * ParseNat(s[..|s| - 1]) + DigitValue(s[|s| - 1])
  }

  lemma {:induction false} ParseNatToString(n: nat)
    ensures ParseNat(NatToString(n)) == n
  {
    var r := NatToString(n);
    if n >= 10 {
      ParseNatToString(n / 10);
      assert r[..|r| - 1] == NatToString(n / 10);
    }
  }

  predicate IsSpace(c: char) { c == ' ' || c == '\t' || c == '\n' || c == '\r' || c == '\U{0b}' || c == '\U{0c}' }

  /** `s.strip()` for ASCII whitespace. */
  function Strip(s: string): (r: string)
    ensures |r| <= |s|
    ensures |r| > 0 ==> !IsSpace(r[0]) && !IsSpace(r[|r| - 1])
  {
    StripRight(StripLeft(s))
  }

  function StripLeft(s: string): (r: string)
    ensures |r| <= |s|
    ensures |r| > 0 ==> !IsSpace(r[0]) && r[|r| - 1] == s[|s| - 1]
    ensures r == s[|s| - |r|..]
  {
    if |s| > 0 && IsSpace(s[0]) then StripLeft(s[1..]) else s
  }

  function StripRight(s: string): (r: string)
    ensures |r| <= |s|
    ensures |r| > 0 ==> !IsSpace(r[|r| - 1]) && r[0] == s[0]
    ensures r == s[..|r|]
  {
    if |s| > 0 && IsSpace(s[|s| - 1]) then StripRight(s[..|s| - 1]) else s
  }

  /** `int(s)` on a string: surrounding whitespace, an optional sign and at
      least one decimal digit; anything else is a `ValueError`, here `None`. */
  function ParseInt(s: string): Option<int>
  {
    var t := Strip(s);
    if |t| > 0 && (t[0] == '-' || t[0] == '+') then
      var d := t[1..];
      if |d| > 0 && AllDigits(d) then
        var v: int := if t[0] == '-' then 0 - ParseNat(d) as int else ParseNat(d);
        Some(v)
      else None
    else if |t| > 0 && AllDigits(t) then Some(ParseNat(t))
    else None
  }

  lemma StripUnchanged(s: string)
    requires |s| > 0 && !IsSpace(s[0]) && !IsSpace(s[|s| - 1])
    ensures Strip(s) == s
  {
  }

  /** Reading back a rendered integer gives the integer. */
  lemma ParseIntToString(n: int)
    ensures ParseInt(IntToString(n)) == Some(n)
  {
    var r := IntToString(n);
    StripUnchanged(r);
    if n < 0 {
      assert r[1..] == NatToString(-n);
      ParseNatToString(-n);
    } else {
      ParseNatToString(n);
    }
  }
}
