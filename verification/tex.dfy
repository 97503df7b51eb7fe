/** `LaTeXFormatter._escape_tex`: eight regular-expression substitutions applied
    one after the other, then a space after every `/`. All passes but the
    ellipsis one rewrite single characters. */
module TeX {
  import opened Results

  const Specials := "{}_#%&$"

  /** The single-character substitutions, in the order the source applies them. */
  datatype Pass =
    | BackslashPass  // `\` becomes `\textbackslash`
    | SpecialPass    // each of `{}_#%&$` gets a leading backslash
    | TildePass      // `~` becomes `\~{}`
    | CaretPass      // `^` becomes `\^{}`
    | QuotePass      // `"` becomes two apostrophes
    | LessPass       // `<` becomes `\textless{}`
    | GreaterPass    // `>` becomes `\textgreater{}`
    | SlashPass      // the final `replace('/', '/ ')`

  /** Position of a pass in the source's sequence of substitutions; the
      ellipsis substitution runs between positions 4 and 5. */
  function Order(p: Pass): nat
  {
    match p
    case BackslashPass => 0
    case SpecialPass => 1
    case TildePass => 2
    case CaretPass => 3
    case QuotePass => 4
    case LessPass => 5
    case GreaterPass => 6
    case SlashPass => 7
  }

  /** The pass whose pattern matches `c`, if any; the patterns are disjoint. */
  function Toucher(c: char): Option<Pass>
  {
    if c == '\\' then Some(BackslashPass)
    else if c in Specials then Some(SpecialPass)
    else if c == '~' then Some(TildePass)
    else if c == '^' then Some(CaretPass)
    else if c == '"' then Some(QuotePass)
    else if c == '<' then Some(LessPass)
    else if c == '>' then Some(GreaterPass)
    else if c == '/' then Some(SlashPass)
    else None
  }

  predicate Touches(p: Pass, c: char)
  {
    Toucher(c) == Some(p)
  }

  /** The replacement text of a pass for a character its pattern matched. */
  function Inserted(p: Pass, c: char): string
  {
    match p
    case BackslashPass => "\\textbackslash"
    case SpecialPass => ['\\', c]
    case TildePass => "\\~{}"
    case CaretPass => "\\^{}"
    case QuotePass => "''"
    case LessPass => "\\textless{}"
    case GreaterPass => "\\textgreater{}"
    case SlashPass => "/ "
  }

  /** What a pass turns one character into. */
  function Rewrite(p: Pass, c: char): string
  {
    if Touches(p, c) then Inserted(p, c) else [c]
  }

  /** One substitution over the whole text. */
  function Apply(p: Pass, s: string): string
  {
    if |s| == 0 then "" else Rewrite(p, s[0]) + Apply(p, s[1..])
  }

  /** Number of dots `s` starts with. */
  function LeadingDots(s: string): (k: nat)
    ensures k <= |s|
    ensures forall i :: 0 <= i < k ==> s[i] == '.'
    ensures k == |s| || s[k] != '.'
  {
    if |s| > 0 && s[0] == '.' then 1 + LeadingDots(s[1..]) else 0
  }

  /** Pass 6, `re.sub(r'\.\.\.+', r'\\ldots', s)`: scanning left to right, a
      run of three or more dots is replaced whole; shorter runs stay. */
  function Ellipses(s: string): string
    decreases |s|
  {
    if |s| == 0 then ""
    else
      var k := LeadingDots(s);
      if k >= 3 then "\\ldots" + Ellipses(s[k..])
      else if k > 0 then s[..k] + Ellipses(s[k..])
      else [s[0]] + Ellipses(s[1..])
  }

  /** Passes 1 to 5: those before the ellipsis substitution. */
  function Early(s: string): string
  {
    Apply(QuotePass, Apply(CaretPass, Apply(TildePass, Apply(SpecialPass, Apply(BackslashPass, s)))))
  }

  /** Passes 7 and 8 and the slash rewrite: those after it. */
  function Late(s: string): string
  {
    Apply(SlashPass, Apply(GreaterPass, Apply(LessPass, s)))
  }

  /** `_escape_tex(value)`: the passes in the order the source lists them. */
  function EscapeTex(value: string): string
  {
    Late(Ellipses(Early(value)))
  }

  // ------------------------------------------------ one-pass reference escape

  /** What one character of the input turns into. */
  function EscapeChar(c: char): string
  {
    if c == '\\' then "\\textbackslash"
    else if c in Specials then ['\\', c]
    else if c == '~' then "\\~{}"
    else if c == '^' then "\\^{}"
    else if c == '"' then "''"
    else if c == '<' then "\\textless{}"
    else if c == '>' then "\\textgreater{}"
    else if c == '/' then "/ "
    else [c]
  }

  /** A single left-to-right reading of the input: runs of three or more dots
      become `\ldots`, every other character is escaped on its own. No output
      of one rule is ever read again by another. */
  function EscapeOnce(s: string): string
    decreases |s|
  {
    if |s| == 0 then ""
    else
      var k := LeadingDots(s);
      if k >= 3 then "\\ldots" + EscapeOnce(s[k..])
      else if k > 0 then s[..k] + EscapeOnce(s[k..])
      else EscapeChar(s[0]) + EscapeOnce(s[1..])
  }

  // ------------------------------------------------------ equivalence proof

  /** The early passes applied to one character. */
  function Before(c: char): string
  {
    Early([c])
  }

  /** The early passes fused into one character rewrite. */
  function MapBefore(s: string): string
  {
    if |s| == 0 then "" else Before(s[0]) + MapBefore(s[1..])
  }

  lemma ApplyOne(p: Pass, c: char)
    ensures Apply(p, [c]) == Rewrite(p, c)
  {
    assert [c][1..] == "";
  }

  lemma {:induction false} ApplyAppend(p: Pass, a: string, b: string)
    ensures Apply(p, a + b) == Apply(p, a) + Apply(p, b)
    decreases |a|
  {
    if |a| == 0 {
      assert a + b == b;
    } else {
      assert (a + b)[0] == a[0];
      assert (a + b)[1..] == a[1..] + b;
      ApplyAppend(p, a[1..], b);
    }
  }

  lemma EarlyAppend(a: string, b: string)
    ensures Early(a + b) == Early(a) + Early(b)
  {
    var a1, b1 := Apply(BackslashPass, a), Apply(BackslashPass, b);
    ApplyAppend(BackslashPass, a, b);
    ApplyAppend(SpecialPass, a1, b1);
    var a2, b2 := Apply(SpecialPass, a1), Apply(SpecialPass, b1);
    ApplyAppend(TildePass, a2, b2);
    var a3, b3 := Apply(TildePass, a2), Apply(TildePass, b2);
    ApplyAppend(CaretPass, a3, b3);
    ApplyAppend(QuotePass, Apply(CaretPass, a3), Apply(CaretPass, b3));
  }

  lemma LateAppend(a: string, b: string)
    ensures Late(a + b) == Late(a) + Late(b)
  {
    ApplyAppend(LessPass, a, b);
    ApplyAppend(GreaterPass, Apply(LessPass, a), Apply(LessPass, b));
    ApplyAppend(SlashPass, Apply(GreaterPass, Apply(LessPass, a)), Apply(GreaterPass, Apply(LessPass, b)));
  }

  lemma {:induction false} EarlyFuses(s: string)
    ensures Early(s) == MapBefore(s)
    decreases |s|
  {
    if |s| > 0 {
      assert s == [s[0]] + s[1..];
      EarlyAppend([s[0]], s[1..]);
      EarlyFuses(s[1..]);
    }
  }

  lemma {:induction false} ApplyFixes(p: Pass, t: string)
    requires forall i :: 0 <= i < |t| ==> !Touches(p, t[i])
    ensures Apply(p, t) == t
    decreases |t|
  {
    if |t| > 0 {
      ApplyFixes(p, t[1..]);
    }
  }

  /** `t` holds only characters that no pass after position `n` touches. */
  predicate SettledAfter(n: nat, t: string)
  {
    forall i :: 0 <= i < |t| ==> Toucher(t[i]) == None || Order(Toucher(t[i]).value) <= n
  }

  lemma SettledFixed(n: nat, t: string, q: Pass)
    requires SettledAfter(n, t) && n < Order(q)
    ensures Apply(q, t) == t
  {
    ApplyFixes(q, t);
  }

  /** A backslash followed by lower-case letters, such as `\ldots`. */
  lemma ControlWordSettled(t: string)
    requires |t| > 0 && t[0] == '\\' && forall i :: 1 <= i < |t| ==> 'a' <= t[i] <= 'z'
    ensures SettledAfter(0, t)
  {
  }

  lemma BracesSettled()
    ensures SettledAfter(1, "{}")
  {
  }

  lemma TextBackslashSettled()
    ensures SettledAfter(0, "\\textbackslash")
  {
    ControlWordSettled("\\textbackslash");
  }

  lemma TextLessSettled()
    ensures SettledAfter(5, "\\textless{}")
  {
    ControlWordSettled("\\textless");
    BracesSettled();
    assert "\\textless{}" == "\\textless" + "{}";
  }

  lemma TextGreaterSettled()
    ensures SettledAfter(6, "\\textgreater{}")
  {
    ControlWordSettled("\\textgreater");
    BracesSettled();
    assert "\\textgreater{}" == "\\textgreater" + "{}";
  }

  /** What a pass inserts is never rewritten by a later pass, and holds no dot:
      the substitutions do not interfere with each other. */
  lemma InsertedIsSettled(p: Pass, c: char)
    requires Touches(p, c)
    ensures SettledAfter(Order(p), Inserted(p, c))
    ensures |Inserted(p, c)| > 0 && '.' !in Inserted(p, c)
  {
    match p
    case BackslashPass => TextBackslashSettled();
    case LessPass => TextLessSettled();
    case GreaterPass => TextGreaterSettled();
    case _ =>
  }

  /** Characters none of the passes touches. */
  predicate Plain(c: char)
  {
    Toucher(c) == None
  }

  lemma PlainText(t: string)
    requires forall i :: 0 <= i < |t| ==> Plain(t[i])
    ensures Early(t) == t && Late(t) == t
  {
    forall q
      ensures Apply(q, t) == t
    {
      ApplyFixes(q, t);
    }
  }

  lemma PlainUntouched(c: char)
    requires Plain(c)
    ensures Before(c) == [c] && Late([c]) == [c] && EscapeChar(c) == [c]
  {
    PlainText([c]);
  }

  /** The one-pass table agrees with the pass that rewrites the character. */
  lemma EscapeCharIsInserted(p: Pass, c: char)
    requires Touches(p, c)
    ensures EscapeChar(c) == Inserted(p, c)
  {
  }

  /** Every pass but the one that rewrites `c` keeps it, and every pass after
      that one keeps what it inserted. */
  lemma PassesAroundChar(p: Pass, c: char)
    requires Touches(p, c)
    ensures forall q :: q != p ==> Apply(q, [c]) == [c]
    ensures Apply(p, [c]) == Inserted(p, c)
    ensures forall q :: Order(p) < Order(q) ==> Apply(q, Inserted(p, c)) == Inserted(p, c)
  {
    forall q | q != p
      ensures Apply(q, [c]) == [c]
    {
      ApplyOne(q, c);
    }
    ApplyOne(p, c);
    InsertedIsSettled(p, c);
    forall q | Order(p) < Order(q)
      ensures Apply(q, Inserted(p, c)) == Inserted(p, c)
    {
      SettledFixed(Order(p), Inserted(p, c), q);
    }
  }

  /** A character that pass `p` rewrites goes through the earlier passes as
      it is, is rewritten once by `p`, and stays so through the later ones. */
  lemma CharThrough(p: Pass, c: char)
    requires Touches(p, c)
    ensures Before(c) == if Order(p) < 5 then Inserted(p, c) else [c]
    ensures Late(Before(c)) == Inserted(p, c)
  {
    PassesAroundChar(p, c);
    match p
    case BackslashPass =>
    case SpecialPass =>
    case TildePass =>
    case CaretPass =>
    case QuotePass =>
    case LessPass =>
    case GreaterPass =>
    case SlashPass =>
  }

  /** Each non-dot character ends up as its one-pass escape. */
  lemma CharPasses(c: char)
    requires c != '.'
    ensures Late(Before(c)) == EscapeChar(c)
    ensures |Before(c)| > 0 && '.' !in Before(c)
  {
    match Toucher(c)
    case Some(p) =>
      CharThrough(p, c);
      EscapeCharIsInserted(p, c);
      InsertedIsSettled(p, c);
    case None =>
      PlainUntouched(c);
  }

  lemma {:induction false} MapBeforeAppend(a: string, b: string)
    ensures MapBefore(a + b) == MapBefore(a) + MapBefore(b)
  {
    EarlyFuses(a + b);
    EarlyFuses(a);
    EarlyFuses(b);
    EarlyAppend(a, b);
  }

  lemma DotsUntouched(n: nat)
    ensures Early(seq(n, _ => '.')) == seq(n, _ => '.') && Late(seq(n, _ => '.')) == seq(n, _ => '.')
  {
    assert Plain('.');
    PlainText(seq(n, _ => '.'));
  }

  lemma BeforeKeepsDots(n: nat)
    ensures MapBefore(seq(n, _ => '.')) == seq(n, _ => '.')
  {
    EarlyFuses(seq(n, _ => '.'));
    DotsUntouched(n);
  }

  lemma {:induction false} EllipsesSkipsText(p: string, x: string)
    requires '.' !in p
    ensures Ellipses(p + x) == p + Ellipses(x)
    decreases |p|
  {
    if |p| > 0 {
      assert (p + x)[0] == p[0];
      assert (p + x)[1..] == p[1..] + x;
      EllipsesSkipsText(p[1..], x);
    } else {
      assert p + x == x;
    }
  }

  /** A leading run of `k` dots followed by something that does not start with a dot. */
  lemma EllipsesRun(k: nat, x: string)
    requires k > 0 && (|x| == 0 || x[0] != '.')
    ensures Ellipses(seq(k, _ => '.') + x) == DotRunText(k) + Ellipses(x)
  {
    var d := seq(k, _ => '.');
    RunLength(d, x);
    assert (d + x)[k..] == x;
    assert (d + x)[..k] == d;
  }

  lemma {:induction false} RunLength(d: string, x: string)
    requires forall i :: 0 <= i < |d| ==> d[i] == '.'
    requires |x| == 0 || x[0] != '.'
    ensures LeadingDots(d + x) == |d|
    decreases |d|
  {
    if |d| > 0 {
      assert (d + x)[1..] == d[1..] + x;
      RunLength(d[1..], x);
    } else {
      assert d + x == x;
    }
  }

  lemma LdotsUntouched()
    ensures Late("\\ldots") == "\\ldots"
  {
    ControlWordSettled("\\ldots");
    SettledFixed(0, "\\ldots", LessPass);
    SettledFixed(0, "\\ldots", GreaterPass);
    SettledFixed(0, "\\ldots", SlashPass);
  }

  lemma MapBeforeStartsLikeInput(t: string)
    requires |t| == 0 || t[0] != '.'
    ensures var x := MapBefore(t); |x| == 0 || x[0] != '.'
  {
    if |t| > 0 {
      CharPasses(t[0]);
      assert Before(t[0])[0] in Before(t[0]);
    }
  }

  lemma DotRunSplits(s: string, k: nat)
    requires 0 < k == LeadingDots(s)
    ensures MapBefore(s) == seq(k, _ => '.') + MapBefore(s[k..])
    ensures |s[k..]| == 0 || s[k..][0] != '.'
  {
    assert s[..k] == seq(k, _ => '.');
    assert s == s[..k] + s[k..];
    MapBeforeAppend(s[..k], s[k..]);
    BeforeKeepsDots(k);
  }

  /** The text that replaces a leading run of `k` dots. */
  function DotRunText(k: nat): string
  {
    if k >= 3 then "\\ldots" else seq(k, _ => '.')
  }

  lemma DotRunTextUntouched(k: nat)
    ensures Late(DotRunText(k)) == DotRunText(k)
  {
    if k >= 3 {
      LdotsUntouched();
    } else {
      DotsUntouched(k);
    }
  }

  lemma DotRunEllipses(s: string, k: nat)
    requires 0 < k == LeadingDots(s)
    ensures Ellipses(MapBefore(s)) == DotRunText(k) + Ellipses(MapBefore(s[k..]))
  {
    DotRunSplits(s, k);
    MapBeforeStartsLikeInput(s[k..]);
    EllipsesRun(k, MapBefore(s[k..]));
  }

  /** A leading run of `k` dots: it is kept or becomes `\ldots`, as in the one-pass escape. */
  lemma DotRunStep(s: string, k: nat)
    requires 0 < k == LeadingDots(s)
    requires Late(Ellipses(MapBefore(s[k..]))) == EscapeOnce(s[k..])
    ensures Late(Ellipses(MapBefore(s))) == EscapeOnce(s)
  {
    DotRunEllipses(s, k);
    LateAppend(DotRunText(k), Ellipses(MapBefore(s[k..])));
    DotRunTextUntouched(k);
  }

  /** A leading character other than a dot is escaped on its own. */
  lemma CharStep(s: string)
    requires |s| > 0 && s[0] != '.'
    requires Late(Ellipses(MapBefore(s[1..]))) == EscapeOnce(s[1..])
    ensures Late(Ellipses(MapBefore(s))) == EscapeOnce(s)
  {
    var c := s[0];
    CharPasses(c);
    var x := MapBefore(s[1..]);
    EllipsesSkipsText(Before(c), x);
    LateAppend(Before(c), Ellipses(x));
  }

  lemma {:induction false} MiddleMatchesOnce(s: string)
    ensures Late(Ellipses(MapBefore(s))) == EscapeOnce(s)
    decreases |s|
  {
    if |s| > 0 {
      var k := LeadingDots(s);
      if k > 0 {
        MiddleMatchesOnce(s[k..]);
        DotRunStep(s, k);
      } else {
        MiddleMatchesOnce(s[1..]);
        CharStep(s);
      }
    }
  }

  /** The sequential passes of `_escape_tex` amount to one left-to-right
      escape: a backslash is escaped before any pass inserts one, and no
      inserted text is rewritten by a later pass. */
  lemma EscapeTexIsOnePass(s: string)
    ensures EscapeTex(s) == EscapeOnce(s)
  {
    EarlyFuses(s);
    MiddleMatchesOnce(s);
  }

  /** No run of three dots anywhere in `s`. */
  predicate NoEllipsis(s: string)
  {
    forall i :: 0 <= i < |s| - 2 ==> !(s[i] == '.' && s[i + 1] == '.' && s[i + 2] == '.')
  }

  predicate AllPlain(s: string)
  {
    forall i :: 0 <= i < |s| ==> Plain(s[i])
  }

  lemma SuffixStaysPlain(s: string, k: nat)
    requires k <= |s| && AllPlain(s) && NoEllipsis(s)
    ensures AllPlain(s[k..]) && NoEllipsis(s[k..])
  {
    var t := s[k..];
    assert forall i :: 0 <= i < |t| ==> t[i] == s[k + i];
  }

  lemma ShortDotRun(s: string)
    requires NoEllipsis(s)
    ensures LeadingDots(s) < 3
  {
    if |s| >= 3 {
      assert !(s[0] == '.' && s[1] == '.' && s[2] == '.');
    }
  }

  lemma {:induction false} OnceKeepsPlain(s: string)
    requires AllPlain(s) && NoEllipsis(s)
    ensures EscapeOnce(s) == s
    decreases |s|
  {
    if |s| > 0 {
      var k := LeadingDots(s);
      ShortDotRun(s);
      if k > 0 {
        SuffixStaysPlain(s, k);
        OnceKeepsPlain(s[k..]);
        assert s[..k] + s[k..] == s;
      } else {
        PlainUntouched(s[0]);
        SuffixStaysPlain(s, 1);
        OnceKeepsPlain(s[1..]);
      }
    }
  }

  /** Text with none of `\{}_#%&$~^"<>/` and no run of three dots is returned
      as it is. */
  lemma EscapeTexKeepsPlainText(s: string)
    requires AllPlain(s) && NoEllipsis(s)
    ensures EscapeTex(s) == s
  {
    EscapeTexIsOnePass(s);
    OnceKeepsPlain(s);
  }

  /** Worked examples: a backslash, and runs of four and of two dots. */
  lemma EscapeTexBackslash(s: string)
    requires s == "\\"
    ensures EscapeTex(s) == "\\textbackslash"
  {
    EscapeTexIsOnePass(s);
    CharPasses('\\');
  }

  lemma EscapeTexDots(s: string, t: string)
    requires s == "...." && t == ".."
    ensures EscapeTex(s) == "\\ldots" && EscapeTex(t) == ".."
  {
    EscapeTexIsOnePass(s);
    EscapeTexIsOnePass(t);
    assert LeadingDots(s) == 4;
    assert LeadingDots(t) == 2;
  }
}
