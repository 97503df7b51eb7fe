/** `_quotient_remainder` and the whole-second part of `human_readable_duration`
    from the record formatting module, with a reader that recovers the number of
    seconds from the rendered text. */
module Durations {
  import opened Results
  import opened Strings

  const SecondsPerMinute := 60
  const SecondsPerHour := 3600
  const SecondsPerDay := 86400

  /** `(dividend // divisor, dividend - q * divisor)` with Python's floor
      division: the remainder takes the divisor's sign. */
  function QuotientRemainder(dividend: int, divisor: int): (qr: (int, int))
    requires divisor != 0
    ensures dividend == qr.0 * divisor + qr.1
    ensures divisor > 0 ==> 0 <= qr.1 < divisor
    ensures divisor < 0 ==> divisor < qr.1 <= 0
  {
    var q := if divisor > 0 then dividend / divisor else (-dividend) / (-divisor);
    (q, dividend - q * divisor)
  }

  /** Days, hours, minutes and seconds of a whole number of seconds. */
  datatype Breakdown = Breakdown(days: int, hours: int, minutes: int, seconds: int)

  /** The number of seconds a breakdown stands for. */
  function Seconds(b: Breakdown): int
  {
    b.days * SecondsPerDay + b.hours * SecondsPerHour + b.minutes * SecondsPerMinute + b.seconds
  }

  function Decompose(total: int): (b: Breakdown)
    ensures Seconds(b) == total
    ensures 0 <= b.hours < 24 && 0 <= b.minutes < 60 && 0 <= b.seconds < 60
  {
    var (d, rem1) := QuotientRemainder(total, SecondsPerDay);
    var (h, rem2) := QuotientRemainder(rem1, SecondsPerHour);
    var (m, s) := QuotientRemainder(rem2, SecondsPerMinute);
    Breakdown(d, h, m, s)
  }

  /** Only one breakdown has hours below 24 and minutes and seconds below 60
      for a given number of seconds: `Decompose`'s contract fixes its result. */
  lemma DecomposeUnique(total: int, b: Breakdown)
    requires Seconds(b) == total
    requires 0 <= b.hours < 24 && 0 <= b.minutes < 60 && 0 <= b.seconds < 60
    ensures b == Decompose(total)
  {
    var d := Decompose(total);
    var rb := b.hours * SecondsPerHour + b.minutes * SecondsPerMinute + b.seconds;
    var rd := d.hours * SecondsPerHour + d.minutes * SecondsPerMinute + d.seconds;
    assert 0 <= rb < SecondsPerDay && 0 <= rd < SecondsPerDay;
    assert b.days == d.days;
    assert b.hours == d.hours;
    assert b.minutes == d.minutes;
  }

  /** The rendered pieces, in day, hour, minute, second order, of the parts
      that are not zero. Whole seconds print with two zero decimals. */
  function Pieces(b: Breakdown): seq<string>
  {
    UnitPiece(b.days, 'd') + UnitPiece(b.hours, 'h') + UnitPiece(b.minutes, 'm')
    + SecondsPiece(b.seconds)
  }

  /** `'{0}d'`, `'{0}h'` or `'{0}m'` when the value is not zero. */
  function UnitPiece(v: int, unit: char): seq<string>
  {
    if v != 0 then [IntToString(v) + [unit]] else []
  }

  /** `'{0:.2f}s'` of a whole number of seconds when it is not zero. */
  function SecondsPiece(v: int): seq<string>
  {
    if v != 0 then [IntToString(v) + ".00s"] else []
  }

  /** `human_readable_duration` on a whole number of seconds. */
  function HumanReadableDuration(total: int): (r: string)
    ensures r == "" <==> total == 0
  {
    var b := Decompose(total);
    var ps := Pieces(b);
    assert total != 0 ==> |ps| > 0;
    assert |ps| > 0 ==> |ps[0]| > 0;
    JoinNonEmpty(ps);
    Join(" ", ps)
  }

  lemma {:induction false} JoinNonEmpty(ps: seq<string>)
    requires |ps| > 0 ==> |ps[0]| > 0
    ensures Join(" ", ps) == "" <==> |ps| == 0
  {
    if |ps| > 1 {
      assert |Join(" ", ps)| >= |ps[0]|;
    }
  }

  /** Reads one piece back as a number of seconds. */
  function ReadPiece(p: string): Option<int>
  {
    if |p| >= 4 && p[|p| - 4..] == ".00s" then ParseInt(p[..|p| - 4])
    else if |p| >= 1 && UnitSeconds(p[|p| - 1]) > 0 then
      var v := ParseInt(p[..|p| - 1]);
      if v.Some? then Some(v.value * UnitSeconds(p[|p| - 1])) else None
    else None
  }

  /** Seconds in the unit a piece's suffix letter names; zero for other letters. */
  function UnitSeconds(c: char): nat
  {
    if c == 'd' then SecondsPerDay
    else if c == 'h' then SecondsPerHour
    else if c == 'm' then SecondsPerMinute
    else 0
  }

  /** Adds up what `read` makes of each piece; `None` if any piece is unreadable. */
  function SumBy(read: string -> Option<int>, ps: seq<string>): Option<int>
  {
    if |ps| == 0 then Some(0)
    else
      var head := read(ps[0]);
      var tail := SumBy(read, ps[1..]);
      if head.Some? && tail.Some? then Some(head.value + tail.value) else None
  }

  /** Total seconds written in a rendered duration, or `None` if the text is
      not a sequence of space-separated pieces. */
  function ReadDuration(text: string): Option<int>
  {
    if text == "" then Some(0) else SumBy(ReadPiece, Split(text, ' '))
  }

  lemma {:induction false} SumByAppend(read: string -> Option<int>, a: seq<string>, b: seq<string>, x: int, y: int)
    requires SumBy(read, a) == Some(x) && SumBy(read, b) == Some(y)
    ensures SumBy(read, a + b) == Some(x + y)
    decreases |a|
  {
    if |a| == 0 {
      assert a + b == b;
    } else {
      assert (a + b)[1..] == a[1..] + b;
      assert (a + b)[0] == a[0];
      var h := read(a[0]).value;
      SumByAppend(read, a[1..], b, x - h, y);
    }
  }

  lemma ReadUnitPiece(v: int, unit: char)
    requires UnitSeconds(unit) > 0
    ensures SumBy(ReadPiece, [IntToString(v) + [unit]]) == Some(v * UnitSeconds(unit))
  {
    ParseIntToString(v);
    ReadNumberWithUnit(IntToString(v), v, unit, UnitSeconds(unit));
    var p := IntToString(v) + [unit];
    assert SumBy(ReadPiece, [p][1..]) == Some(0);
  }

  lemma ReadNumberWithUnit(digits: string, v: int, unit: char, scale: nat)
    requires UnitSeconds(unit) == scale > 0
    requires ParseInt(digits) == Some(v)
    ensures ReadPiece(digits + [unit]) == Some(v * scale)
  {
    var p := digits + [unit];
    assert p[|p| - 1] == unit;
    assert p[..|p| - 1] == digits;
    ReadUnitSuffix(p, digits, unit);
  }

  /** A piece ending in a unit letter is read as the number before it. */
  lemma ReadUnitSuffix(p: string, digits: string, unit: char)
    requires |p| >= 1 && p[|p| - 1] == unit && UnitSeconds(unit) > 0 && p[..|p| - 1] == digits
    ensures ReadPiece(p) == if ParseInt(digits).Some? then Some(ParseInt(digits).value * UnitSeconds(unit)) else None
  {
    UnitSuffixNotSeconds(p, unit);
  }

  /** A piece ending in a unit letter does not end in ".00s". */
  lemma UnitSuffixNotSeconds(p: string, unit: char)
    requires |p| >= 1 && p[|p| - 1] == unit && UnitSeconds(unit) > 0
    ensures !(|p| >= 4 && p[|p| - 4..] == ".00s")
  {
    if |p| >= 4 {
      assert p[|p| - 4..][3] == unit;
    }
  }

  lemma ReadSecondsPiece(v: int)
    ensures SumBy(ReadPiece, [IntToString(v) + ".00s"]) == Some(v)
  {
    var p := IntToString(v) + ".00s";
    assert p[|p| - 4..] == ".00s";
    assert p[..|p| - 4] == IntToString(v);
    ParseIntToString(v);
    assert SumBy(ReadPiece, [p][1..]) == Some(0);
  }

  lemma UnitPieceAddsUp(v: int, unit: char, scale: nat)
    requires UnitSeconds(unit) == scale > 0
    ensures SumBy(ReadPiece, UnitPiece(v, unit)) == Some(v * scale)
  {
    if v != 0 { ReadUnitPiece(v, unit); }
  }

  lemma SecondsPieceAddsUp(v: int)
    ensures SumBy(ReadPiece, SecondsPiece(v)) == Some(v)
  {
    if v != 0 { ReadSecondsPiece(v); }
  }

  lemma SumByAppend4(read: string -> Option<int>, a: seq<string>, b: seq<string>, c: seq<string>, e: seq<string>,
                     x: int, y: int, z: int, w: int, total: int)
    requires SumBy(read, a) == Some(x) && SumBy(read, b) == Some(y)
    requires SumBy(read, c) == Some(z) && SumBy(read, e) == Some(w)
    requires total == x + y + z + w
    ensures SumBy(read, a + b + c + e) == Some(total)
  {
    SumByAppend(read, a, b, x, y);
    SumByAppend(read, a + b, c, x + y, z);
    SumByAppend(read, a + b + c, e, x + y + z, w);
  }

  lemma PiecesAddUp(b: Breakdown)
    ensures SumBy(ReadPiece, Pieces(b)) == Some(Seconds(b))
  {
    var days, hours, minutes := UnitPiece(b.days, 'd'), UnitPiece(b.hours, 'h'), UnitPiece(b.minutes, 'm');
    var seconds := SecondsPiece(b.seconds);
    assert Pieces(b) == days + hours + minutes + seconds;
    UnitPieceAddsUp(b.days, 'd', SecondsPerDay);
    UnitPieceAddsUp(b.hours, 'h', SecondsPerHour);
    UnitPieceAddsUp(b.minutes, 'm', SecondsPerMinute);
    SecondsPieceAddsUp(b.seconds);
    SumByAppend4(ReadPiece, days, hours, minutes, seconds,
                 b.days * SecondsPerDay, b.hours * SecondsPerHour, b.minutes * SecondsPerMinute, b.seconds,
                 Seconds(b));
  }

  lemma NoSpaceInNumber(v: int, suffix: string)
    requires ' ' !in suffix
    ensures ' ' !in IntToString(v) + suffix
  {
    var t := IntToString(v);
    assert forall i :: 0 <= i < |t| ==> t[i] != ' ';
  }

  lemma PiecesHaveNoSpace(b: Breakdown)
    ensures forall i :: 0 <= i < |Pieces(b)| ==> ' ' !in Pieces(b)[i]
  {
    NoSpaceInNumber(b.days, "d");
    NoSpaceInNumber(b.hours, "h");
    NoSpaceInNumber(b.minutes, "m");
    NoSpaceInNumber(b.seconds, ".00s");
    assert [ 'd' ] == "d" && ['h'] == "h" && ['m'] == "m";
  }

  /** A nonzero duration renders as the nonzero days, hours, minutes and
      seconds of its breakdown, in that order, separated by single blanks;
      a zero duration renders as nothing. */
  lemma RenderedPieces(total: int)
    ensures total == 0 ==> HumanReadableDuration(total) == ""
    ensures var b := Decompose(total);
      total != 0 ==> Split(HumanReadableDuration(total), ' ')
                     == UnitPiece(b.days, 'd') + UnitPiece(b.hours, 'h') + UnitPiece(b.minutes, 'm')
                        + SecondsPiece(b.seconds)
  {
    var b := Decompose(total);
    var ps := Pieces(b);
    var text := HumanReadableDuration(total);
    assert text == Join(" ", ps);
    if total != 0 {
      PiecesHaveNoSpace(b);
      assert |ps| > 0;
      SplitJoin(ps, ' ');
      assert [' '] == " ";
    }
  }

  /** Reading a rendered duration gives back the number of seconds: nothing is
      lost by leaving out the zero parts. */
  lemma ReadRenderedDuration(total: int)
    ensures ReadDuration(HumanReadableDuration(total)) == Some(total)
  {
    var b := Decompose(total);
    var ps := Pieces(b);
    var text := HumanReadableDuration(total);
    PiecesAddUp(b);
    RenderedPieces(total);
    if total != 0 {
      assert text != "";
      assert Split(text, ' ') == ps;
      assert ReadDuration(text) == SumBy(ReadPiece, ps);
    }
  }

  /** The doctest examples of `human_readable_duration` with whole seconds. */
  lemma DurationExample1()
    ensures HumanReadableDuration((6 * 60 + 32) * 60 + 12) == "6h 32m 12.00s"
  {
    Digits();
    assert Decompose((6 * 60 + 32) * 60 + 12) == Breakdown(0, 6, 32, 12);
    assert IntToString(6) + "h" == "6h" && IntToString(32) + "m" == "32m";
    assert IntToString(12) + ".00s" == "12.00s";
    assert Pieces(Breakdown(0, 6, 32, 12)) == ["6h", "32m", "12.00s"];
  }

  lemma DurationExample2()
    ensures HumanReadableDuration(((8 * 24 + 7) * 60 + 6) * 60 + 5) == "8d 7h 6m 5.00s"
  {
    Digits();
    assert Decompose(((8 * 24 + 7) * 60 + 6) * 60 + 5) == Breakdown(8, 7, 6, 5);
    assert IntToString(8) + "d" == "8d" && IntToString(7) + "h" == "7h";
    assert IntToString(6) + "m" == "6m" && IntToString(5) + ".00s" == "5.00s";
    assert Pieces(Breakdown(8, 7, 6, 5)) == ["8d", "7h", "6m", "5.00s"];
  }

  lemma DurationExample3()
    ensures HumanReadableDuration(((8 * 24 + 7) * 60 + 6) * 60) == "8d 7h 6m"
    ensures HumanReadableDuration(((8 * 24 + 7) * 60) * 60) == "8d 7h"
    ensures HumanReadableDuration(((8 * 24) * 60) * 60) == "8d"
  {
    Digits();
    assert IntToString(8) + "d" == "8d" && IntToString(7) + "h" == "7h";
    assert IntToString(6) + "m" == "6m";
    assert Decompose(((8 * 24 + 7) * 60 + 6) * 60) == Breakdown(8, 7, 6, 0);
    assert Pieces(Breakdown(8, 7, 6, 0)) == ["8d", "7h", "6m"];
    assert Decompose(((8 * 24 + 7) * 60) * 60) == Breakdown(8, 7, 0, 0);
    assert Pieces(Breakdown(8, 7, 0, 0)) == ["8d", "7h"];
    assert Decompose(((8 * 24) * 60) * 60) == Breakdown(8, 0, 0, 0);
    assert Pieces(Breakdown(8, 0, 0, 0)) == ["8d"];
  }

  lemma Digits()
    ensures IntToString(5) == "5" && IntToString(6) == "6"
    ensures IntToString(7) == "7" && IntToString(8) == "8"
    ensures IntToString(12) == "12" && IntToString(32) == "32"
  {
    assert NatToString(1) == "1";
    assert NatToString(3) == "3";
  }
}
