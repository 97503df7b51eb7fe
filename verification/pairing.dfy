/** Pairing the data files of two compared records by the similarity of their
    names (`pair_datafiles`): repeatedly take the most similar remaining pair
    while its similarity is above a threshold. The similarity measure (the
    ratio of a sequence matcher over the files' base names) is a parameter. */
module Pairing {
  import opened Results

  /** The threshold callers use. */
  const DefaultThreshold: real := 0.7

  datatype PairResult<K> = PairResult(matches: seq<(K, K)>, unmatchedA: seq<K>, unmatchedB: seq<K>)

  datatype PairError = IndexError

  /** The similarities of `x` to each of `b`, in order. */
  function Row<K>(sim: (K, K) -> real, x: K, b: seq<K>): (r: seq<real>)
    ensures |r| == |b|
    ensures forall j :: 0 <= j < |b| ==> r[j] == sim(x, b[j])
  {
    seq(|b|, j requires 0 <= j < |b| => sim(x, b[j]))
  }

  /** `m * n`, counted out. */
  function Area(m: nat, n: nat): nat
  {
    if m == 0 then 0 else n + Area(m - 1, n)
  }

  /** `k // n` for non-negative `k` and positive `n`. */
  function Quot(k: nat, n: nat): nat
    requires n > 0
  {
    if k < n then 0 else 1 + Quot(k - n, n)
  }

  /** `k % n` for non-negative `k` and positive `n`. */
  function Rem(k: nat, n: nat): (r: nat)
    requires n > 0
    ensures r < n
  {
    if k < n then k else Rem(k - n, n)
  }

  /** The flat list of similarities the nested loop builds: for each file of
      `a`, its similarity to each file of `b`. */
  function Scores<K>(sim: (K, K) -> real, a: seq<K>, b: seq<K>): (r: seq<real>)
    ensures |r| == Area(|a|, |b|)
  {
    if |a| == 0 then [] else Row(sim, a[0], b) + Scores(sim, a[1..], b)
  }

  /** Position `k` of the flat list compares file `k // |b|` of `a` with file
      `k % |b|` of `b`. */
  lemma {:induction false} ScoresIndex<K>(sim: (K, K) -> real, a: seq<K>, b: seq<K>, k: nat)
    requires k < |Scores(sim, a, b)|
    ensures |b| > 0 && Quot(k, |b|) < |a|
    ensures Scores(sim, a, b)[k] == sim(a[Quot(k, |b|)], b[Rem(k, |b|)])
    decreases |a|
  {
    if k >= |b| {
      ScoresIndex(sim, a[1..], b, k - |b|);
      assert a[1..][Quot(k - |b|, |b|)] == a[Quot(k, |b|)];
    }
  }

  /** The pair (`i`, `j`) sits at position `i * |b| + j`. */
  lemma {:induction false} ScoresAt<K>(sim: (K, K) -> real, a: seq<K>, b: seq<K>, i: nat, j: nat)
    requires i < |a| && j < |b|
    ensures Area(i, |b|) + j < |Scores(sim, a, b)|
    ensures Quot(Area(i, |b|) + j, |b|) == i && Rem(Area(i, |b|) + j, |b|) == j
    ensures Scores(sim, a, b)[Area(i, |b|) + j] == sim(a[i], b[j])
    decreases i
  {
    if i > 0 {
      ScoresAt(sim, a[1..], b, i - 1, j);
    }
    ScoresIndex(sim, a, b, Area(i, |b|) + j);
  }

  /** `max(scores)`. */
  function Max(scores: seq<real>): (m: real)
    requires |scores| > 0
    ensures m in scores
    ensures forall k :: 0 <= k < |scores| ==> scores[k] <= m
  {
    if |scores| == 1 then scores[0]
    else
      var rest := Max(scores[1..]);
      if scores[0] >= rest then scores[0] else rest
  }

  /** `scores.index(v)`: the first position holding `v`. */
  function IndexOf(scores: seq<real>, v: real): (k: nat)
    requires v in scores
    ensures k < |scores| && scores[k] == v
    ensures forall l :: 0 <= l < k ==> scores[l] != v
  {
    if scores[0] == v then 0 else 1 + IndexOf(scores[1..], v)
  }

  /** `s` is `t` with some elements left out, the others in their order. */
  ghost predicate IsSubsequence<K>(s: seq<K>, t: seq<K>)
    decreases |t|
  {
    |s| == 0
    || (|t| > 0 && ((s[0] == t[0] && IsSubsequence(s[1..], t[1..])) || IsSubsequence(s, t[1..])))
  }

  lemma {:induction false} SubsequenceOfItself<K>(s: seq<K>)
    ensures IsSubsequence(s, s)
    decreases |s|
  {
    if |s| > 0 {
      SubsequenceOfItself(s[1..]);
    }
  }

  lemma {:induction false} SubsequenceTransitive<K>(s: seq<K>, t: seq<K>, u: seq<K>)
    requires IsSubsequence(s, t) && IsSubsequence(t, u)
    ensures IsSubsequence(s, u)
    decreases |u|
  {
    if |s| > 0 {
      if IsSubsequence(t, u[1..]) {
        SubsequenceTransitive(s, t, u[1..]);
      } else if s[0] == t[0] && IsSubsequence(s[1..], t[1..]) {
        SubsequenceTransitive(s[1..], t[1..], u[1..]);
      } else {
        SubsequenceTransitive(s, t[1..], u[1..]);
      }
    }
  }

  /** Leaving out the element at `k` keeps the others in order. */
  lemma {:induction false} DropOneIsSubsequence<K>(s: seq<K>, k: nat)
    requires k < |s|
    ensures IsSubsequence(s[..k] + s[k + 1..], s)
    decreases k
  {
    var r := s[..k] + s[k + 1..];
    if k == 0 {
      assert r == s[1..];
      SubsequenceOfItself(s[1..]);
    } else {
      DropOneIsSubsequence(s[1..], k - 1);
      assert r[1..] == s[1..][..k - 1] + s[1..][k..];
    }
  }

  /** `s.pop(k)` for a position in range: what remains, in order. */
  function Remove<K>(s: seq<K>, k: nat): (r: seq<K>)
    requires k < |s|
    ensures |r| == |s| - 1
    ensures multiset(r) + multiset{s[k]} == multiset(s)
    ensures IsSubsequence(r, s)
  {
    assert s == s[..k] + [s[k]] + s[k + 1..];
    DropOneIsSubsequence(s, k);
    s[..k] + s[k + 1..]
  }

  /** The position of the first most similar remaining pair. */
  function BestIndex<K>(sim: (K, K) -> real, a: seq<K>, b: seq<K>): (k: nat)
    requires |a| > 0 && |b| > 0
    ensures k < |Scores(sim, a, b)| && Scores(sim, a, b)[k] == Max(Scores(sim, a, b))
    ensures forall l :: 0 <= l < k ==> Scores(sim, a, b)[l] < Max(Scores(sim, a, b))
  {
    ScoresAt(sim, a, b, 0, 0);
    var scores := Scores(sim, a, b);
    IndexOf(scores, Max(scores))
  }

  /** Position `k` splits back into its row `k // n` and column `k % n`. */
  lemma {:induction false} QuotRemSplit(k: nat, n: nat)
    requires n > 0
    ensures k == Area(Quot(k, n), n) + Rem(k, n)
    decreases k
  {
    if k >= n {
      QuotRemSplit(k - n, n);
    }
  }

  /** Every position of an earlier row comes before every position of a later one. */
  lemma {:induction false} AreaBefore(i: nat, j: nat, i': nat, n: nat)
    requires i < i' && j < n
    ensures Area(i, n) + j < Area(i', n)
    decreases i'
  {
    if i + 1 < i' {
      AreaBefore(i, j, i' - 1, n);
    }
  }

  /** Every pair before the best position in row-major order scores less
      than the maximum. */
  lemma FirstBest<K>(sim: (K, K) -> real, a: seq<K>, b: seq<K>, k: nat)
    requires |a| > 0 && |b| > 0 && k == BestIndex(sim, a, b)
    ensures forall i, j :: 0 <= i < |a| && 0 <= j < |b| && (i < Quot(k, |b|) || (i == Quot(k, |b|) && j < Rem(k, |b|)))
              ==> sim(a[i], b[j]) < Max(Scores(sim, a, b))
  {
    var n := |b|;
    QuotRemSplit(k, n);
    forall i, j | 0 <= i < |a| && 0 <= j < n && (i < Quot(k, n) || (i == Quot(k, n) && j < Rem(k, n)))
      ensures sim(a[i], b[j]) < Max(Scores(sim, a, b))
    {
      ScoresAt(sim, a, b, i, j);
      if i < Quot(k, n) {
        AreaBefore(i, j, Quot(k, n), n);
      }
    }
  }

  // ----------------------------------------------------------- as written

  /** `pair_datafiles` as the source writes it: the best position is split
      with `%` for the first list and `//` for the second, the reverse of how
      the nested loop laid the scores out. A position out of range raises
      `IndexError`. */
  function PairAsWritten<K>(sim: (K, K) -> real, a: seq<K>, b: seq<K>, threshold: real, matches: seq<(K, K)>): (r: Result<PairResult<K>, PairError>)
    ensures |a| == |b| ==> r.Ok?
    ensures r.Ok? ==> |r.value.matches| - |matches| == |a| - |r.value.unmatchedA| == |b| - |r.value.unmatchedB|
    decreases |a|
  {
    if |a| == 0 || |b| == 0 then Ok(PairResult(matches, a, b))
    else
      var scores := Scores(sim, a, b);
      if Max(scores) > threshold then
        var k := BestIndex(sim, a, b);
        ScoresIndex(sim, a, b, k);
        var ia, ib := Rem(k, |b|), Quot(k, |b|);
        if ia >= |a| || ib >= |b| then Err(IndexError)
        else PairAsWritten(sim, Remove(a, ia), Remove(b, ib), threshold, matches + [(a[ia], b[ib])])
      else Ok(PairResult(matches, a, b))
  }

  /** With one file on the second side whose best partner is the second file
      of the first side, the source pops past the end of the second list. */
  lemma AsWrittenRaises<K>(sim: (K, K) -> real, x0: K, x1: K, y: K)
    requires sim(x0, y) <= DefaultThreshold < sim(x1, y)
    ensures PairAsWritten(sim, [x0, x1], [y], DefaultThreshold, []) == Err(IndexError)
  {
    var a, b := [x0, x1], [y];
    var scores := Scores(sim, a, b);
    ScoresAt(sim, a, b, 0, 0);
    ScoresAt(sim, a, b, 1, 0);
    assert scores == [sim(x0, y), sim(x1, y)];
    assert BestIndex(sim, a, b) == 1;
  }

  /** One file on each side, similar enough: they are paired. */
  lemma AsWrittenSingle<K>(sim: (K, K) -> real, x: K, y: K, threshold: real, matches: seq<(K, K)>)
    requires sim(x, y) > threshold
    ensures PairAsWritten(sim, [x], [y], threshold, matches) == Ok(PairResult(matches + [(x, y)], [], []))
  {
    var a, b := [x], [y];
    ScoresAt(sim, a, b, 0, 0);
    assert Scores(sim, a, b) == [sim(x, y)];
    assert BestIndex(sim, a, b) == 0;
    assert Remove(a, 0) == [] && Remove(b, 0) == [];
  }

  lemma MispairStep<K>(sim: (K, K) -> real, x0: K, x1: K, y0: K, y1: K, matches: seq<(K, K)>)
    requires sim(x0, y1) > DefaultThreshold
    requires sim(x0, y0) < sim(x0, y1) && sim(x1, y0) < sim(x0, y1) && sim(x1, y1) < sim(x0, y1)
    ensures PairAsWritten(sim, [x0, x1], [y0, y1], DefaultThreshold, matches)
         == PairAsWritten(sim, [x0], [y1], DefaultThreshold, matches + [(x1, y0)])
  {
    var a, b := [x0, x1], [y0, y1];
    var scores := Scores(sim, a, b);
    ScoresAt(sim, a, b, 0, 0);
    ScoresAt(sim, a, b, 0, 1);
    ScoresAt(sim, a, b, 1, 0);
    ScoresAt(sim, a, b, 1, 1);
    assert scores == [sim(x0, y0), sim(x0, y1), sim(x1, y0), sim(x1, y1)];
    assert Max(scores) == sim(x0, y1);
    assert BestIndex(sim, a, b) == 1;
    assert Remove(a, 1) == [x0];
    assert Remove(b, 0) == [y1];
  }

  /** With two files on each side, the source can pair two files whose
      similarity is at or below the threshold: the best pair (first, second)
      is read as (second, first), so the poor pair is matched first and the
      best pair only after it. */
  lemma AsWrittenMispairs<K>(sim: (K, K) -> real, x0: K, x1: K, y0: K, y1: K, matches: seq<(K, K)>)
    requires sim(x0, y1) > DefaultThreshold
    requires sim(x0, y0) < sim(x0, y1) && sim(x1, y0) < sim(x0, y1) && sim(x1, y1) < sim(x0, y1)
    requires sim(x1, y0) <= DefaultThreshold
    ensures PairAsWritten(sim, [x0, x1], [y0, y1], DefaultThreshold, matches)
         == Ok(PairResult(matches + [(x1, y0), (x0, y1)], [], []))
  {
    MispairStep(sim, x0, x1, y0, y1, matches);
    AsWrittenSingle(sim, x0, y1, DefaultThreshold, matches + [(x1, y0)]);
    assert matches + [(x1, y0)] + [(x0, y1)] == matches + [(x1, y0), (x0, y1)];
  }

  // ------------------------------------------------------------ intended

  /** The pair at the best position, split as the loop laid it out: file
      `k // |b|` of `a` and file `k % |b|` of `b`. */
  function Choose<K>(sim: (K, K) -> real, a: seq<K>, b: seq<K>): (c: (nat, nat))
    requires |a| > 0 && |b| > 0
    ensures c.0 < |a| && c.1 < |b|
    ensures sim(a[c.0], b[c.1]) == Max(Scores(sim, a, b))
    ensures forall i, j :: 0 <= i < |a| && 0 <= j < |b| && (i < c.0 || (i == c.0 && j < c.1))
              ==> sim(a[i], b[j]) < sim(a[c.0], b[c.1])
  {
    var k := BestIndex(sim, a, b);
    ScoresIndex(sim, a, b, k);
    FirstBest(sim, a, b, k);
    (Quot(k, |b|), Rem(k, |b|))
  }

  /** No remaining pair is more similar than the chosen one, and the maximum
      is above the threshold exactly when some pair is. */
  lemma ChoiceIsBest<K>(sim: (K, K) -> real, a: seq<K>, b: seq<K>, threshold: real)
    requires |a| > 0 && |b| > 0
    ensures var c := Choose(sim, a, b);
      forall i, j :: 0 <= i < |a| && 0 <= j < |b| ==> sim(a[i], b[j]) <= sim(a[c.0], b[c.1])
    ensures Max(Scores(sim, a, b)) > threshold
      <==> exists i, j :: 0 <= i < |a| && 0 <= j < |b| && sim(a[i], b[j]) > threshold
  {
    var c := Choose(sim, a, b);
    forall i, j | 0 <= i < |a| && 0 <= j < |b|
      ensures sim(a[i], b[j]) <= sim(a[c.0], b[c.1])
    {
      ScoresAt(sim, a, b, i, j);
    }
  }

  /** `pair_datafiles` as intended: every step pops the pair whose
      similarity was the maximum. */
  function Pair<K>(sim: (K, K) -> real, a: seq<K>, b: seq<K>, threshold: real, matches: seq<(K, K)>): (p: PairResult<K>)
    ensures |p.matches| - |matches| == |a| - |p.unmatchedA| == |b| - |p.unmatchedB|
    decreases |a|
  {
    if |a| == 0 || |b| == 0 then PairResult(matches, a, b)
    else if Max(Scores(sim, a, b)) > threshold then
      var c := Choose(sim, a, b);
      Pair(sim, Remove(a, c.0), Remove(b, c.1), threshold, matches + [(a[c.0], b[c.1])])
    else PairResult(matches, a, b)
  }

  function Firsts<K>(ms: seq<(K, K)>): (r: seq<K>)
    ensures |r| == |ms|
    ensures forall k :: 0 <= k < |ms| ==> r[k] == ms[k].0
  {
    seq(|ms|, k requires 0 <= k < |ms| => ms[k].0)
  }

  function Seconds<K>(ms: seq<(K, K)>): (r: seq<K>)
    ensures |r| == |ms|
    ensures forall k :: 0 <= k < |ms| ==> r[k] == ms[k].1
  {
    seq(|ms|, k requires 0 <= k < |ms| => ms[k].1)
  }

  /** Every file of the first list ends up either matched or unmatched,
      exactly once. */
  lemma {:induction false} PairConservesFirst<K>(sim: (K, K) -> real, a: seq<K>, b: seq<K>, threshold: real, matches: seq<(K, K)>)
    ensures var p := Pair(sim, a, b, threshold, matches);
      multiset(Firsts(p.matches)) + multiset(p.unmatchedA) == multiset(Firsts(matches)) + multiset(a)
    decreases |a|
  {
    if |a| > 0 && |b| > 0 && Max(Scores(sim, a, b)) > threshold {
      var c := Choose(sim, a, b);
      var m := matches + [(a[c.0], b[c.1])];
      assert Firsts(m) == Firsts(matches) + [a[c.0]];
      PairConservesFirst(sim, Remove(a, c.0), Remove(b, c.1), threshold, m);
    }
  }

  /** Every file of the second list ends up either matched or unmatched,
      exactly once. */
  lemma {:induction false} PairConservesSecond<K>(sim: (K, K) -> real, a: seq<K>, b: seq<K>, threshold: real, matches: seq<(K, K)>)
    ensures var p := Pair(sim, a, b, threshold, matches);
      multiset(Seconds(p.matches)) + multiset(p.unmatchedB) == multiset(Seconds(matches)) + multiset(b)
    decreases |a|
  {
    if |a| > 0 && |b| > 0 && Max(Scores(sim, a, b)) > threshold {
      var c := Choose(sim, a, b);
      var m := matches + [(a[c.0], b[c.1])];
      assert Seconds(m) == Seconds(matches) + [b[c.1]];
      PairConservesSecond(sim, Remove(a, c.0), Remove(b, c.1), threshold, m);
    }
  }

  /** Matches already made stay at the head of the list, and every new one
      was above the threshold. */
  lemma {:induction false} PairKeepsMatches<K>(sim: (K, K) -> real, a: seq<K>, b: seq<K>, threshold: real, matches: seq<(K, K)>)
    ensures var p := Pair(sim, a, b, threshold, matches);
      |matches| <= |p.matches| && p.matches[..|matches|] == matches
      && forall k :: |matches| <= k < |p.matches| ==> sim(p.matches[k].0, p.matches[k].1) > threshold
    decreases |a|
  {
    if |a| > 0 && |b| > 0 && Max(Scores(sim, a, b)) > threshold {
      var c := Choose(sim, a, b);
      var m := matches + [(a[c.0], b[c.1])];
      var p := Pair(sim, Remove(a, c.0), Remove(b, c.1), threshold, m);
      assert Pair(sim, a, b, threshold, matches) == p;
      PairKeepsMatches(sim, Remove(a, c.0), Remove(b, c.1), threshold, m);
      assert p.matches[..|matches|] == matches by {
        assert p.matches[..|matches|] == p.matches[..|m|][..|matches|];
      }
      forall k | |matches| <= k < |p.matches|
        ensures sim(p.matches[k].0, p.matches[k].1) > threshold
      {
        if k == |matches| {
          assert p.matches[k] == p.matches[..|m|][k];
        }
      }
    }
  }

  /** When the pairing stops, one side is used up or no remaining pair is
      more similar than the threshold. */
  lemma {:induction false} PairStops<K>(sim: (K, K) -> real, a: seq<K>, b: seq<K>, threshold: real, matches: seq<(K, K)>)
    ensures var p := Pair(sim, a, b, threshold, matches);
      |p.unmatchedA| == 0 || |p.unmatchedB| == 0
      || forall i, j :: 0 <= i < |p.unmatchedA| && 0 <= j < |p.unmatchedB| ==> sim(p.unmatchedA[i], p.unmatchedB[j]) <= threshold
    decreases |a|
  {
    if |a| > 0 && |b| > 0 {
      ChoiceIsBest(sim, a, b, threshold);
      if Max(Scores(sim, a, b)) > threshold {
        var c := Choose(sim, a, b);
        PairStops(sim, Remove(a, c.0), Remove(b, c.1), threshold, matches + [(a[c.0], b[c.1])]);
      }
    }
  }

  /** The files left unmatched keep their relative order from the input. */
  lemma {:induction false} PairKeepsOrder<K>(sim: (K, K) -> real, a: seq<K>, b: seq<K>, threshold: real, matches: seq<(K, K)>)
    ensures var p := Pair(sim, a, b, threshold, matches);
      IsSubsequence(p.unmatchedA, a) && IsSubsequence(p.unmatchedB, b)
    decreases |a|
  {
    var p := Pair(sim, a, b, threshold, matches);
    if |a| > 0 && |b| > 0 && Max(Scores(sim, a, b)) > threshold {
      var c := Choose(sim, a, b);
      var a', b' := Remove(a, c.0), Remove(b, c.1);
      PairKeepsOrder(sim, a', b', threshold, matches + [(a[c.0], b[c.1])]);
      SubsequenceTransitive(p.unmatchedA, a', a);
      SubsequenceTransitive(p.unmatchedB, b', b);
    } else {
      SubsequenceOfItself(a);
      SubsequenceOfItself(b);
    }
  }

  /** The first match is a pair at least as similar as any other. */
  lemma PairTakesBest<K>(sim: (K, K) -> real, a: seq<K>, b: seq<K>, threshold: real)
    requires |a| > 0 && |b| > 0
    requires exists i, j :: 0 <= i < |a| && 0 <= j < |b| && sim(a[i], b[j]) > threshold
    ensures var p := Pair(sim, a, b, threshold, []);
      |p.matches| > 0
      && forall i, j :: 0 <= i < |a| && 0 <= j < |b| ==> sim(a[i], b[j]) <= sim(p.matches[0].0, p.matches[0].1)
  {
    ChoiceIsBest(sim, a, b, threshold);
    PairStartsWithChoice(sim, a, b, threshold);
  }

  /** When some pair is above the threshold, the first match is the chosen pair. */
  lemma PairStartsWithChoice<K>(sim: (K, K) -> real, a: seq<K>, b: seq<K>, threshold: real)
    requires |a| > 0 && |b| > 0 && Max(Scores(sim, a, b)) > threshold
    ensures var p, c := Pair(sim, a, b, threshold, []), Choose(sim, a, b);
      |p.matches| > 0 && p.matches[0] == (a[c.0], b[c.1])
  {
    var c := Choose(sim, a, b);
    var none: seq<(K, K)> := [];
    var m := none + [(a[c.0], b[c.1])];
    var p := Pair(sim, Remove(a, c.0), Remove(b, c.1), threshold, m);
    assert Pair(sim, a, b, threshold, none) == p;
    assert m == [(a[c.0], b[c.1])];
    PairKeepsMatches(sim, Remove(a, c.0), Remove(b, c.1), threshold, m);
    assert p.matches[0] == p.matches[..1][0];
  }

  /** `pair_datafiles(a, b)` as intended: every file ends up once, matched or
      not, each match scores above the threshold, and no pair of leftover
      files does. */
  function PairDatafiles<K>(sim: (K, K) -> real, a: seq<K>, b: seq<K>): (p: PairResult<K>)
    ensures multiset(Firsts(p.matches)) + multiset(p.unmatchedA) == multiset(a)
    ensures multiset(Seconds(p.matches)) + multiset(p.unmatchedB) == multiset(b)
    ensures forall k :: 0 <= k < |p.matches| ==> sim(p.matches[k].0, p.matches[k].1) > DefaultThreshold
    ensures |p.unmatchedA| == 0 || |p.unmatchedB| == 0
      || forall i, j :: 0 <= i < |p.unmatchedA| && 0 <= j < |p.unmatchedB| ==> sim(p.unmatchedA[i], p.unmatchedB[j]) <= DefaultThreshold
    ensures IsSubsequence(p.unmatchedA, a) && IsSubsequence(p.unmatchedB, b)
  {
    var none: seq<(K, K)> := [];
    PairKeepsOrder(sim, a, b, DefaultThreshold, none);
    PairConservesFirst(sim, a, b, DefaultThreshold, none);
    PairConservesSecond(sim, a, b, DefaultThreshold, none);
    PairKeepsMatches(sim, a, b, DefaultThreshold, none);
    PairStops(sim, a, b, DefaultThreshold, none);
    assert Firsts(none) == [] && Seconds(none) == [];
    Pair(sim, a, b, DefaultThreshold, none)
  }

  // ------------------------------------------------ as written, when it returns

  /** As written, when the source returns, every file of the first list ends
      up exactly once, matched or unmatched. */
  lemma {:induction false} AsWrittenConservesFirst<K>(sim: (K, K) -> real, a: seq<K>, b: seq<K>, threshold: real, matches: seq<(K, K)>)
    ensures var r := PairAsWritten(sim, a, b, threshold, matches);
      r.Ok? ==> multiset(Firsts(r.value.matches)) + multiset(r.value.unmatchedA) == multiset(Firsts(matches)) + multiset(a)
    decreases |a|
  {
    if |a| > 0 && |b| > 0 && Max(Scores(sim, a, b)) > threshold {
      var k := BestIndex(sim, a, b);
      var ia, ib := Rem(k, |b|), Quot(k, |b|);
      if ia < |a| && ib < |b| {
        var m := matches + [(a[ia], b[ib])];
        assert Firsts(m) == Firsts(matches) + [a[ia]];
        AsWrittenConservesFirst(sim, Remove(a, ia), Remove(b, ib), threshold, m);
      }
    }
  }

  /** As written, when the source returns, every file of the second list ends
      up exactly once, matched or unmatched. */
  lemma {:induction false} AsWrittenConservesSecond<K>(sim: (K, K) -> real, a: seq<K>, b: seq<K>, threshold: real, matches: seq<(K, K)>)
    ensures var r := PairAsWritten(sim, a, b, threshold, matches);
      r.Ok? ==> multiset(Seconds(r.value.matches)) + multiset(r.value.unmatchedB) == multiset(Seconds(matches)) + multiset(b)
    decreases |a|
  {
    if |a| > 0 && |b| > 0 && Max(Scores(sim, a, b)) > threshold {
      var k := BestIndex(sim, a, b);
      var ia, ib := Rem(k, |b|), Quot(k, |b|);
      if ia < |a| && ib < |b| {
        var m := matches + [(a[ia], b[ib])];
        assert Seconds(m) == Seconds(matches) + [b[ib]];
        AsWrittenConservesSecond(sim, Remove(a, ia), Remove(b, ib), threshold, m);
      }
    }
  }

  /** As written, when the source returns, one side is used up or no
      remaining pair is more similar than the threshold. */
  lemma {:induction false} AsWrittenStops<K>(sim: (K, K) -> real, a: seq<K>, b: seq<K>, threshold: real, matches: seq<(K, K)>)
    ensures var r := PairAsWritten(sim, a, b, threshold, matches);
      r.Ok? ==> (|r.value.unmatchedA| == 0 || |r.value.unmatchedB| == 0
                 || forall i, j :: 0 <= i < |r.value.unmatchedA| && 0 <= j < |r.value.unmatchedB|
                      ==> sim(r.value.unmatchedA[i], r.value.unmatchedB[j]) <= threshold)
    decreases |a|
  {
    if |a| > 0 && |b| > 0 {
      ChoiceIsBest(sim, a, b, threshold);
      if Max(Scores(sim, a, b)) > threshold {
        var k := BestIndex(sim, a, b);
        var ia, ib := Rem(k, |b|), Quot(k, |b|);
        if ia < |a| && ib < |b| {
          AsWrittenStops(sim, Remove(a, ia), Remove(b, ib), threshold, matches + [(a[ia], b[ib])]);
        }
      }
    }
  }

  /** As written, when the source returns, the files left unmatched keep
      their relative order from the input. */
  lemma {:induction false} AsWrittenKeepsOrder<K>(sim: (K, K) -> real, a: seq<K>, b: seq<K>, threshold: real, matches: seq<(K, K)>)
    ensures var r := PairAsWritten(sim, a, b, threshold, matches);
      r.Ok? ==> IsSubsequence(r.value.unmatchedA, a) && IsSubsequence(r.value.unmatchedB, b)
    decreases |a|
  {
    var r := PairAsWritten(sim, a, b, threshold, matches);
    if |a| > 0 && |b| > 0 && Max(Scores(sim, a, b)) > threshold {
      var k := BestIndex(sim, a, b);
      var ia, ib := Rem(k, |b|), Quot(k, |b|);
      if ia < |a| && ib < |b| {
        var a', b' := Remove(a, ia), Remove(b, ib);
        AsWrittenKeepsOrder(sim, a', b', threshold, matches + [(a[ia], b[ib])]);
        if r.Ok? {
          SubsequenceTransitive(r.value.unmatchedA, a', a);
          SubsequenceTransitive(r.value.unmatchedB, b', b);
        }
      }
    } else {
      SubsequenceOfItself(a);
      SubsequenceOfItself(b);
    }
  }

  /** `pair_datafiles(a, b)` as the source writes it: it returns whenever both
      lists are equally long, and whenever it returns, every file ends up
      once, matched or not, and no pair of leftover files scores above the
      threshold. */
  function PairDatafilesAsWritten<K>(sim: (K, K) -> real, a: seq<K>, b: seq<K>): (r: Result<PairResult<K>, PairError>)
    ensures |a| == |b| ==> r.Ok?
    ensures r.Ok? ==> multiset(Firsts(r.value.matches)) + multiset(r.value.unmatchedA) == multiset(a)
    ensures r.Ok? ==> multiset(Seconds(r.value.matches)) + multiset(r.value.unmatchedB) == multiset(b)
    ensures r.Ok? ==> (|r.value.unmatchedA| == 0 || |r.value.unmatchedB| == 0
                       || forall i, j :: 0 <= i < |r.value.unmatchedA| && 0 <= j < |r.value.unmatchedB|
                            ==> sim(r.value.unmatchedA[i], r.value.unmatchedB[j]) <= DefaultThreshold)
    ensures r.Ok? ==> IsSubsequence(r.value.unmatchedA, a) && IsSubsequence(r.value.unmatchedB, b)
  {
    var none: seq<(K, K)> := [];
    AsWrittenKeepsOrder(sim, a, b, DefaultThreshold, none);
    AsWrittenConservesFirst(sim, a, b, DefaultThreshold, none);
    AsWrittenConservesSecond(sim, a, b, DefaultThreshold, none);
    AsWrittenStops(sim, a, b, DefaultThreshold, none);
    assert Firsts(none) == [] && Seconds(none) == [];
    PairAsWritten(sim, a, b, DefaultThreshold, none)
  }
}
