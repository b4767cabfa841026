/** The random-number test: a histogram of bytes and the Kullback-Leibler statistic over
    it. Arithmetic is over the reals, with log2 known only by three of its laws. */
module Trng {
  import opened Hex
  import opened Text

  // ----- the histogram

  function Total(counts: seq<nat>): nat {
    if counts == [] then 0 else counts[0] + Total(counts[1..])
  }

  lemma {:induction false} TotalAfterIncrement(counts: seq<nat>, b: nat)
    requires b < |counts|
    ensures Total(counts[b := counts[b] + 1]) == Total(counts) + 1
    decreases |counts|
  {
    var more := counts[b := counts[b] + 1];
    if b == 0 {
      assert more[1..] == counts[1..];
    } else {
      assert more[1..] == counts[1..][b - 1 := counts[1..][b - 1] + 1];
      TotalAfterIncrement(counts[1..], b - 1);
    }
  }

  /** How often the byte occurs. */
  function Count(bytes: seq<Byte>, b: Byte): nat {
    if bytes == [] then 0 else Count(bytes[..|bytes| - 1], b) + (if bytes[|bytes| - 1] == b then 1 else 0)
  }

  lemma {:induction false} CountIsMultiplicity(bytes: seq<Byte>, b: Byte)
    ensures Count(bytes, b) == multiset(bytes)[b]
    decreases |bytes|
  {
    if bytes != [] {
      var init := bytes[..|bytes| - 1];
      CountIsMultiplicity(init, b);
      assert bytes == init + [bytes[|bytes| - 1]];
    }
  }

  lemma {:induction false} CountConcat(x: seq<Byte>, y: seq<Byte>, b: Byte)
    ensures Count(x + y, b) == Count(x, b) + Count(y, b)
    decreases |y|
  {
    if y == [] {
      assert x + y == x;
    } else {
      assert (x + y)[..|x + y| - 1] == x + y[..|y| - 1];
      CountConcat(x, y[..|y| - 1], b);
    }
  }

  /** Counting one answer on top of earlier ones. */
  method AddBytes(counts: array<nat>, bytes: seq<SignedChar>)
    requires counts.Length == 256
    modifies counts
    ensures forall b: Byte :: counts[b] == old(counts[b]) + Count(AsBytes(bytes), b)
    ensures Total(counts[..]) == Total(old(counts[..])) + |bytes|
  {
    for i := 0 to |bytes|
      invariant forall b: Byte :: counts[b] == old(counts[b]) + Count(AsBytes(bytes)[..i], b)
      invariant Total(counts[..]) == Total(old(counts[..])) + i
    {
      var bins := AsBytes(bytes);
      assert bins[..i + 1][..i] == bins[..i];
      TotalAfterIncrement(counts[..], bins[i]);
      counts[AsByte(bytes[i])] := counts[AsByte(bytes[i])] + 1;
    }
    assert AsBytes(bytes)[..|bytes|] == AsBytes(bytes);
  }

  // ----- the statistic

  /** log2 of 1 is 0, and log2(x) > c (1 - 1/x) everywhere else, with c = 1 / ln 2. */
  ghost predicate IsLog2(log2: real -> real, c: real) {
    && c > 0.0 && log2(1.0) == 0.0
    && forall x :: x > 0.0 && x != 1.0 ==> log2(x) > c * (1.0 - 1.0 / x)
  }

  /** The terms of the counts, added up in order. */
  function Sum(counts: seq<nat>, term: nat -> real): real {
    if counts == [] then 0.0 else Sum(counts[..|counts| - 1], term) + term(counts[|counts| - 1])
  }

  function WeightedLog(count: nat, ratio: real, log2: real -> real): real {
    count as real * log2(count as real * ratio)
  }

  function KlTerm(ratio: real, log2: real -> real): nat -> real {
    (n: nat) => WeightedLog(n, ratio, log2)
  }

  function KlValue(counts: seq<nat>, ratio: real, log2: real -> real): real {
    Sum(counts, KlTerm(ratio, log2)) * ratio
  }

  function Ratio(bins: nat, total: nat): real
    requires total > 0
  {
    bins as real / total as real
  }

  /** None is the failed assertion that every count is positive. */
  method KlDivergence(counts: seq<nat>, total: nat, log2: real -> real) returns (r: Option<real>)
    requires total > 0
    ensures r.Some? <==> AllPositive(counts)
    ensures r.Some? ==> r.value == KlValue(counts, Ratio(|counts|, total), log2)
  {
    var ratio := Ratio(|counts|, total);
    var sum := SumTerms(counts, ratio, log2);
    return if sum.None? then None else Some(sum.value * ratio);
  }

  method SumTerms(counts: seq<nat>, ratio: real, log2: real -> real) returns (r: Option<real>)
    ensures r.Some? <==> AllPositive(counts)
    ensures r.Some? ==> r.value == Sum(counts, KlTerm(ratio, log2))
  {
    var kl := 0.0;
    for i := 0 to |counts|
      invariant AllPositive(counts[..i])
      invariant kl == Sum(counts[..i], KlTerm(ratio, log2))
    {
      if counts[i] == 0 {
        return None;
      }
      SumStep(counts, i, KlTerm(ratio, log2));
      kl := kl + counts[i] as real * log2(counts[i] as real * ratio);
    }
    assert counts[..|counts|] == counts;
    return Some(kl);
  }

  lemma SumStep(counts: seq<nat>, i: nat, term: nat -> real)
    requires i < |counts|
    ensures Sum(counts[..i + 1], term) == Sum(counts[..i], term) + term(counts[i])
  {
    assert counts[..i + 1][..i] == counts[..i] && counts[..i + 1][i] == counts[i];
  }

  lemma ProductOfRatio(n: real, r: real)
    requires n > 0.0 && r > 0.0
    ensures n * r > 0.0 && n * (1.0 / (n * r)) == 1.0 / r
  {
    assert n * (1.0 / (n * r)) == n / (n * r);
    assert (1.0 / r) * (n * r) == n;
  }

  lemma ScaledBound(n: real, l: real, c: real, q: real, p: real)
    requires n > 0.0 && l >= c * (1.0 - q) && n * q == p
    ensures n * l >= c * (n - p)
    ensures l > c * (1.0 - q) ==> n * l > c * (n - p)
  {
    assert n * (c * (1.0 - q)) == c * (n - n * q);
    assert n * (l - c * (1.0 - q)) >= 0.0;
  }

  lemma TermBound(n: real, r: real, log2: real -> real, c: real)
    requires n > 0.0 && r > 0.0 && IsLog2(log2, c)
    ensures n * log2(n * r) >= c * (n - 1.0 / r)
    ensures n * r != 1.0 ==> n * log2(n * r) > c * (n - 1.0 / r)
    ensures n * r == 1.0 ==> n * log2(n * r) == 0.0
  {
    ProductOfRatio(n, r);
    if n * r == 1.0 {
      assert n == 1.0 / r;
    } else {
      ScaledBound(n, log2(n * r), c, 1.0 / (n * r), 1.0 / r);
    }
  }

  predicate AllPositive(counts: seq<nat>) {
    forall i :: 0 <= i < |counts| ==> counts[i] > 0
  }

  /** The count a uniform distribution would give. */
  predicate IsAverage(ratio: real, n: nat) {
    n as real * ratio == 1.0
  }

  predicate Balanced(counts: seq<nat>, ratio: real) {
    forall i :: 0 <= i < |counts| ==> IsAverage(ratio, counts[i])
  }

  /** Sums of terms one of which is always the larger, strictly so except where tight. */
  lemma {:induction false} SumsCompare(counts: seq<nat>, f: nat -> real, g: nat -> real, tight: nat -> bool)
    requires forall n: nat :: n > 0 ==> if tight(n) then f(n) == g(n) else f(n) > g(n)
    requires AllPositive(counts)
    ensures Sum(counts, f) >= Sum(counts, g)
    ensures Sum(counts, f) == Sum(counts, g) <==> forall i :: 0 <= i < |counts| ==> tight(counts[i])
    decreases |counts|
  {
    if counts != [] {
      var init := counts[..|counts| - 1];
      SumsCompare(init, f, g, tight);
      assert forall i :: 0 <= i < |init| ==> init[i] == counts[i];
    }
  }

  lemma {:induction false} TotalSnoc(counts: seq<nat>, n: nat)
    ensures Total(counts + [n]) == Total(counts) + n
    decreases |counts|
  {
    if counts != [] {
      assert (counts + [n])[1..] == counts[1..] + [n];
      TotalSnoc(counts[1..], n);
    }
  }

  /** How far a count is above an amount. */
  function Excess(q: real): nat -> real {
    (n: nat) => n as real - q
  }

  function Scaled(c: real, term: nat -> real): nat -> real {
    (n: nat) => c * term(n)
  }

  /** The lower bound the laws of log2 give for a term. */
  function BoundTerm(c: real, q: real): nat -> real {
    Scaled(c, Excess(q))
  }

  lemma Distribute(c: real, x: real, y: real)
    ensures c * (x + y) == c * x + c * y
  {
  }

  lemma {:induction false} ScaledSum(counts: seq<nat>, c: real, term: nat -> real)
    ensures Sum(counts, Scaled(c, term)) == c * Sum(counts, term)
    decreases |counts|
  {
    if counts != [] {
      var init, last := counts[..|counts| - 1], counts[|counts| - 1];
      ScaledSum(init, c, term);
      Distribute(c, Sum(init, term), term(last));
    }
  }

  function Times(n: nat, q: real): real {
    if n == 0 then 0.0 else Times(n - 1, q) + q
  }

  lemma {:induction false} TimesIsProduct(n: nat, q: real)
    ensures Times(n, q) == n as real * q
    decreases n
  {
    if n > 0 {
      TimesIsProduct(n - 1, q);
      var x := (n - 1) as real;
      assert n as real == x + 1.0;
      assert (x + 1.0) * q == x * q + q;
    }
  }

  lemma {:induction false} ExcessSum(counts: seq<nat>, q: real)
    ensures Sum(counts, Excess(q)) == Total(counts) as real - Times(|counts|, q)
    decreases |counts|
  {
    if counts != [] {
      var init, last := counts[..|counts| - 1], counts[|counts| - 1];
      ExcessSum(init, q);
      assert counts == init + [last];
      TotalSnoc(init, last);
    }
  }

  lemma KlTermBound(n: nat, ratio: real, log2: real -> real, c: real)
    requires n > 0 && ratio > 0.0 && IsLog2(log2, c)
    ensures var f, g := KlTerm(ratio, log2)(n), BoundTerm(c, 1.0 / ratio)(n);
            if IsAverage(ratio, n) then f == g else f > g
  {
    var x := n as real;
    TermBound(x, ratio, log2, c);
    if x * ratio == 1.0 {
      ProductOfRatio(x, ratio);
      assert x == 1.0 / ratio;
    }
  }

  lemma RatioCancels(bins: real, total: real)
    requires bins > 0.0 && total > 0.0
    ensures bins / total > 0.0 && bins * (1.0 / (bins / total)) == total
  {
    var r := bins / total;
    assert r * total == bins;
    assert r * (1.0 / r) == 1.0;
    assert bins * (1.0 / r) == total * (r * (1.0 / r));
  }

  lemma InverseRatio(bins: nat, total: nat, ratio: real)
    requires bins > 0 && total > 0 && ratio == Ratio(bins, total)
    ensures ratio > 0.0 && Times(bins, 1.0 / ratio) == total as real
  {
    RatioCancels(bins as real, total as real);
    TimesIsProduct(bins, 1.0 / ratio);
  }

  lemma NoExcess(counts: seq<nat>, ratio: real)
    requires counts != [] && Total(counts) > 0 && ratio == Ratio(|counts|, Total(counts))
    ensures ratio > 0.0 && Sum(counts, Excess(1.0 / ratio)) == 0.0
  {
    InverseRatio(|counts|, Total(counts), ratio);
    ExcessSum(counts, 1.0 / ratio);
  }

  lemma BoundVanishes(counts: seq<nat>, ratio: real, c: real)
    requires counts != [] && Total(counts) > 0 && ratio == Ratio(|counts|, Total(counts))
    ensures ratio > 0.0 && Sum(counts, BoundTerm(c, 1.0 / ratio)) == 0.0
  {
    NoExcess(counts, ratio);
    ScaledSum(counts, c, Excess(1.0 / ratio));
  }

  lemma ScaledSign(s: real, r: real)
    requires s >= 0.0 && r > 0.0
    ensures s * r >= 0.0 && (s * r == 0.0 <==> s == 0.0)
  {
  }

  /** The statistic is never negative, and zero exactly when every count is the average. */
  lemma KlNonNegative(counts: seq<nat>, ratio: real, log2: real -> real, c: real)
    requires IsLog2(log2, c) && counts != [] && AllPositive(counts) && Total(counts) > 0
    requires ratio == Ratio(|counts|, Total(counts))
    ensures KlValue(counts, ratio, log2) >= 0.0
    ensures KlValue(counts, ratio, log2) == 0.0 <==> Balanced(counts, ratio)
  {
    BoundVanishes(counts, ratio, c);
    forall n: nat | n > 0
      ensures var f, g := KlTerm(ratio, log2)(n), BoundTerm(c, 1.0 / ratio)(n);
              if IsAverage(ratio, n) then f == g else f > g
    {
      KlTermBound(n, ratio, log2, c);
    }
    SumsCompare(counts, KlTerm(ratio, log2), BoundTerm(c, 1.0 / ratio), (n: nat) => IsAverage(ratio, n));
    ScaledSign(Sum(counts, KlTerm(ratio, log2)), ratio);
  }

  /** The share of a bin times log2 of its ratio to the uniform share. */
  function ShareTerm(n: real, total: real, bins: real, log2: real -> real): real
    requires total > 0.0 && bins > 0.0
  {
    var share, uniform := n / total, 1.0 / bins;
    share * log2(share / uniform)
  }

  function DivergenceTerm(bins: real, total: real, log2: real -> real): nat -> real
    requires bins > 0.0 && total > 0.0
  {
    (n: nat) => ShareTerm(n as real, total, bins, log2)
  }

  /** The Kullback-Leibler divergence of the counts from the uniform distribution. */
  function Divergence(counts: seq<nat>, total: nat, log2: real -> real): real
    requires counts != [] && total > 0
  {
    Sum(counts, DivergenceTerm(|counts| as real, total as real, log2))
  }

  lemma ShareOfUniform(n: real, total: real, bins: real)
    requires total > 0.0 && bins > 0.0
    ensures n / total / (1.0 / bins) == n * (bins / total)
    ensures n / total == 1.0 / total * n
  {
    assert n / total / (1.0 / bins) == n / total * bins;
  }

  lemma {:induction false} SameTerms(counts: seq<nat>, f: nat -> real, g: nat -> real)
    requires forall n: nat :: f(n) == g(n)
    ensures Sum(counts, f) == Sum(counts, g)
    decreases |counts|
  {
    if counts != [] {
      SameTerms(counts[..|counts| - 1], f, g);
    }
  }

  lemma TermOfShare(n: real, total: real, bins: real, log2: real -> real, part: real, ratio: real)
    requires total > 0.0 && bins > 0.0 && part == 1.0 / total && ratio == bins / total
    ensures ShareTerm(n, total, bins, log2) == part * (n * log2(n * ratio))
  {
    ShareOfUniform(n, total, bins);
    assert n / total == part * n;
    assert n / total / (1.0 / bins) == n * ratio;
    Rotate(part, n, log2(n * ratio));
  }

  lemma Rotate(x: real, y: real, z: real)
    ensures x * y * z == x * (y * z)
    ensures z * (y * x) == y * (x * z)
  {
  }

  lemma RatioOfSum(sum: real, bins: real, total: real, part: real, ratio: real)
    requires total > 0.0 && part == 1.0 / total && ratio == bins / total
    ensures sum * ratio == bins * (part * sum)
  {
    assert ratio == bins * part;
    Rotate(part, bins, sum);
  }

  lemma ScaledKlTerm(n: nat, part: real, ratio: real, log2: real -> real)
    ensures Scaled(part, KlTerm(ratio, log2))(n) == part * (n as real * log2(n as real * ratio))
  {
  }

  lemma ScaledTerm(n: nat, bins: real, total: real, log2: real -> real, part: real, ratio: real)
    requires total > 0.0 && bins > 0.0 && part == 1.0 / total && ratio == bins / total
    ensures DivergenceTerm(bins, total, log2)(n) == Scaled(part, KlTerm(ratio, log2))(n)
  {
    TermOfShare(n as real, total, bins, log2, part, ratio);
    ScaledKlTerm(n, part, ratio, log2);
  }

  lemma DivergenceIsPart(counts: seq<nat>, bins: real, total: real, log2: real -> real, part: real, ratio: real)
    requires total > 0.0 && bins > 0.0 && part == 1.0 / total && ratio == bins / total
    ensures Sum(counts, DivergenceTerm(bins, total, log2)) == part * Sum(counts, KlTerm(ratio, log2))
  {
    var term := KlTerm(ratio, log2);
    forall n: nat
      ensures DivergenceTerm(bins, total, log2)(n) == Scaled(part, term)(n)
    {
      ScaledTerm(n, bins, total, log2, part, ratio);
    }
    SameTerms(counts, DivergenceTerm(bins, total, log2), Scaled(part, term));
    ScaledSum(counts, part, term);
  }

  lemma KlValueIs(counts: seq<nat>, ratio: real, log2: real -> real, sum: real)
    requires sum == Sum(counts, KlTerm(ratio, log2))
    ensures KlValue(counts, ratio, log2) == sum * ratio
  {
  }

  /** What the test computes is the divergence times the number of bins: its factor is
      bins / total, where the definition has 1 / total. */
  lemma KlIsScaledDivergence(counts: seq<nat>, total: nat, log2: real -> real)
    requires counts != [] && total > 0
    ensures KlValue(counts, Ratio(|counts|, total), log2) == |counts| as real * Divergence(counts, total, log2)
  {
    var bins, all := |counts| as real, total as real;
    var ratio := Ratio(|counts|, total);
    var sum := Sum(counts, KlTerm(ratio, log2));
    DivergenceIsPart(counts, bins, all, log2, 1.0 / all, ratio);
    KlValueIs(counts, ratio, log2, sum);
    RatioOfSum(sum, bins, all, 1.0 / all, ratio);
  }

  predicate AllEqual(counts: seq<nat>) {
    forall i :: 0 <= i < |counts| ==> counts[i] == counts[0]
  }

  /** Every count is the average exactly when all counts are equal. */
  lemma BalancedIsEqual(counts: seq<nat>, ratio: real)
    requires counts != [] && AllPositive(counts) && Total(counts) > 0
    requires ratio == Ratio(|counts|, Total(counts))
    ensures Balanced(counts, ratio) <==> AllEqual(counts)
  {
    if AllEqual(counts) {
      TotalOfEqual(counts, counts[0]);
      AverageOfEqual(counts[0], |counts|, Total(counts));
    }
    if Balanced(counts, ratio) {
      forall i | 0 <= i < |counts|
        ensures counts[i] == counts[0]
      {
        SameAverage(counts[i], counts[0], ratio);
      }
    }
  }

  lemma AverageOfEqual(n: nat, bins: nat, total: nat)
    requires n > 0 && bins > 0 && total == bins * n
    ensures IsAverage(Ratio(bins, total), n)
  {
    assert bins as real * n as real == total as real;
    assert n as real * (bins as real / total as real) == (n as real * bins as real) / total as real;
  }

  lemma SameAverage(m: nat, n: nat, r: real)
    requires IsAverage(r, m) && IsAverage(r, n)
    ensures m == n
  {
    SameInverse(m as real, n as real, r);
  }

  lemma SameInverse(x: real, y: real, r: real)
    requires x * r == 1.0 && y * r == 1.0
    ensures x == y
  {
    assert x * (y * r) == (x * r) * y;
  }

  lemma {:induction false} TotalOfEqual(counts: seq<nat>, n: nat)
    requires forall i :: 0 <= i < |counts| ==> counts[i] == n
    ensures Total(counts) == |counts| * n
    decreases |counts|
  {
    if counts != [] {
      TotalOfEqual(counts[1..], n);
    }
  }

  /** log2 as assumed here exists: c (1 - 1/x) tilted a little upwards away from 1. */
  function Tilted(x: real): real {
    if x <= 0.0 || x == 1.0 then 0.0 else 2.0 - 1.0 / x
  }

  lemma SomeLog2()
    ensures IsLog2(Tilted, 1.0)
  {
  }

  // ----- the whole test

  const REQUEST_SIZE := 475
  const REPEATS := 10

  function AllBins(answers: seq<seq<SignedChar>>): seq<Byte> {
    if answers == [] then [] else AllBins(answers[..|answers| - 1]) + AsBytes(answers[|answers| - 1])
  }

  /** How often each byte value occurs. */
  function Histogram(bytes: seq<Byte>): seq<nat> {
    seq(256, b requires 0 <= b < 256 => Count(bytes, b))
  }

  lemma HistogramExactly(bytes: seq<Byte>)
    ensures forall b: Byte :: Histogram(bytes)[b] == multiset(bytes)[b]
  {
    forall b: Byte
      ensures Histogram(bytes)[b] == multiset(bytes)[b]
    {
      CountIsMultiplicity(bytes, b);
    }
  }

  /** Some char of the answer holds the byte. */
  predicate Has(answer: seq<SignedChar>, b: Byte) {
    exists j :: 0 <= j < |answer| && HoldsByte(answer[j], b)
  }

  predicate Received(answers: seq<seq<SignedChar>>, b: Byte) {
    exists i :: 0 <= i < |answers| && Has(answers[i], b)
  }

  lemma HasExactly(answer: seq<SignedChar>, b: Byte)
    ensures b in AsBytes(answer) <==> Has(answer, b)
  {
    if b in AsBytes(answer) {
      var j :| 0 <= j < |answer| && AsBytes(answer)[j] == b;
      AsByteExactly(answer[j], b);
    }
    if j :| 0 <= j < |answer| && HoldsByte(answer[j], b) {
      AsByteExactly(answer[j], b);
      assert AsBytes(answer)[j] == b;
    }
  }

  lemma {:induction false} ReceivedIsCounted(answers: seq<seq<SignedChar>>, b: Byte)
    ensures b in AllBins(answers) <==> Received(answers, b)
    decreases |answers|
  {
    if answers != [] {
      var n := |answers| - 1;
      ReceivedIsCounted(answers[..n], b);
      HasExactly(answers[n], b);
      assert forall i :: 0 <= i < n ==> answers[..n][i] == answers[i];
    }
  }

  lemma AllReceived(answers: seq<seq<SignedChar>>)
    ensures AllPositive(Histogram(AllBins(answers))) <==> forall b: Byte :: Received(answers, b)
  {
    var counts := Histogram(AllBins(answers));
    forall b: Byte
      ensures counts[b] > 0 <==> Received(answers, b)
    {
      ReceivedIsCounted(answers, b);
      CountIsMultiplicity(AllBins(answers), b);
    }
  }

  /** The byte values of all answers, counted; None is an answer of the wrong size. */
  method CountAnswers(answers: seq<seq<SignedChar>>) returns (r: Option<seq<nat>>)
    requires |answers| == REPEATS
    ensures r.Some? <==> forall i :: 0 <= i < 10 ==> |answers[i]| == 475
    ensures r.Some? ==> r.value == Histogram(AllBins(answers)) && Total(r.value) == 4750
  {
    var counts := new nat[256](_ => 0);
    TotalOfEqual(counts[..], 0);
    for x := 0 to REPEATS
      invariant forall i :: 0 <= i < x ==> |answers[i]| == REQUEST_SIZE
      invariant forall b: Byte :: counts[b] == Count(AllBins(answers[..x]), b)
      invariant Total(counts[..]) == x * REQUEST_SIZE
    {
      if |answers[x]| != REQUEST_SIZE {
        return None;
      }
      AddBytes(counts, answers[x]);
      HistogramStep(answers, x);
    }
    assert answers[..REPEATS] == answers;
    assert counts[..] == Histogram(AllBins(answers));
    return Some(counts[..]);
  }

  const KL_LIMIT: real := 15.0

  /** No statistic stands for an answer of the wrong size or a byte value that never came.
      Otherwise it is that of the bytes received: never negative, and zero exactly if all
      byte values came equally often. The test passes exactly if it is below the limit. */
  method TrngTest(answers: seq<seq<SignedChar>>, log2: real -> real, ghost c: real)
    returns (passed: bool, r: Option<real>)
    requires |answers| == REPEATS && IsLog2(log2, c)
    ensures var sized := forall i :: 0 <= i < 10 ==> |answers[i]| == 475;
            r.Some? <==> sized && forall b: Byte :: Received(answers, b)
    ensures r.Some? ==> r.value == 256.0 * Divergence(Histogram(AllBins(answers)), 4750, log2)
    ensures r.Some? ==> r.value >= 0.0 && (r.value == 0.0 <==> AllEqual(Histogram(AllBins(answers))))
    ensures passed <==> r.Some? && r.value < 15.0
  {
    var counts := CountAnswers(answers);
    if counts.None? {
      return false, None;
    }
    AllReceived(answers);
    r := KlDivergence(counts.value, REPEATS * REQUEST_SIZE, log2);
    if r.Some? {
      ghost var ratio := Ratio(256, Total(counts.value));
      KlNonNegative(counts.value, ratio, log2, c);
      BalancedIsEqual(counts.value, ratio);
      KlIsScaledDivergence(counts.value, 4750, log2);
    }
    passed := r.Some? && r.value < KL_LIMIT;
  }

  lemma HistogramStep(answers: seq<seq<SignedChar>>, x: nat)
    requires x < |answers|
    ensures forall b: Byte :: Count(AllBins(answers[..x + 1]), b)
                           == Count(AllBins(answers[..x]), b) + Count(AsBytes(answers[x]), b)
  {
    assert answers[..x + 1][..x] == answers[..x];
    forall b: Byte
      ensures Count(AllBins(answers[..x + 1]), b) == Count(AllBins(answers[..x]), b) + Count(AsBytes(answers[x]), b)
    {
      CountConcat(AllBins(answers[..x]), AsBytes(answers[x]), b);
    }
  }
}
