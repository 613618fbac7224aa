/** The weighted average that folds a batch of ratings into a hotel's stored rating. */
module RatingAverage {

  /** The new average over `count` old and `added` new ratings. */
  function NewAverage(average: real, count: nat, sum: int, added: nat): real
    requires count + added > 0
  {
    (average * count as real + sum as real) / (count + added) as real
  }

  /** What a DECIMAL(3, 2) column keeps of an average, in hundredths. */
  function Cents(average: real): int {
    (average * 100.0 + 0.5).Floor
  }

  /** The stored hundredths after a batch, read back and rounded again. */
  function NewCents(cents: int, count: nat, sum: int, added: nat): int
    requires count + added > 0
  {
    Cents(NewAverage(cents as real / 100.0, count, sum, added))
  }

  // ---------------------------------------------------------------- exact arithmetic: batches and the plain mean

  function Sum(s: seq<int>): int {
    if s == [] then 0 else s[0] + Sum(s[1..])
  }

  function Flatten(batches: seq<seq<int>>): seq<int> {
    if batches == [] then [] else Flatten(batches[..|batches| - 1]) + batches[|batches| - 1]
  }

  /** Only hotels with pending reviews are fetched, so no batch is empty. */
  predicate NoneEmpty(batches: seq<seq<int>>) {
    forall i :: 0 <= i < |batches| ==> batches[i] != []
  }

  /** The average after folding the batches in order into an empty hotel; `initial` is its unused average. */
  function Folded(initial: real, batches: seq<seq<int>>): (r: real)
    requires NoneEmpty(batches)
  {
    if batches == [] then initial
    else
      var rest, last := batches[..|batches| - 1], batches[|batches| - 1];
      assert last != [];
      NewAverage(Folded(initial, rest), |Flatten(rest)|, Sum(last), |last|)
  }

  /** With SumAppend, this fixes what a sum is. */
  lemma SumOfOne(x: int)
    ensures Sum([x]) == x
  {
  }

  lemma {:induction false} SumAppend(s: seq<int>, t: seq<int>)
    ensures Sum(s + t) == Sum(s) + Sum(t)
  {
    if s == [] {
      assert s + t == t;
    } else {
      SumAppend(s[1..], t);
      assert (s + t)[1..] == s[1..] + t;
    }
  }

  function Without(s: seq<int>, i: nat): seq<int>
    requires i < |s|
  {
    s[..i] + s[i + 1..]
  }

  lemma RemoveOne(s: seq<int>, i: nat)
    requires i < |s|
    ensures Sum(s) == s[i] + Sum(Without(s, i))
    ensures multiset(s) == multiset{s[i]} + multiset(Without(s, i))
  {
    Parts(s, i);
    SumOfParts(s[..i], s[i], s[i + 1..]);
    ElementsOfParts(s[..i], s[i], s[i + 1..]);
  }

  lemma Parts(s: seq<int>, i: nat)
    requires i < |s|
    ensures s == s[..i] + ([s[i]] + s[i + 1..])
  {
  }

  lemma SumOfParts(left: seq<int>, x: int, right: seq<int>)
    ensures Sum(left + ([x] + right)) == x + Sum(left + right)
  {
    SumOfOne(x);
    SumAppend(left, right);
    SumAppend([x], right);
    SumAppend(left, [x] + right);
  }

  lemma ElementsOfParts(left: seq<int>, x: int, right: seq<int>)
    ensures multiset(left + ([x] + right)) == multiset{x} + multiset(left + right)
  {
  }

  lemma Cancel(x: int, a: multiset<int>, b: multiset<int>)
    requires multiset{x} + a == multiset{x} + b
    ensures a == b
  {
    assert a == multiset{x} + a - multiset{x};
    assert b == multiset{x} + b - multiset{x};
  }

  lemma {:induction false} SumPermutation(s: seq<int>, t: seq<int>)
    requires multiset(s) == multiset(t)
    ensures Sum(s) == Sum(t)
  {
    if s == [] {
      assert |multiset(t)| == 0;
    } else {
      assert s[0] in multiset(t);
      var i: nat :| i < |t| && t[i] == s[0];
      RemoveOne(s, 0);
      RemoveOne(t, i);
      Cancel(s[0], multiset(Without(s, 0)), multiset(Without(t, i)));
      SumPermutation(Without(s, 0), Without(t, i));
    }
  }

  lemma AverageOfMean(sum: int, count: nat, more: int, added: nat)
    requires count > 0
    ensures NewAverage(sum as real / count as real, count, more, added) == (sum + more) as real / (count + added) as real
  {
    assert sum as real / count as real * count as real == sum as real;
  }

  /** Folding batch by batch gives the plain mean of everything folded; the divisor is never zero. */
  lemma {:induction false} FoldedIsMean(initial: real, batches: seq<seq<int>>)
    requires batches != [] && NoneEmpty(batches)
    ensures |Flatten(batches)| > 0
    ensures Folded(initial, batches) == Sum(Flatten(batches)) as real / |Flatten(batches)| as real
  {
    var rest, last := batches[..|batches| - 1], batches[|batches| - 1];
    assert last != [];
    SumAppend(Flatten(rest), last);
    if rest == [] {
      assert Flatten(rest) == [];
    } else {
      FoldedIsMean(initial, rest);
      AverageOfMean(Sum(Flatten(rest)), |Flatten(rest)|, Sum(last), |last|);
    }
  }

  /** The order of the reviews and where they are cut into batches do not matter. */
  lemma PartitionsAgree(initial: real, other: real, a: seq<seq<int>>, b: seq<seq<int>>)
    requires a != [] && b != [] && NoneEmpty(a) && NoneEmpty(b)
    requires multiset(Flatten(a)) == multiset(Flatten(b))
    ensures Folded(initial, a) == Folded(other, b)
  {
    FoldedIsMean(initial, a);
    FoldedIsMean(other, b);
    SumPermutation(Flatten(a), Flatten(b));
    assert |Flatten(a)| == |multiset(Flatten(a))| == |Flatten(b)|;
  }

  // ---------------------------------------------------------------- rounding

  /**
   The stored average is the weighted mean rounded to a hundredth, halves upwards: a batch moves `100 * total` and
   `cents * count` apart by at most half a hundredth per rating.
   */
  lemma RoundingStep(cents: int, count: nat, sum: int, added: nat)
    requires added > 0
    ensures var n := count + added;
            var off := NewCents(cents, count, sum, added) * n - (cents * count + 100 * sum);
            -n < 2 * off <= n
  {
    var n, weighted := count + added, cents * count + 100 * sum;
    HundredTimes(cents, count, sum, n);
    FloorOfQuotient(weighted, n);
  }

  lemma HundredTimes(cents: int, count: nat, sum: int, n: nat)
    requires n > 0
    ensures (cents as real / 100.0 * count as real + sum as real) / n as real * 100.0
         == (cents * count + 100 * sum) as real / n as real
  {
    MulAsReal(cents, count);
  }

  lemma FloorOfQuotient(x: int, n: nat)
    requires n > 0
    ensures var f := (x as real / n as real + 0.5).Floor;
            2 * (f * n - x) <= n && 2 * (x - f * n) < n
  {
    Quotient(x as real, n as real);
    FloorOfScaled(x as real / n as real, x, n);
  }

  lemma Quotient(x: real, m: real)
    requires m > 0.0
    ensures x / m * m == x
  {
  }

  lemma FloorOfScaled(q: real, x: int, n: nat)
    requires n > 0 && q * n as real == x as real
    ensures var f := (q + 0.5).Floor;
            2 * (f * n - x) <= n && 2 * (x - f * n) < n
  {
    var f := (q + 0.5).Floor;
    MulAsReal(f, n);
    ScaledUpper(q, f as real, n as real, x as real);
    ScaledLower(q, f as real, n as real, x as real);
    NotAbove(f * n, x, n);
    NotBelow(f * n, x, n);
  }

  lemma ScaledUpper(q: real, f: real, m: real, x: real)
    requires m > 0.0 && f <= q + 0.5 && q * m == x
    ensures f * m <= x + 0.5 * m
  {
    RealMul(f, q + 0.5, m);
    SplitProduct(q, 0.5, m);
  }

  lemma ScaledLower(q: real, f: real, m: real, x: real)
    requires m > 0.0 && q - 0.5 < f && q * m == x
    ensures f * m > x - 0.5 * m
  {
    StrictMul(q, f + 0.5, m);
    SplitProduct(f, 0.5, m);
  }

  lemma SplitProduct(a: real, b: real, m: real)
    ensures (a + b) * m == a * m + b * m
  {
  }

  lemma StrictMul(a: real, b: real, n: real)
    requires a < b && n > 0.0
    ensures a * n < b * n
  {
    PositiveProduct(b - a, n);
    assert (b - a) * n == b * n - a * n;
  }

  lemma PositiveProduct(x: real, m: real)
    requires x > 0.0 && m > 0.0
    ensures x * m > 0.0
  {
  }

  lemma MulAsReal(a: int, b: int)
    ensures (a * b) as real == a as real * b as real
  {
  }

  lemma NotAbove(y: int, x: int, n: nat)
    requires y as real <= x as real + 0.5 * n as real
    ensures 2 * (y - x) <= n
  {
  }

  lemma NotBelow(y: int, x: int, n: nat)
    requires y as real > x as real - 0.5 * n as real
    ensures 2 * (x - y) < n
  {
  }

  lemma RealMul(a: real, b: real, n: real)
    requires a <= b && n >= 0.0
    ensures a * n <= b * n
  {
  }

  /** Ratings between 1 and 5 keep the stored average between 1.00 and 5.00. */
  lemma NewCentsInRange(cents: int, count: nat, sum: int, added: nat)
    requires added > 0 && added <= sum <= 5 * added
    requires count > 0 ==> 100 <= cents <= 500
    ensures 100 <= NewCents(cents, count, sum, added) <= 500
  {
    var n, cents' := count + added, NewCents(cents, count, sum, added);
    RoundingStep(cents, count, sum, added);
    if count > 0 {
      IntMul(100, cents, count);
      IntMul(cents, 500, count);
    }
    if cents' < 100 {
      IntMul(cents', 99, n);
    } else if cents' > 500 {
      IntMul(501, cents', n);
    }
  }

  lemma IntMul(a: int, b: int, n: nat)
    requires a <= b
    ensures a * n <= b * n
  {
  }
}
