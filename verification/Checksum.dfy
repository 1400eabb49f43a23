/** The WAL checksum: section 4.2 of the SQLite Database File Format, over 32-bit words. */
module Checksum {
  import opened Bytes

  datatype Sum = Sum(s0: u32, s1: u32)

  const START := Sum(0, 0)

  /** `u32::wrapping_add`. */
  function Add(a: u32, b: u32): (r: u32) {
    if a + b < TWO32 then a + b else a + b - TWO32
  }

  /** `u32::wrapping_sub`, used only to invert the step. */
  function Sub(a: u32, b: u32): (r: u32) {
    if a >= b then a - b else a - b + TWO32
  }

  /** Both wrap modulo 2^32, and each undoes the other. */
  lemma WrappingArithmetic(a: u32, b: u32)
    ensures Add(a, b) == (a + b) % TWO32 && Sub(a, b) == (a - b) % TWO32
    ensures Add(Sub(a, b), b) == a && Sub(Add(a, b), b) == a
  {
  }

  function Step(s: Sum, x0: u32, x1: u32): (r: Sum)
  {
    var t0 := Add(Add(s.s0, x0), s.s1);
    var t1 := Add(Add(s.s1, x1), t0);
    Sum(t0, t1)
  }

  /** The state before a step, from the state after it and the word pair. */
  function Unstep(t: Sum, x0: u32, x1: u32): (s: Sum)
  {
    var s1 := Sub(Sub(t.s1, t.s0), x1);
    Sum(Sub(Sub(t.s0, s1), x0), s1)
  }

  /** The only word pair that leads from state s to state t. */
  function PairBetween(s: Sum, t: Sum): (p: (u32, u32))
  {
    (Sub(Sub(t.s0, s.s1), s.s0), Sub(Sub(t.s1, t.s0), s.s1))
  }

  /** The checksum continued from state s. */
  function From(s: Sum, x: seq<u32>): (r: Sum)
    requires |x| % 2 == 0
    decreases |x|
  {
    if |x| == 0 then s else From(Step(s, x[0], x[1]), x[2..])
  }

  function Of(x: seq<u32>): (r: Sum)
    requires |x| % 2 == 0
  {
    From(START, x)
  }

  /** The loop of the source; an odd number of words fails its assertion. */
  method ComputeChecksum(x: seq<u32>) returns (s0: u32, s1: u32)
    requires |x| % 2 == 0
    ensures Sum(s0, s1) == Of(x) == FibonacciSums(x)
  {
    ChecksumIsFibonacci(x);
    s0, s1 := 0, 0;
    var i := 0;
    while i < |x|
      invariant 0 <= i <= |x| && i % 2 == 0
      invariant From(Sum(s0, s1), x[i..]) == Of(x)
    {
      assert x[i..][2..] == x[i + 2..];
      s0 := Add(Add(s0, x[i]), s1);
      s1 := Add(Add(s1, x[i + 1]), s0);
      i := i + 2;
    }
  }

  /** For a fixed word pair the step is a bijection on states. */
  lemma StepIsBijectiveOnStates(s: Sum, x0: u32, x1: u32)
    ensures Unstep(Step(s, x0, x1), x0, x1) == s
    ensures Step(Unstep(s, x0, x1), x0, x1) == s
  {
    StepThenUnstep(s, x0, x1);
    UnstepThenStep(s, x0, x1);
  }

  /** Two wrapping additions and the two subtractions that undo them, in either order. */
  lemma Cancel(a: u32, b: u32, c: u32)
    ensures Sub(Sub(Add(Add(a, b), c), c), b) == a
    ensures Add(Add(Sub(Sub(a, b), c), c), b) == a
  {
    WrappingArithmetic(Add(a, b), c);
    WrappingArithmetic(a, b);
    WrappingArithmetic(Sub(a, b), c);
  }

  lemma StepThenUnstep(s: Sum, x0: u32, x1: u32)
    ensures Unstep(Step(s, x0, x1), x0, x1) == s
  {
    var t := Step(s, x0, x1);
    Cancel(s.s1, x1, t.s0);
    Cancel(s.s0, x0, s.s1);
  }

  lemma UnstepThenStep(t: Sum, x0: u32, x1: u32)
    ensures Step(Unstep(t, x0, x1), x0, x1) == t
  {
    var s := Unstep(t, x0, x1);
    Cancel(t.s0, s.s1, x0);
    Cancel(t.s1, t.s0, x1);
  }

  /** For a fixed state the step is a bijection on word pairs. */
  lemma StepIsBijectiveOnPairs(s: Sum, t: Sum, x0: u32, x1: u32)
    ensures Step(s, x0, x1) == t <==> PairBetween(s, t) == (x0, x1)
  {
  }

  lemma {:induction false} Concatenation(s: Sum, x: seq<u32>, y: seq<u32>)
    requires |x| % 2 == 0 && |y| % 2 == 0
    ensures From(s, x + y) == From(From(s, x), y)
    decreases |x|
  {
    if |x| == 0 {
      assert x + y == y;
    } else {
      assert (x + y)[2..] == x[2..] + y;
      Concatenation(Step(s, x[0], x[1]), x[2..], y);
    }
  }

  lemma StepIsInjective(s: Sum, t: Sum, x0: u32, x1: u32)
    ensures Step(s, x0, x1) == Step(t, x0, x1) <==> s == t
  {
    StepIsBijectiveOnStates(s, x0, x1);
    StepIsBijectiveOnStates(t, x0, x1);
  }

  /** A common suffix never merges two different states. */
  lemma {:induction false} SuffixIsInjective(s: Sum, t: Sum, x: seq<u32>)
    requires |x| % 2 == 0
    ensures From(s, x) == From(t, x) <==> s == t
    decreases |x|
  {
    if |x| != 0 {
      var s', t' := Step(s, x[0], x[1]), Step(t, x[0], x[1]);
      SuffixIsInjective(s', t', x[2..]);
      assert s' == t' <==> s == t by {
        StepIsInjective(s, t, x[0], x[1]);
      }
    }
  }

  /** Every state is reached through x from exactly one state. */
  lemma {:induction false} SuffixIsSurjective(t: Sum, x: seq<u32>) returns (s: Sum)
    requires |x| % 2 == 0
    ensures From(s, x) == t
    decreases |x|
  {
    if |x| == 0 {
      s := t;
    } else {
      var u := SuffixIsSurjective(t, x[2..]);
      s := Unstep(u, x[0], x[1]);
      StepIsBijectiveOnStates(u, x[0], x[1]);
    }
  }

  /**
   Between any prefix and any suffix, and for any target checksum, exactly one
   word pair makes the whole input reach the target.
   */
  lemma ExactlyOnePairReaches(pre: seq<u32>, post: seq<u32>, target: Sum)
      returns (p: (u32, u32))
    requires |pre| % 2 == 0 && |post| % 2 == 0
    ensures forall x0: u32, x1: u32 :: Of(pre + [x0, x1] + post) == target <==> (x0, x1) == p
  {
    var t := SuffixIsSurjective(target, post);
    var s := Of(pre);
    p := PairBetween(s, t);
    forall x0: u32, x1: u32
      ensures Of(pre + [x0, x1] + post) == target <==> (x0, x1) == p
    {
      Concatenation(START, pre + [x0, x1], post);
      Concatenation(START, pre, [x0, x1]);
      StepIsBijectiveOnPairs(s, t, x0, x1);
      assert [x0, x1][2..] == [];
      assert From(s, [x0, x1]) == Step(s, x0, x1);
      SuffixIsInjective(Step(s, x0, x1), t, post);
    }
  }

  // ---------------------------------------------------------------- Fibonacci weights

  function Fib(n: nat): nat {
    if n <= 1 then n else Fib(n - 2) + Fib(n - 1)
  }

  /** The words weighted by Fibonacci numbers, the largest weight on the first word and 1 on the last. */
  function Weighted(x: seq<u32>): nat {
    if x == [] then 0 else Fib(|x|) * x[0] + Weighted(x[1..])
  }

  function ButLast(x: seq<u32>): seq<u32> {
    if x == [] then [] else x[..|x| - 1]
  }

  /** The two sums of section 4.2: the second spans all words and the first omits the last one. */
  function FibonacciSums(x: seq<u32>): Sum {
    Sum(Weighted(ButLast(x)) % TWO32, Weighted(x) % TWO32)
  }

  /** One more word: the two weighted sums before it are added to it. */
  lemma {:induction false} WeightedSnoc(y: seq<u32>, a: u32)
    ensures Weighted(y + [a]) == a + Weighted(y) + Weighted(ButLast(y))
  {
    if y == [] {
      assert [] + [a] == [a] && [a][1..] == [];
      assert Weighted([a]) == Fib(1) * a;
    } else {
      var c, z := y[0], y[1..];
      WeightedSnoc(z, a);
      assert (y + [a])[1..] == z + [a];
      FibTimes(|z|, c);
      WeightedButLast(y);
    }
  }

  lemma FibTimes(n: nat, c: u32)
    ensures Fib(n + 2) * c == Fib(n + 1) * c + Fib(n) * c
  {
    assert Fib(n + 2) == Fib(n) + Fib(n + 1);
  }

  lemma WeightedButLast(y: seq<u32>)
    requires y != []
    ensures Weighted(ButLast(y)) == Fib(|y| - 1) * y[0] + Weighted(ButLast(y[1..]))
  {
    if |y| > 1 {
      assert ButLast(y)[1..] == ButLast(y[1..]);
    }
  }

  lemma ModOfSum(p: nat, q: nat)
    ensures (p % TWO32 + q % TWO32) % TWO32 == (p + q) % TWO32
  {
    var m, n := p / TWO32, q / TWO32;
    assert p + q == (p % TWO32 + q % TWO32) + TWO32 * (m + n);
  }

  /** A wrapping addition of reduced sums. */
  lemma AddReduced(p: nat, q: nat)
    ensures Add(p % TWO32, q % TWO32) == (p + q) % TWO32
  {
    WrappingArithmetic(p % TWO32, q % TWO32);
    ModOfSum(p, q);
  }

  /** The sum after one more word, from the two sums before it. */
  lemma NextSum(y: seq<u32>, a: u32)
    ensures Add(Add(Weighted(ButLast(y)) % TWO32, a), Weighted(y) % TWO32) == Weighted(y + [a]) % TWO32
  {
    var p, q := Weighted(ButLast(y)), Weighted(y);
    assert a % TWO32 == a;
    AddReduced(p, a);
    AddReduced(p + a, q);
    WeightedSnoc(y, a);
    assert p + a + q == Weighted(y + [a]);
  }

  lemma StepKeepsSums(y: seq<u32>, a: u32, b: u32)
    ensures Step(FibonacciSums(y), a, b) == FibonacciSums(y + [a, b])
  {
    var y1 := y + [a];
    var y2 := y + [a, b];
    NextSum(y, a);
    NextSum(y1, b);
    assert y1 + [b] == y2 && ButLast(y1) == y && ButLast(y2) == y1;
  }

  /**
   What the checksum is, whatever the loop does: for every input of even length, the two
   Fibonacci-weighted sums of its words modulo 2^32.
   */
  lemma {:induction false} ChecksumIsFibonacci(x: seq<u32>)
    requires |x| % 2 == 0
    ensures Of(x) == FibonacciSums(x)
    decreases |x|
  {
    if x != [] {
      var n := |x| - 2;
      var y := x[..n];
      assert x == y + [x[n], x[n + 1]];
      ChecksumIsFibonacci(y);
      Concatenation(START, y, [x[n], x[n + 1]]);
      assert [x[n], x[n + 1]][2..] == [];
      assert From(Of(y), [x[n], x[n + 1]]) == Step(Of(y), x[n], x[n + 1]);
      StepKeepsSums(y, x[n], x[n + 1]);
    }
  }

  /** Inputs that differ in exactly one word pair have different checksums. */
  lemma OnePairIsDetected(x: seq<u32>, y: seq<u32>, i: nat)
    requires |x| == |y| && |x| % 2 == 0 && i % 2 == 0 && i + 2 <= |x|
    requires x[..i] == y[..i] && x[i + 2..] == y[i + 2..]
    requires x[i..i + 2] != y[i..i + 2]
    ensures Of(x) != Of(y)
  {
    var p := ExactlyOnePairReaches(x[..i], x[i + 2..], Of(x));
    assert x == x[..i] + [x[i], x[i + 1]] + x[i + 2..];
    assert y == x[..i] + [y[i], y[i + 1]] + x[i + 2..];
    assert x[i..i + 2] == [x[i], x[i + 1]] && y[i..i + 2] == [y[i], y[i + 1]];
  }
}
