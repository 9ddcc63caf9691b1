/**
 The two numberings behind node IDs (internal/graph/graph.go): mixed-radix
 numbers for the step of every workload, bit masks for the committed
 during-rollout migrations, and row-major pairs of the two.
 */
module Numbering {
  // ---- quotient and remainder ----

  lemma MulMono(a: int, b: int, n: nat)
    requires a <= b
    ensures a * n <= b * n
  {
  }

  lemma MulSucc(q: int, n: nat)
    ensures (q + 1) * n == q * n + n
  {
  }

  lemma DivModUnique(q: int, n: int, r: int)
    requires 0 <= r < n
    ensures (q * n + r) / n == q && (q * n + r) % n == r
  {
    var x := q * n + r;
    var p := x / n;
    assert x == n * p + x % n;
    MulSucc(p, n);
    MulSucc(q, n);
    assert p >= q || p + 1 <= q;
    if p + 1 <= q {
      MulMono(p + 1, q, n);
    } else if q + 1 <= p {
      MulMono(q + 1, p, n);
    }
  }

  lemma DivModIdentity(x: int, n: nat)
    requires n > 0
    ensures x == (x / n) * n + x % n
  {
  }

  lemma PairBound(q: nat, n: nat, r: nat, m: nat)
    requires r < n && q < m
    ensures q * n + r < m * n
  {
    MulSucc(q, n);
    MulMono(q + 1, m, n);
  }

  lemma QuotientBound(x: nat, n: nat, m: nat)
    requires n > 0 && x < m * n
    ensures x / n < m
  {
    if m <= x / n {
      MulMono(m, x / n, n);
    }
  }

  // ---- mixed radix ----

  /** How many digit vectors a radix vector allows. */
  function Size(radix: seq<nat>): nat {
    if radix == [] then 1 else Size(radix[..|radix| - 1]) * radix[|radix| - 1]
  }

  ghost predicate IsDigits(radix: seq<nat>, digits: seq<nat>) {
    |digits| == |radix| && forall w :: 0 <= w < |radix| ==> digits[w] < radix[w]
  }

  /** The number a digit vector stands for, most significant digit first. */
  function Index(radix: seq<nat>, digits: seq<nat>): nat
    requires |digits| == |radix|
  {
    if radix == [] then
      0
    else
      var n := |radix| - 1;
      Index(radix[..n], digits[..n]) * radix[n] + digits[n]
  }

  /** The digit vector of a number. */
  function Digits(radix: seq<nat>, i: nat): (digits: seq<nat>)
    requires forall w :: 0 <= w < |radix| ==> radix[w] > 0
    ensures |digits| == |radix|
  {
    if radix == [] then
      []
    else
      var n := |radix| - 1;
      Digits(radix[..n], i / radix[n]) + [i % radix[n]]
  }

  lemma {:induction false} IndexRoundTrip(radix: seq<nat>, digits: seq<nat>)
    requires forall w :: 0 <= w < |radix| ==> radix[w] > 0
    requires IsDigits(radix, digits)
    ensures Index(radix, digits) < Size(radix)
    ensures Digits(radix, Index(radix, digits)) == digits
    decreases |radix|
  {
    if radix != [] {
      var n := |radix| - 1;
      IndexRoundTrip(radix[..n], digits[..n]);
      var q := Index(radix[..n], digits[..n]);
      DivModUnique(q, radix[n], digits[n]);
      PairBound(q, radix[n], digits[n], Size(radix[..n]));
      assert digits == digits[..n] + [digits[n]];
    }
  }

  lemma {:induction false} DigitsRoundTrip(radix: seq<nat>, i: nat)
    requires forall w :: 0 <= w < |radix| ==> radix[w] > 0
    requires i < Size(radix)
    ensures IsDigits(radix, Digits(radix, i))
    ensures Index(radix, Digits(radix, i)) == i
    decreases |radix|
  {
    if radix != [] {
      var n := |radix| - 1;
      QuotientBound(i, radix[n], Size(radix[..n]));
      DivModIdentity(i, radix[n]);
      var prefix := Digits(radix[..n], i / radix[n]);
      DigitsRoundTrip(radix[..n], i / radix[n]);
      var digits := Digits(radix, i);
      assert digits == prefix + [i % radix[n]];
      assert digits[..n] == prefix;
      forall w | 0 <= w < |radix| ensures digits[w] < radix[w] {
        if w < n {
          assert digits[w] == digits[..n][w];
        }
      }
    }
  }

  lemma {:induction false} SizePositive(radix: seq<nat>)
    requires forall w :: 0 <= w < |radix| ==> radix[w] > 0
    ensures Size(radix) > 0
    decreases |radix|
  {
    if radix != [] {
      var n := |radix| - 1;
      SizePositive(radix[..n]);
      PairBound(0, radix[n], 0, Size(radix[..n]));
    }
  }

  function Pow(b: nat, e: nat): nat {
    if e == 0 then 1 else b * Pow(b, e - 1)
  }

  lemma {:induction false} SizeOfThrees(radix: seq<nat>)
    requires forall w :: 0 <= w < |radix| ==> radix[w] == 3
    ensures Size(radix) == Pow(3, |radix|)
    decreases |radix|
  {
    if radix != [] {
      SizeOfThrees(radix[..|radix| - 1]);
    }
  }

  // ---- bit masks ----

  function Mask(bits: seq<bool>): nat {
    if bits == [] then 0 else (if bits[0] then 1 else 0) + 2 * Mask(bits[1..])
  }

  function Bits(mask: nat, n: nat): (bits: seq<bool>)
    ensures |bits| == n
  {
    if n == 0 then [] else [mask % 2 == 1] + Bits(mask / 2, n - 1)
  }

  /** Go's mask & (1 << k) != 0 on non-negative numbers. */
  predicate HasBit(mask: nat, k: nat) {
    PowPositive(2, k);
    (mask / Pow(2, k)) % 2 == 1
  }

  /** Go's mask | (1 << k) on non-negative numbers. */
  function WithBit(mask: nat, k: nat): nat {
    if HasBit(mask, k) then mask else mask + Pow(2, k)
  }

  lemma PowPositive(b: nat, e: nat)
    requires b > 0
    ensures Pow(b, e) > 0
  {
    if e > 0 {
      PowPositive(b, e - 1);
      assert b * Pow(b, e - 1) >= 1 * 1;
    }
  }

  lemma {:induction false} MaskRoundTrip(bits: seq<bool>)
    ensures Mask(bits) < Pow(2, |bits|)
    ensures Bits(Mask(bits), |bits|) == bits
    decreases |bits|
  {
    if bits != [] {
      MaskRoundTrip(bits[1..]);
      assert Mask(bits) / 2 == Mask(bits[1..]);
    }
  }

  lemma {:induction false} BitsRoundTrip(mask: nat, n: nat)
    requires mask < Pow(2, n)
    ensures Mask(Bits(mask, n)) == mask
    decreases n
  {
    if n > 0 {
      BitsRoundTrip(mask / 2, n - 1);
      assert Bits(mask, n)[1..] == Bits(mask / 2, n - 1);
    }
  }

  lemma DivDiv(a: nat, b: nat)
    requires b > 0
    ensures (a / 2) / b == a / (2 * b)
  {
    var q := a / (2 * b);
    var r := a % (2 * b);
    assert a == q * (2 * b) + r;
    assert a / 2 == q * b + r / 2;
    DivModUnique(q, b, r / 2);
  }

  /** The bit test reads exactly one entry of the commit vector. */
  lemma {:induction false} BitsAt(mask: nat, n: nat, k: nat)
    requires k < n
    ensures Bits(mask, n)[k] <==> HasBit(mask, k)
    decreases n
  {
    if k > 0 {
      BitsAt(mask / 2, n - 1, k - 1);
      PowPositive(2, k - 1);
      DivDiv(mask, Pow(2, k - 1));
    }
  }

  /** Setting a clear bit sets exactly one entry of the commit vector. */
  lemma {:induction false} MaskSetBit(bits: seq<bool>, k: nat)
    requires k < |bits| && !bits[k]
    ensures Mask(bits[k := true]) == Mask(bits) + Pow(2, k)
    decreases |bits|
  {
    if k == 0 {
      assert bits[k := true][1..] == bits[1..];
    } else {
      MaskSetBit(bits[1..], k - 1);
      assert bits[k := true][1..] == bits[1..][k - 1 := true];
    }
  }

  lemma {:induction false} MaskOfNone(bits: seq<bool>)
    requires forall k :: 0 <= k < |bits| ==> !bits[k]
    ensures Mask(bits) == 0
    decreases |bits|
  {
    if bits != [] {
      MaskOfNone(bits[1..]);
    }
  }

  lemma {:induction false} MaskOfAll(bits: seq<bool>)
    requires forall k :: 0 <= k < |bits| ==> bits[k]
    ensures Mask(bits) == Pow(2, |bits|) - 1
    decreases |bits|
  {
    if bits != [] {
      MaskOfAll(bits[1..]);
    }
  }
}
