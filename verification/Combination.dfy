/** The k-subset enumerator of dev/lsf/algorithm/combination.hpp.

  A selection is a vector of n cells (the source's vector<int8_t> of zeros and ones, here
  booleans, true standing for 1).
  `Unrank(n, k, i)` is the reference: the i-th vector with k ones, decided from the top
  position down.  The in-place step and the driver loop are proved against it. */
module Combination {

  type Bit = bool

  function Repeat(b: Bit, n: nat): (v: seq<Bit>)
    ensures |v| == n && forall i :: 0 <= i < n ==> v[i] == b
  {
    seq(n, _ => b)
  }

  function Ones(v: seq<Bit>): (k: nat)
    ensures k <= |v|
  {
    if v == [] then 0 else Ones(v[..|v| - 1]) + (if v[|v| - 1] then 1 else 0)
  }

  function Pow2(n: nat): (p: nat)
    ensures p >= 1
  {
    if n == 0 then 1 else 2 * Pow2(n - 1)
  }

  /** The vector read as a binary number, position 0 being the lowest bit. */
  function Val(v: seq<Bit>): nat {
    if v == [] then 0 else Val(v[..|v| - 1]) + (if v[|v| - 1] then Pow2(|v| - 1) else 0)
  }

  predicate IsDescent(v: seq<Bit>, j: int) {
    0 <= j < |v| - 1 && v[j] && !v[j + 1]
  }

  /** The first position holding 1 whose right neighbour holds 0, or -1. */
  function FirstDescent(v: seq<Bit>): (i: int)
    ensures i == -1 || IsDescent(v, i)
  {
    if |v| < 2 then -1
    else
      var r := FirstDescent(v[..|v| - 1]);
      if r >= 0 then r
      else if IsDescent(v, |v| - 2) then |v| - 2
      else -1
  }

  function SortedDown(v: seq<Bit>): (w: seq<Bit>)
    ensures |w| == |v|
  {
    Repeat(true, Ones(v)) + Repeat(false, |v| - Ones(v))
  }

  /** What one successful step leaves in the vector. */
  function Successor(v: seq<Bit>): (w: seq<Bit>)
    requires FirstDescent(v) >= 0
    ensures |w| == |v|
  {
    var i := FirstDescent(v);
    SortedDown(v[..i]) + [false, true] + v[i + 2..]
  }

  lemma {:induction false} FirstDescentIsFirst(v: seq<Bit>, j: int)
    requires IsDescent(v, j)
    ensures 0 <= FirstDescent(v) <= j
  {
    var p := v[..|v| - 1];
    if j < |p| - 1 {
      assert IsDescent(p, j);
      FirstDescentIsFirst(p, j);
    }
  }

  // ---- counting ones -------------------------------------------------------

  lemma {:induction false} OnesConcat(a: seq<Bit>, b: seq<Bit>)
    ensures Ones(a + b) == Ones(a) + Ones(b)
    decreases |b|
  {
    if b == [] {
      assert a + b == a;
    } else {
      var m := |b| - 1;
      assert (a + b)[..|a + b| - 1] == a + b[..m];
      OnesConcat(a, b[..m]);
    }
  }

  lemma {:induction false} OnesRepeat(b: Bit, n: nat)
    ensures Ones(Repeat(b, n)) == if b then n else 0
  {
    if n > 0 {
      assert Repeat(b, n)[..n - 1] == Repeat(b, n - 1);
      OnesRepeat(b, n - 1);
    }
  }

  lemma {:induction false} DescendingIsSortedDown(v: seq<Bit>)
    requires forall i, j :: 0 <= i < j < |v| ==> v[j] ==> v[i]
    ensures v == SortedDown(v)
  {
    if v != [] {
      var p, b := v[..|v| - 1], v[|v| - 1];
      DescendingIsSortedDown(p);
      if b {
        assert forall i :: 0 <= i < |p| ==> p[i];
        assert p == Repeat(true, |p|);
        OnesRepeat(true, |p|);
      }
    }
  }

  /** A vector in which no step is possible has all its zeros first. */
  lemma {:induction false} NoDescentIsAscending(v: seq<Bit>)
    requires FirstDescent(v) == -1
    ensures v == Repeat(false, |v| - Ones(v)) + Repeat(true, Ones(v))
  {
    if |v| >= 2 {
      var p, b := v[..|v| - 1], v[|v| - 1];
      NoDescentIsAscending(p);
      if Ones(p) > 0 {
        assert p[|p| - 1];
      }
    }
  }

  lemma AscendingHasNoDescent(z: nat, k: nat)
    ensures FirstDescent(Repeat(false, z) + Repeat(true, k)) == -1
  {
    var i := FirstDescent(Repeat(false, z) + Repeat(true, k));
    assert i == -1 || IsDescent(Repeat(false, z) + Repeat(true, k), i);
  }

  lemma StepsUnderSuffix(v: seq<Bit>, b: Bit)
    requires FirstDescent(v) >= 0
    ensures FirstDescent(v + [b]) == FirstDescent(v)
    ensures Successor(v + [b]) == Successor(v) + [b]
  {
    assert (v + [b])[..|v|] == v;
    var i := FirstDescent(v);
    assert (v + [b])[..i] == v[..i];
    assert (v + [b])[i + 2..] == v[i + 2..] + [b];
  }

  lemma BoundaryDescent(z: nat, k: nat)
    requires k >= 1
    ensures FirstDescent(Repeat(false, z) + Repeat(true, k) + [false]) == z + k - 1
  {
    var p := Repeat(false, z) + Repeat(true, k);
    AscendingHasNoDescent(z, k);
    assert (p + [false])[..|p|] == p;
  }

  lemma BoundarySorted(z: nat, k: nat)
    ensures SortedDown(Repeat(false, z) + Repeat(true, k)) == Repeat(true, k) + Repeat(false, z)
  {
    hide Ones, Repeat;
    OnesConcat(Repeat(false, z), Repeat(true, k));
    OnesRepeat(false, z);
    OnesRepeat(true, k);
  }

  lemma StepsAcrossBoundary(z: nat, k: nat)
    requires k >= 1
    ensures FirstDescent(Repeat(false, z) + Repeat(true, k) + [false]) >= 0
    ensures Successor(Repeat(false, z) + Repeat(true, k) + [false])
              == Repeat(true, k - 1) + Repeat(false, z + 1) + [true]
  {
    hide FirstDescent, SortedDown, Ones;
    var v := Repeat(false, z) + Repeat(true, k) + [false];
    BoundaryDescent(z, k);
    assert v[..z + k - 1] == Repeat(false, z) + Repeat(true, k - 1);
    BoundarySorted(z, k - 1);
    assert v[z + k + 1..] == [];
    assert Repeat(false, z) + [false] == Repeat(false, z + 1);
  }

  // ---- the reference enumeration -------------------------------------------

  function Factorial(n: nat): (f: nat)
    ensures f >= 1
  {
    if n == 0 then 1 else n * Factorial(n - 1)
  }

  function Choose(n: nat, k: nat): nat {
    if k > n then 0 else if n == 0 then 1
    else Choose(n - 1, k) + (if k == 0 then 0 else Choose(n - 1, k - 1))
  }

  /** The i-th n-vector with k ones: those with the top cell clear come first. */
  function Unrank(n: nat, k: nat, i: nat): (v: seq<Bit>)
    requires i < Choose(n, k)
  {
    if n == 0 then []
    else if i < Choose(n - 1, k) then Unrank(n - 1, k, i) + [false]
    else Unrank(n - 1, k - 1, i - Choose(n - 1, k)) + [true]
  }

  lemma {:induction false} ChooseZero(n: nat)
    ensures Choose(n, 0) == 1
  {
    if n > 0 { ChooseZero(n - 1); }
  }

  /** Choose is the binomial coefficient n! / (k! (n-k)!). */
  lemma {:induction false} ChooseFactorial(n: nat, k: nat)
    requires k <= n
    ensures Choose(n, k) * (Factorial(k) * Factorial(n - k)) == Factorial(n)
  {
    if k == 0 {
      ChooseZero(n);
    } else if k == n {
      ChooseAll(n);
    } else {
      ChooseFactorial(n - 1, k);
      ChooseFactorial(n - 1, k - 1);
      FactorialStep(n);
      FactorialStep(k);
      FactorialStep(n - k);
      ChooseCases(n, k);
      hide Choose, Factorial;
      PascalArithmetic(Choose(n - 1, k), Choose(n - 1, k - 1), k, n - k,
                       Factorial(k - 1), Factorial(n - 1 - k), Factorial(n - 1));
    }
  }

  lemma {:induction false} ChooseAll(n: nat)
    ensures Choose(n, n) == 1
  {
    if n > 0 {
      ChooseAll(n - 1);
      ChooseBase(n - 1, n);
    }
  }

  lemma FactorialStep(n: nat)
    requires n > 0
    ensures Factorial(n) == n * Factorial(n - 1)
  {
  }

  lemma PascalArithmetic(a: int, b: int, k: int, m: int, fk: int, fm: int, f: int)
    requires a * ((k * fk) * fm) == f && b * (fk * (m * fm)) == f
    ensures (a + b) * ((k * fk) * (m * fm)) == (k + m) * f
  {
    var x := k * fk;
    assert x * (m * fm) == m * (x * fm);
    assert a * (m * (x * fm)) == m * (a * (x * fm));
    var y := m * fm;
    assert x * y == k * (fk * y);
    assert b * (k * (fk * y)) == k * (b * (fk * y));
  }

  lemma OnesAppend(v: seq<Bit>, b: Bit)
    ensures Ones(v + [b]) == Ones(v) + (if b then 1 else 0)
  {
    assert (v + [b])[..|v|] == v;
  }

  /** One unfolding of the reference. */
  lemma UnrankCases(n: nat, k: nat, i: nat)
    requires n > 0 && i < Choose(n, k)
    ensures i < Choose(n - 1, k) ==> Unrank(n, k, i) == Unrank(n - 1, k, i) + [false]
    ensures i >= Choose(n - 1, k) ==>
              && k > 0 && i - Choose(n - 1, k) < Choose(n - 1, k - 1)
              && Unrank(n, k, i) == Unrank(n - 1, k - 1, i - Choose(n - 1, k)) + [true]
  {
  }

  lemma ChooseCases(n: nat, k: nat)
    requires n > 0
    ensures Choose(n, k) == Choose(n - 1, k) + (if k == 0 then 0 else Choose(n - 1, k - 1))
  {
  }

  lemma ChooseBase(n: nat, k: nat)
    ensures Choose(n, k) > 0 ==> k <= n
    ensures n == 0 ==> Choose(n, k) <= 1
  {
  }

  lemma UnrankNothing(k: nat, i: nat)
    requires i < Choose(0, k)
    ensures Unrank(0, k, i) == [] && k == 0 && Ones([]) == 0
  {
  }

  /** Only n-vectors with k ones are listed. */
  lemma {:induction false} UnrankSound(n: nat, k: nat, i: nat)
    requires i < Choose(n, k)
    ensures |Unrank(n, k, i)| == n && Ones(Unrank(n, k, i)) == k
  {
    hide Choose, Unrank, Ones;
    if n == 0 {
      UnrankNothing(k, i);
    } else {
      UnrankCases(n, k, i);
      var low := Choose(n - 1, k);
      if i < low {
        UnrankSound(n - 1, k, i);
        OnesAppend(Unrank(n - 1, k, i), false);
      } else {
        UnrankSound(n - 1, k - 1, i - low);
        OnesAppend(Unrank(n - 1, k - 1, i - low), true);
      }
    }
  }

  lemma RepeatGrows(zeros: nat, ones: nat)
    ensures zeros > 0 ==>
              Repeat(true, ones) + Repeat(false, zeros - 1) + [false] == Repeat(true, ones) + Repeat(false, zeros)
    ensures ones > 0 ==>
              Repeat(false, zeros) + Repeat(true, ones - 1) + [true] == Repeat(false, zeros) + Repeat(true, ones)
    ensures zeros == 0 && ones > 0 ==>
              Repeat(true, ones - 1) + Repeat(false, 0) + [true] == Repeat(true, ones) + Repeat(false, 0)
    ensures ones == 0 && zeros > 0 ==>
              Repeat(false, zeros - 1) + Repeat(true, 0) + [false] == Repeat(false, zeros) + Repeat(true, 0)
  {
  }

  lemma {:induction false} UnrankEnds(n: nat, k: nat)
    requires k <= n
    ensures Choose(n, k) >= 1
    ensures Unrank(n, k, 0) == Repeat(true, k) + Repeat(false, n - k)
    ensures Unrank(n, k, Choose(n, k) - 1) == Repeat(false, n - k) + Repeat(true, k)
  {
    if n > 0 {
      hide Choose, Unrank;
      ChooseBase(n - 1, k);
      if k < n { UnrankEnds(n - 1, k); }
      if k > 0 { UnrankEnds(n - 1, k - 1); }
      UnrankCases(n, k, 0);
      UnrankCases(n, k, Choose(n, k) - 1);
      hide Repeat;
      RepeatGrows(n - k, k);
    }
  }

  /** Consecutive entries are one successful step apart. */
  lemma {:induction false} UnrankStep(n: nat, k: nat, i: nat)
    requires i + 1 < Choose(n, k)
    ensures FirstDescent(Unrank(n, k, i)) >= 0
    ensures Successor(Unrank(n, k, i)) == Unrank(n, k, i + 1)
  {
    hide *;
    ChooseBase(n, k);
    UnrankCases(n, k, i);
    UnrankCases(n, k, i + 1);
    var low := Choose(n - 1, k);
    if i + 1 < low {
      UnrankStep(n - 1, k, i);
      StepsUnderSuffix(Unrank(n - 1, k, i), false);
    } else if i >= low {
      UnrankStep(n - 1, k - 1, i - low);
      StepsUnderSuffix(Unrank(n - 1, k - 1, i - low), true);
    } else {
      ChooseBase(n - 1, k);
      UnrankEnds(n - 1, k);
      UnrankEnds(n - 1, k - 1);
      StepsAcrossBoundary(n - 1 - k, k);
      assert Repeat(false, n - 1 - (k - 1)) == Repeat(false, n - 1 - k + 1);
    }
  }

  /** Every vector with k ones is listed. */
  lemma {:induction false} UnrankComplete(v: seq<Bit>) returns (i: nat)
    ensures i < Choose(|v|, Ones(v)) && Unrank(|v|, Ones(v), i) == v
  {
    var n, k := |v|, Ones(v);
    if n == 0 {
      i := 0;
    } else {
      var p, b := v[..n - 1], v[n - 1];
      assert p + [b] == v;
      hide Choose, Unrank, Ones;
      OnesAppend(p, b);
      i := UnrankComplete(p);
      ChooseCases(n, k);
      if b { i := i + Choose(n - 1, k); }
      UnrankCases(n, k, i);
    }
  }

  lemma {:induction false} ValBound(v: seq<Bit>)
    ensures Val(v) < Pow2(|v|)
  {
    if v != [] { ValBound(v[..|v| - 1]); }
  }

  lemma ValAppend(v: seq<Bit>, b: Bit)
    ensures Val(v + [b]) == Val(v) + (if b then Pow2(|v|) else 0)
  {
    assert (v + [b])[..|v|] == v;
  }

  /** The listing is in strictly increasing binary value, so nothing repeats. */
  lemma {:induction false} UnrankIncreasing(n: nat, k: nat, i: nat, j: nat)
    requires i < j < Choose(n, k)
    ensures Val(Unrank(n, k, i)) < Val(Unrank(n, k, j))
  {
    hide *;
    ChooseBase(n, k);
    UnrankCases(n, k, i);
    UnrankCases(n, k, j);
    var low := Choose(n - 1, k);
    if j < low {
      UnrankIncreasing(n - 1, k, i, j);
      ValAppend(Unrank(n - 1, k, i), false);
      ValAppend(Unrank(n - 1, k, j), false);
    } else {
      UnrankSound(n - 1, k - 1, j - low);
      ValAppend(Unrank(n - 1, k - 1, j - low), true);
      if i < low {
        UnrankSound(n - 1, k, i);
        ValAppend(Unrank(n - 1, k, i), false);
        ValBound(Unrank(n - 1, k, i));
      } else {
        UnrankIncreasing(n - 1, k - 1, i - low, j - low);
        UnrankSound(n - 1, k - 1, i - low);
        ValAppend(Unrank(n - 1, k - 1, i - low), true);
      }
    }
  }

  // ---- what one step means -------------------------------------------------

  /** A successful step keeps the number of ones and moves to the least larger value. */
  lemma SuccessorIsLeast(v: seq<Bit>, u: seq<Bit>)
    requires FirstDescent(v) >= 0
    ensures Ones(Successor(v)) == Ones(v) && Val(v) < Val(Successor(v))
    ensures |u| == |v| && Ones(u) == Ones(v) && Val(u) > Val(v) ==> Val(u) >= Val(Successor(v))
  {
    hide *;
    var n, k := |v|, Ones(v);
    var i := UnrankComplete(v);
    if i + 1 == Choose(n, k) {
      UnrankEnds(n, k);
      AscendingHasNoDescent(n - k, k);
      assert false;
    }
    UnrankStep(n, k, i);
    UnrankSound(n, k, i + 1);
    UnrankIncreasing(n, k, i, i + 1);
    if |u| == n && Ones(u) == k && Val(u) > Val(v) {
      var j := UnrankComplete(u);
      if j < i { UnrankIncreasing(n, k, j, i); }
      if j > i + 1 { UnrankIncreasing(n, k, i + 1, j); }
    }
  }

  /** A step fails exactly at the largest vector with that many ones. */
  lemma StuckIffLargest(v: seq<Bit>)
    ensures FirstDescent(v) == -1 <==> forall u: seq<Bit> :: |u| == |v| && Ones(u) == Ones(v) ==> Val(u) <= Val(v)
  {
    hide Choose, Unrank, Successor, Ones, Val;
    var n, k := |v|, Ones(v);
    if FirstDescent(v) == -1 {
      NoDescentIsAscending(v);
      UnrankEnds(n, k);
      forall u: seq<Bit> | |u| == n && Ones(u) == k
        ensures Val(u) <= Val(v)
      {
        var j := UnrankComplete(u);
        if j < Choose(n, k) - 1 { UnrankIncreasing(n, k, j, Choose(n, k) - 1); }
      }
    } else {
      SuccessorIsLeast(v, v);
      assert Val(Successor(v)) > Val(v);
    }
  }

  // ---- the in-place code ---------------------------------------------------

  /** std::sort over the first hi cells with std::greater, by its contract. */
  method SortDescending(vec: array<Bit>, hi: nat)
    requires hi <= vec.Length
    modifies vec
    ensures vec[..] == SortedDown(old(vec[..hi])) + old(vec[hi..])
  {
    ghost var before := vec[..];
    var ones: nat := 0;
    for j := 0 to hi
      invariant vec[..] == before
      invariant ones == Ones(before[..j])
    {
      assert before[..j + 1][..j] == before[..j];
      if vec[j] { ones := ones + 1; }
    }
    forall j | 0 <= j < hi {
      vec[j] := j < ones;
    }
    assert vec[..hi] == SortedDown(before[..hi]);
    assert vec[..] == vec[..hi] + vec[hi..];
  }

  method NextCombination(vec: array<Bit>, count: nat) returns (more: bool)
    requires count == vec.Length >= 1
    modifies vec
    ensures more <==> FirstDescent(old(vec[..])) >= 0
    ensures vec[..] == if more then Successor(old(vec[..])) else old(vec[..])
  {
    hide FirstDescent, SortedDown, Ones;
    ghost var before := vec[..];
    var i := 0;
    while i < count - 1
      invariant 0 <= i <= count - 1
      invariant vec[..] == before
      invariant forall j :: 0 <= j < i ==> !IsDescent(before, j)
    {
      if vec[i] && !vec[i + 1] {
        FirstDescentIsFirst(before, i);
        vec[i], vec[i + 1] := vec[i + 1], vec[i];
        assert vec[..i] == before[..i];
        assert vec[i..] == [false, true] + before[i + 2..];
        SortDescending(vec, i);
        return true;
      }
      i := i + 1;
    }
    return false;
  }

  /** The positions a vector selects, in increasing order: what func receives. */
  function Selected(v: seq<Bit>): (s: seq<nat>)
    ensures |s| == Ones(v)
    ensures forall p: nat :: p in s <==> p < |v| && v[p]
  {
    if v == [] then []
    else
      var rest := Selected(v[..|v| - 1]);
      if v[|v| - 1] then rest + [|v| - 1] else rest
  }

  /** In increasing order, and below n. */
  predicate Increasing(call: seq<nat>, n: nat) {
    (forall a :: 0 <= a < |call| ==> call[a] < n) && forall a, b :: 0 <= a < b < |call| ==> call[a] < call[b]
  }

  lemma {:induction false} SelectedIncreasing(v: seq<Bit>)
    ensures Increasing(Selected(v), |v|)
  {
    if v != [] {
      var front := Selected(v[..|v| - 1]);
      SelectedIncreasing(v[..|v| - 1]);
      assert forall a :: 0 <= a < |front| ==> front[a] in front;
    }
  }

  /** The inner loop: the selected positions are pushed in order. */
  method Collect(vec: array<Bit>, count: nat) returns (combination: seq<nat>)
    requires count == vec.Length
    ensures combination == Selected(vec[..])
  {
    combination := [];
    var i := 0;
    while i < count
      invariant 0 <= i <= count
      invariant combination == Selected(vec[..i])
    {
      assert vec[..i + 1][..i] == vec[..i];
      if vec[i] { combination := combination + [i]; }
      i := i + 1;
    }
    assert vec[..count] == vec[..];
  }

  /** After each entry of the listing there is a step to the next one, and none after the last. */
  lemma WhatComesNext(n: nat, k: nat, at: nat)
    requires k <= n && at < Choose(n, k)
    ensures FirstDescent(Unrank(n, k, at)) >= 0 <==> at + 1 < Choose(n, k)
    ensures at + 1 < Choose(n, k) ==> Successor(Unrank(n, k, at)) == Unrank(n, k, at + 1)
  {
    hide *;
    if at + 1 < Choose(n, k) {
      UnrankStep(n, k, at);
    } else {
      UnrankEnds(n, k);
      AscendingHasNoDescent(n - k, k);
    }
  }

  /** The calls for_combination makes, in order, one selection of positions a call. */
  method ForCombination(count: nat, cmbCount: nat) returns (ok: bool, calls: seq<seq<nat>>)
    requires count >= 1
    ensures ok <==> cmbCount <= count
    ensures |calls| == Choose(count, cmbCount)
    ensures forall i :: 0 <= i < |calls| ==> calls[i] == Selected(Unrank(count, cmbCount, i))
    ensures forall i :: 0 <= i < |calls| ==> Increasing(calls[i], count)
  {
    hide Choose, Unrank, Successor, FirstDescent, Selected, SortedDown, Increasing;
    ghost var total := Choose(count, cmbCount);
    ChooseBase(count, cmbCount);
    calls := [];
    if count < cmbCount {
      return false, calls;
    }
    UnrankEnds(count, cmbCount);
    var vec := new Bit[count](i => i < cmbCount);
    assert vec[..] == Unrank(count, cmbCount, 0);
    var more := true;
    while more
      invariant more ==> |calls| < total && vec[..] == Unrank(count, cmbCount, |calls|)
      invariant !more ==> |calls| == total
      invariant forall i :: 0 <= i < |calls| <= total ==> calls[i] == Selected(Unrank(count, cmbCount, i))
      invariant forall i :: 0 <= i < |calls| ==> Increasing(calls[i], count)
      decreases total - |calls|, more
    {
      var combination := Collect(vec, count);
      SelectedIncreasing(vec[..]);
      calls := calls + [combination];
      WhatComesNext(count, cmbCount, |calls| - 1);
      more := NextCombination(vec, count);
    }
    return true, calls;
  }

  function Members(call: seq<nat>): (s: set<nat>)
    ensures forall p :: p in s <==> p in call
  {
    set p | p in call
  }

  function Indicator(s: set<nat>, n: nat): (v: seq<Bit>)
    ensures |v| == n && forall i :: 0 <= i < n ==> (v[i] <==> i in s)
  {
    seq(n, i => i in s)
  }

  lemma IndicatorSplits(s: set<nat>, n: nat)
    requires n > 0
    ensures Indicator(s, n) == Indicator(s - {n - 1}, n - 1) + [n - 1 in s]
  {
  }

  lemma {:induction false} IndicatorOnes(s: set<nat>, n: nat)
    requires forall p :: p in s ==> p < n
    ensures Ones(Indicator(s, n)) == |s|
  {
    if n == 0 {
      assert s == {};
    } else {
      var t := s - {n - 1};
      IndicatorOnes(t, n - 1);
      IndicatorSplits(s, n);
      hide Indicator, Ones;
      OnesAppend(Indicator(t, n - 1), n - 1 in s);
      if n - 1 in s { assert s == t + {n - 1}; } else { assert s == t; }
    }
  }

  lemma DifferingPosition(a: seq<Bit>, b: seq<Bit>) returns (p: nat)
    requires |a| == |b| && a != b
    ensures p < |a| && a[p] != b[p]
  {
    p :| p < |a| && a[p] != b[p];
  }

  /** Each k-subset of the n positions is the argument of exactly one call. */
  lemma EverySubsetExactlyOnce(n: nat, k: nat, s: set<nat>, calls: seq<seq<nat>>)
    requires |calls| == Choose(n, k)
    requires forall i :: 0 <= i < |calls| ==> calls[i] == Selected(Unrank(n, k, i))
    requires |s| == k && forall p :: p in s ==> p < n
    ensures exists i :: 0 <= i < |calls| && Members(calls[i]) == s
    ensures forall i, j :: 0 <= i < j < |calls| ==> Members(calls[i]) != Members(calls[j])
  {
    hide *;
    var v := Indicator(s, n);
    IndicatorOnes(s, n);
    var at := UnrankComplete(v);
    assert calls[at] == Selected(v);
    assert Members(calls[at]) == s;
    forall i, j | 0 <= i < j < |calls|
      ensures Members(calls[i]) != Members(calls[j])
    {
      UnrankIncreasing(n, k, i, j);
      UnrankSound(n, k, i);
      UnrankSound(n, k, j);
      var a, b := Unrank(n, k, i), Unrank(n, k, j);
      var p := DifferingPosition(a, b);
      assert p in calls[i] <==> a[p];
      assert p in calls[j] <==> b[p];
      assert p in Members(calls[i]) <==> a[p];
      assert p in Members(calls[j]) <==> b[p];
    }
  }
}
