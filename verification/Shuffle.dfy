/**
 The seeded shuffle of the Alexa queue (internal/alexa/shuffle.go), in 64-bit arithmetic.
 */
module Shuffle {

  const GAMMA: bv64 := 0x9e3779b97f4a7c15

  // The five stages of the splitmix64 output step, each with its inverse.

  function Xor30(z: bv64): bv64 { z ^ (z >> 30) }
  function UnXor30(y: bv64): bv64 { y ^ (y >> 30) ^ (y >> 60) }

  function Xor27(z: bv64): bv64 { z ^ (z >> 27) }
  function UnXor27(y: bv64): bv64 { y ^ (y >> 27) ^ (y >> 54) }

  function Xor31(z: bv64): bv64 { z ^ (z >> 31) }
  function UnXor31(y: bv64): bv64 { y ^ (y >> 31) ^ (y >> 62) }

  function MulA(z: bv64): bv64 { z * 0xbf58476d1ce4e5b9 }
  function UnMulA(y: bv64): bv64 { y * 0x96de1b173f119089 }

  function MulB(z: bv64): bv64 { z * 0x94d049bb133111eb }
  function UnMulB(y: bv64): bv64 { y * 0x319642b2d24d8ec3 }

  lemma Xor30Inverse(z: bv64)
    ensures UnXor30(Xor30(z)) == z && Xor30(UnXor30(z)) == z
  {
    Xor30Forth(z);
    Xor30Back(z);
  }

  lemma Xor30Forth(z: bv64)
    ensures UnXor30(Xor30(z)) == z
  {
    hide UnXor30;
    Xor30Undone(z);
  }

  lemma Xor30Back(z: bv64)
    ensures Xor30(UnXor30(z)) == z
  {
    hide Xor30;
    Xor30Redone(z);
  }

  lemma Xor30Undone(z: bv64)
    ensures UnXor30(z ^ (z >> 30)) == z
  {
  }

  lemma Xor30Redone(z: bv64)
    ensures Xor30(z ^ (z >> 30) ^ (z >> 60)) == z
  {
  }

  lemma Xor27Inverse(z: bv64)
    ensures UnXor27(Xor27(z)) == z && Xor27(UnXor27(z)) == z
  {
    Xor27Forth(z);
    Xor27Back(z);
  }

  lemma Xor27Forth(z: bv64)
    ensures UnXor27(Xor27(z)) == z
  {
    hide UnXor27;
    Xor27Undone(z);
  }

  lemma Xor27Back(z: bv64)
    ensures Xor27(UnXor27(z)) == z
  {
    hide Xor27;
    Xor27Redone(z);
  }

  lemma Xor27Undone(z: bv64)
    ensures UnXor27(z ^ (z >> 27)) == z
  {
  }

  lemma Xor27Redone(z: bv64)
    ensures Xor27(z ^ (z >> 27) ^ (z >> 54)) == z
  {
  }

  lemma Xor31Inverse(z: bv64)
    ensures UnXor31(Xor31(z)) == z && Xor31(UnXor31(z)) == z
  {
    Xor31Forth(z);
    Xor31Back(z);
  }

  lemma Xor31Forth(z: bv64)
    ensures UnXor31(Xor31(z)) == z
  {
    hide UnXor31;
    Xor31Undone(z);
  }

  lemma Xor31Back(z: bv64)
    ensures Xor31(UnXor31(z)) == z
  {
    hide Xor31;
    Xor31Redone(z);
  }

  lemma Xor31Undone(z: bv64)
    ensures UnXor31(z ^ (z >> 31)) == z
  {
  }

  lemma Xor31Redone(z: bv64)
    ensures Xor31(z ^ (z >> 31) ^ (z >> 62)) == z
  {
  }

  lemma MulAInverse(z: bv64)
    ensures UnMulA(MulA(z)) == z && MulA(UnMulA(z)) == z
  {
    MulAForth(z);
    MulABack(z);
  }

  lemma MulAForth(z: bv64)
    ensures UnMulA(MulA(z)) == z
  {
    hide UnMulA;
    MulAUndone(z);
  }

  lemma MulABack(z: bv64)
    ensures MulA(UnMulA(z)) == z
  {
    hide MulA;
    MulARedone(z);
  }

  lemma MulAUndone(z: bv64)
    ensures UnMulA(z * 0xbf58476d1ce4e5b9) == z
  {
  }

  lemma MulARedone(z: bv64)
    ensures MulA(z * 0x96de1b173f119089) == z
  {
  }

  lemma MulBInverse(z: bv64)
    ensures UnMulB(MulB(z)) == z && MulB(UnMulB(z)) == z
  {
    MulBForth(z);
    MulBBack(z);
  }

  lemma MulBForth(z: bv64)
    ensures UnMulB(MulB(z)) == z
  {
    hide UnMulB;
    MulBUndone(z);
  }

  lemma MulBBack(z: bv64)
    ensures MulB(UnMulB(z)) == z
  {
    hide MulB;
    MulBRedone(z);
  }

  lemma MulBUndone(z: bv64)
    ensures UnMulB(z * 0x94d049bb133111eb) == z
  {
  }

  lemma MulBRedone(z: bv64)
    ensures MulB(z * 0x319642b2d24d8ec3) == z
  {
  }

  /** The output step of splitmix64. */
  function Mix(s: bv64): bv64 { Xor31(MulB(Xor27(MulA(Xor30(s))))) }

  function Unmix(v: bv64): bv64 { UnXor30(UnMulA(UnXor27(UnMulB(UnXor31(v))))) }

  /** The output step is a bijection of 64-bit words. */
  lemma MixIsBijective(s: bv64)
    ensures Unmix(Mix(s)) == s && Mix(Unmix(s)) == s
  {
    hide Xor30, UnXor30, Xor27, UnXor27, Xor31, UnXor31, MulA, UnMulA, MulB, UnMulB;
    Xor30Inverse(s);
    MulAInverse(Xor30(s));
    Xor27Inverse(MulA(Xor30(s)));
    MulBInverse(Xor27(MulA(Xor30(s))));
    Xor31Inverse(MulB(Xor27(MulA(Xor30(s)))));
    Xor31Inverse(s);
    MulBInverse(UnXor31(s));
    Xor27Inverse(UnMulB(UnXor31(s)));
    MulAInverse(UnXor27(UnMulB(UnXor31(s))));
    Xor30Inverse(UnMulA(UnXor27(UnMulB(UnXor31(s)))));
  }

  /** The generator's next state. */
  function Stepped(state: bv64): bv64 { state + GAMMA }

  class Splitmix64 {
    var state: bv64

    constructor (seed: bv64)
      ensures state == seed
    {
      state := seed;
    }

    method Next() returns (v: bv64)
      modifies this
      ensures state == Stepped(old(state)) && v == Mix(state)
    {
      hide Xor30, Xor27, Xor31, MulA, MulB, Stepped;
      state := Stepped(state);
      var z := state;
      z := MulA(Xor30(z));
      z := MulB(Xor27(z));
      v := Xor31(z);
    }
  }

  // ---- Fisher-Yates ------------------------------------------------------------------------------

  function Draw(v: bv64, n: nat): (j: nat)
    requires n > 0
    ensures j < n
  {
    (v as int) % n
  }

  function Swap<T>(s: seq<T>, i: nat, j: nat): (r: seq<T>)
    requires i < |s| && j < |s|
    ensures |r| == |s|
  {
    s[i := s[j]][j := s[i]]
  }

  /** What is left to do when the loop stands at index i with the given generator state. */
  function ShuffleFrom<T>(s: seq<T>, state: bv64, i: int): (r: seq<T>)
    requires i < |s|
    ensures |r| == |s|
    decreases i
  {
    if i <= 0 then s
    else ShuffleFrom(Swap(s, i, Draw(Mix(Stepped(state)), i + 1)), Stepped(state), i - 1)
  }

  function Shuffled<T>(s: seq<T>, seed: bv64): (r: seq<T>)
    ensures |r| == |s|
  {
    ShuffleFrom(s, seed, |s| - 1)
  }

  method ShuffleInPlace<T>(a: array<T>, seed: bv64)
    modifies a
    ensures a[..] == Shuffled(old(a[..]), seed)
  {
    hide Mix, Stepped, Draw;
    var r := new Splitmix64(seed);
    var i := a.Length - 1;
    while i > 0
      invariant -1 <= i < a.Length
      invariant ShuffleFrom(a[..], r.state, i) == Shuffled(old(a[..]), seed)
    {
      ghost var before := a[..];
      var v := r.Next();
      var j := Draw(v, i + 1);
      a[i], a[j] := a[j], a[i];
      assert a[..] == Swap(before, i, j);
      i := i - 1;
    }
  }

  lemma {:induction false} SwapPermutes<T>(s: seq<T>, i: nat, j: nat)
    requires i < |s| && j < |s|
    ensures multiset(Swap(s, i, j)) == multiset(s)
  {
  }

  lemma {:induction false} ShuffleFromPermutes<T>(s: seq<T>, state: bv64, i: int)
    requires i < |s|
    ensures multiset(ShuffleFrom(s, state, i)) == multiset(s)
    decreases i
  {
    hide Mix, Stepped, Draw, Swap;
    if i > 0 {
      var j := Draw(Mix(Stepped(state)), i + 1);
      SwapPermutes(s, i, j);
      ShuffleFromPermutes(Swap(s, i, j), Stepped(state), i - 1);
    }
  }

  /** The members of s in the order the positions in p name them. */
  function Pick<T>(s: seq<T>, p: seq<nat>): (r: seq<T>)
    requires forall k :: k in p ==> k < |s|
  {
    seq(|p|, k requires 0 <= k < |p| => assert p[k] in p; s[p[k]])
  }

  function Positions(n: nat): (p: seq<nat>)
    ensures |p| == n && forall k :: 0 <= k < n ==> p[k] == k
  {
    seq(n, k => k)
  }

  /** The order a shuffle produces depends on the number of members and the seed alone, never on what
      the members are: it is the shuffle of the positions, and each position comes up once. */
  lemma ShuffleIsPositional<T>(s: seq<T>, seed: bv64)
    ensures var order: seq<nat> := Shuffled<nat>(Positions(|s|), seed);
            && multiset(order) == multiset(Positions(|s|))
            && (forall k :: k in order ==> k < |s|)
            && Shuffled(s, seed) == Pick(s, order)
  {
    hide Mix, Stepped, Draw;
    var p: seq<nat> := Positions(|s|);
    ShuffleFromPermutes<nat>(p, seed, |s| - 1);
    assert Pick(s, p) == s;
    PickCommutes(s, p, seed, |s| - 1);
  }

  lemma {:induction false} PickCommutes<T>(s: seq<T>, p: seq<nat>, state: bv64, i: int)
    requires (forall k :: k in p ==> k < |s|) && i < |p|
    ensures var order: seq<nat> := ShuffleFrom<nat>(p, state, i);
            (forall k :: k in order ==> k < |s|) && ShuffleFrom(Pick(s, p), state, i) == Pick(s, order)
    decreases i
  {
    hide Mix, Stepped, Draw;
    if i > 0 {
      var j := Draw(Mix(Stepped(state)), i + 1);
      var q: seq<nat> := Swap<nat>(p, i, j);
      assert forall k :: k in q ==> k in p;
      assert Swap(Pick(s, p), i, j) == Pick(s, q);
      PickCommutes(s, q, Stepped(state), i - 1);
    }
  }

  // ---- Seeds -------------------------------------------------------------------------------------

  const FNV_OFFSET: bv64 := 1469598103934665603

  function Widen(b: bv8): bv64 { b as bv64 }

  function Xor(h: bv64, w: bv64): bv64 { h ^ w }

  function MulPrime(h: bv64): bv64 { h * 1099511628211 }

  function UnMulPrime(h: bv64): bv64 { h * 0xce965057aff6957b }

  /** One step of the FNV-1a hash. */
  function FnvStep(h: bv64, b: bv8): bv64 { MulPrime(Xor(h, Widen(b))) }

  function Fnv(h: bv64, src: seq<bv8>): bv64 {
    if |src| == 0 then h else FnvStep(Fnv(h, src[..|src| - 1]), src[|src| - 1])
  }

  /** The first output of a generator seeded with the hash of src. */
  function FirstOutput(src: seq<bv8>): bv64 { Mix(Stepped(Fnv(FNV_OFFSET, src))) }

  function Bump(v: bv64): bv64 { if v == 0 then 1 else v }

  function SeedOf(src: seq<bv8>): bv64 { Bump(FirstOutput(src)) }

  method NewSeed(src: seq<bv8>) returns (v: bv64)
    ensures v == SeedOf(src) && v != 0
  {
    hide Mix, Stepped, FnvStep;
    var h := HashOf(src);
    var s := new Splitmix64(h);
    v := s.Next();
    if v == 0 {
      v := 1;
    }
  }

  method HashOf(src: seq<bv8>) returns (h: bv64)
    ensures h == Fnv(FNV_OFFSET, src)
  {
    hide FnvStep;
    h := FNV_OFFSET;
    for i := 0 to |src|
      invariant h == Fnv(FNV_OFFSET, src[..i])
    {
      assert src[..i + 1][..i] == src[..i];
      h := FnvStep(h, src[i]);
    }
    assert src[..|src|] == src;
  }

  lemma MulPrimeUndone(h: bv64)
    ensures UnMulPrime(h * 1099511628211) == h
  {
  }

  lemma MulPrimeInverse(h: bv64)
    ensures UnMulPrime(MulPrime(h)) == h
  {
    hide UnMulPrime;
    MulPrimeUndone(h);
  }

  lemma XorInverse(h: bv64, w: bv64)
    ensures Xor(Xor(h, w), w) == h && Xor(Xor(h, w), h) == w
  {
  }

  lemma WidenInjective(a: bv8, b: bv8)
    ensures Widen(a) == Widen(b) ==> a == b
  {
  }

  /** A step loses nothing of the state, and nothing of the byte. */
  lemma FnvStepInjective(g: bv64, h: bv64, a: bv8, b: bv8)
    ensures FnvStep(g, a) == FnvStep(h, a) ==> g == h
    ensures FnvStep(h, a) == FnvStep(h, b) ==> a == b
  {
    hide MulPrime, UnMulPrime, Xor, Widen;
    MulPrimeInverse(Xor(g, Widen(a)));
    MulPrimeInverse(Xor(h, Widen(a)));
    MulPrimeInverse(Xor(h, Widen(b)));
    XorInverse(g, Widen(a));
    XorInverse(h, Widen(a));
    XorInverse(h, Widen(b));
    WidenInjective(a, b);
  }

  function Unstepped(h: bv64): bv64 { h - GAMMA }

  lemma SteppedUndone(h: bv64)
    ensures Unstepped(h + 0x9e3779b97f4a7c15) == h
  {
  }

  lemma SteppedInverse(h: bv64)
    ensures Unstepped(Stepped(h)) == h
  {
    hide Unstepped;
    SteppedUndone(h);
  }

  lemma BumpCollides(x: bv64, y: bv64)
    requires x != y
    ensures Bump(x) == Bump(y) <==> (x == 0 && y == 1) || (x == 1 && y == 0)
  {
  }

  /** Sources of equal length that differ in exactly one byte hash differently. */
  lemma {:induction false} OneByteChangesHash(h: bv64, s: seq<bv8>, t: seq<bv8>, i: nat)
    requires |s| == |t| && i < |s| && s[i] != t[i]
    requires forall k :: 0 <= k < |s| && k != i ==> s[k] == t[k]
    ensures Fnv(h, s) != Fnv(h, t)
  {
    hide FnvStep;
    var n := |s| - 1;
    if i == n {
      assert s[..n] == t[..n];
      FnvStepInjective(Fnv(h, s[..n]), Fnv(h, s[..n]), s[n], t[n]);
    } else {
      OneByteChangesHash(h, s[..n], t[..n], i);
      FnvStepInjective(Fnv(h, s[..n]), Fnv(h, t[..n]), s[n], s[n]);
    }
  }

  /** Such sources share a seed exactly when one of them draws 0 and the other draws 1: the bump of 0
      to 1 is the only collision. */
  lemma OneByteChangesSeed(s: seq<bv8>, t: seq<bv8>, i: nat)
    requires |s| == |t| && i < |s| && s[i] != t[i]
    requires forall k :: 0 <= k < |s| && k != i ==> s[k] == t[k]
    ensures SeedOf(s) == SeedOf(t) <==>
            (FirstOutput(s) == 0 && FirstOutput(t) == 1) || (FirstOutput(s) == 1 && FirstOutput(t) == 0)
  {
    hide Mix, Unmix, Fnv, Stepped, Unstepped, Bump;
    OneByteChangesHash(FNV_OFFSET, s, t, i);
    var g, h := Fnv(FNV_OFFSET, s), Fnv(FNV_OFFSET, t);
    SteppedInverse(g);
    SteppedInverse(h);
    MixIsBijective(Stepped(g));
    MixIsBijective(Stepped(h));
    BumpCollides(FirstOutput(s), FirstOutput(t));
  }
}
