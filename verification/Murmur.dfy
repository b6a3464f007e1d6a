/** MurmurHash3 x86_32 as pkg/hash/hash.go computes it, with 32-bit wrap-around arithmetic. Each primitive step
    is a named function beside its inverse; a multiplier's inverse is modulo 2^32. */
module Murmur {

  function MulC1(x: bv32): bv32 { x * 0xcc9e2d51 }
  function DivC1(x: bv32): bv32 { x * 0xdee13bb1 }
  function MulC2(x: bv32): bv32 { x * 0x1b873593 }
  function DivC2(x: bv32): bv32 { x * 0x56ed309b }
  function MulF1(x: bv32): bv32 { x * 0x85ebca6b }
  function DivF1(x: bv32): bv32 { x * 0xa5cb9243 }
  function MulF2(x: bv32): bv32 { x * 0xc2b2ae35 }
  function DivF2(x: bv32): bv32 { x * 0x7ed1b41d }
  function Rotl15(x: bv32): bv32 { x.RotateLeft(15) }
  function Rotr15(x: bv32): bv32 { x.RotateRight(15) }
  function Rotl13(x: bv32): bv32 { x.RotateLeft(13) }
  function Rotr13(x: bv32): bv32 { x.RotateRight(13) }
  function Times5(x: bv32): bv32 { x * 4 + x + 0xe6546b64 }
  function Over5(x: bv32): bv32 { (x - 0xe6546b64) * 0xcccccccd }
  function Shift16(x: bv32): bv32 { x ^ (x >> 16) }
  function Shift13(x: bv32): bv32 { x ^ (x >> 13) }
  function Unshift13(x: bv32): bv32 { x ^ (x >> 13) ^ (x >> 26) }
  function Xor(x: bv32, y: bv32): bv32 { x ^ y }

  /** The little-endian word of four bytes. */
  function Word(b0: bv8, b1: bv8, b2: bv8, b3: bv8): bv32 {
    b0 as bv32 | (b1 as bv32 << 8) | (b2 as bv32 << 16) | (b3 as bv32 << 24)
  }

  function Unword(w: bv32): (bv8, bv8, bv8, bv8) {
    ((w & 0xff) as bv8, ((w >> 8) & 0xff) as bv8, ((w >> 16) & 0xff) as bv8, ((w >> 24) & 0xff) as bv8)
  }

  // Each primitive's inverse in two steps, so that the solver meets every product as one expression: what the
  // function is (`Is`), what the inverse does to that expression (`Undo`), and the two together (`Inverse`).

  lemma MulC1Is(x: bv32) ensures MulC1(x) == x * 0xcc9e2d51 && DivC1(x) == x * 0xdee13bb1 {}
  lemma MulC1Undo(x: bv32) ensures DivC1(x * 0xcc9e2d51) == x && MulC1(x * 0xdee13bb1) == x {}
  lemma MulC1Inverse(x: bv32)
    ensures DivC1(MulC1(x)) == x && MulC1(DivC1(x)) == x
  {
    hide MulC1, DivC1;
    MulC1Is(x);
    MulC1Undo(x);
  }

  lemma MulC2Is(x: bv32) ensures MulC2(x) == x * 0x1b873593 && DivC2(x) == x * 0x56ed309b {}
  lemma MulC2Undo(x: bv32) ensures DivC2(x * 0x1b873593) == x && MulC2(x * 0x56ed309b) == x {}
  lemma MulC2Inverse(x: bv32)
    ensures DivC2(MulC2(x)) == x && MulC2(DivC2(x)) == x
  {
    hide MulC2, DivC2;
    MulC2Is(x);
    MulC2Undo(x);
  }

  lemma MulF1Is(x: bv32) ensures MulF1(x) == x * 0x85ebca6b && DivF1(x) == x * 0xa5cb9243 {}
  lemma MulF1Undo(x: bv32) ensures DivF1(x * 0x85ebca6b) == x && MulF1(x * 0xa5cb9243) == x {}
  lemma MulF1Inverse(x: bv32)
    ensures DivF1(MulF1(x)) == x && MulF1(DivF1(x)) == x
  {
    hide MulF1, DivF1;
    MulF1Is(x);
    MulF1Undo(x);
  }

  lemma MulF2Is(x: bv32) ensures MulF2(x) == x * 0xc2b2ae35 && DivF2(x) == x * 0x7ed1b41d {}
  lemma MulF2Undo(x: bv32) ensures DivF2(x * 0xc2b2ae35) == x && MulF2(x * 0x7ed1b41d) == x {}
  lemma MulF2Inverse(x: bv32)
    ensures DivF2(MulF2(x)) == x && MulF2(DivF2(x)) == x
  {
    hide MulF2, DivF2;
    MulF2Is(x);
    MulF2Undo(x);
  }

  lemma Shift13Is(x: bv32) ensures Shift13(x) == x ^ (x >> 13) && Unshift13(x) == x ^ (x >> 13) ^ (x >> 26) {}
  lemma Shift13Undo(x: bv32) ensures Unshift13(x ^ (x >> 13)) == x && Shift13(x ^ (x >> 13) ^ (x >> 26)) == x {}
  lemma Shift13Inverse(x: bv32)
    ensures Unshift13(Shift13(x)) == x && Shift13(Unshift13(x)) == x
  {
    hide Shift13, Unshift13;
    Shift13Is(x);
    Shift13Undo(x);
  }

  lemma Shift16Is(x: bv32) ensures Shift16(x) == x ^ (x >> 16) {}
  lemma Shift16Undo(x: bv32) ensures Shift16(x ^ (x >> 16)) == x {}
  lemma Shift16Inverse(x: bv32)
    ensures Shift16(Shift16(x)) == x
  {
    hide Shift16;
    Shift16Is(x);
    Shift16Undo(x);
  }

  lemma Rot15Inverse(x: bv32) ensures Rotr15(Rotl15(x)) == x && Rotl15(Rotr15(x)) == x {}
  lemma Rot13Inverse(x: bv32) ensures Rotr13(Rotl13(x)) == x && Rotl13(Rotr13(x)) == x {}
  lemma Times5Inverse(x: bv32) ensures Over5(Times5(x)) == x && Times5(Over5(x)) == x {}
  lemma XorInverse(x: bv32, y: bv32) ensures Xor(Xor(x, y), y) == x && Xor(x, y) == Xor(y, x) {}

  lemma UnwordWord(b0: bv8, b1: bv8, b2: bv8, b3: bv8)
    ensures Unword(Word(b0, b1, b2, b3)) == (b0, b1, b2, b3)
  {}

  lemma WordUnword(w: bv32)
    ensures Word(Unword(w).0, Unword(w).1, Unword(w).2, Unword(w).3) == w
  {}

  function Scramble(k: bv32): bv32 { MulC2(Rotl15(MulC1(k))) }
  function Unscramble(k: bv32): bv32 { DivC1(Rotr15(DivC2(k))) }

  /** One round of the block loop. */
  function Round(h: bv32, k: bv32): bv32 { Times5(Rotl13(Xor(h, Scramble(k)))) }

  /** The state before a round, from the state after it and the block; and the block, from both states. */
  function UnroundState(h': bv32, k: bv32): bv32 { Xor(Rotr13(Over5(h')), Scramble(k)) }
  function UnroundBlock(h': bv32, h: bv32): bv32 { Unscramble(Xor(Rotr13(Over5(h')), h)) }

  /** The finalizer. */
  function Avalanche(h: bv32): bv32 { Shift16(MulF2(Shift13(MulF1(Shift16(h))))) }
  function Unavalanche(h: bv32): bv32 { Shift16(DivF1(Unshift13(DivF2(Shift16(h))))) }

  lemma ScrambleInverse(k: bv32)
    ensures Unscramble(Scramble(k)) == k && Scramble(Unscramble(k)) == k
  {
    hide MulC1, DivC1, MulC2, DivC2, Rotl15, Rotr15;
    MulC2Inverse(Rotl15(MulC1(k)));
    Rot15Inverse(MulC1(k));
    MulC1Inverse(k);
    MulC1Inverse(Rotr15(DivC2(k)));
    Rot15Inverse(DivC2(k));
    MulC2Inverse(k);
  }

  lemma RoundInverse(h: bv32, k: bv32)
    ensures UnroundState(Round(h, k), k) == h && UnroundBlock(Round(h, k), h) == k
  {
    hide Scramble, Unscramble, Times5, Over5, Rotl13, Rotr13, Xor;
    Times5Inverse(Rotl13(Xor(h, Scramble(k))));
    Rot13Inverse(Xor(h, Scramble(k)));
    XorInverse(h, Scramble(k));
    XorInverse(Scramble(k), h);
    ScrambleInverse(k);
  }

  lemma RoundReaches(h': bv32, h: bv32)
    ensures Round(h, UnroundBlock(h', h)) == h'
  {
    hide Scramble, Unscramble, Times5, Over5, Rotl13, Rotr13, Xor;
    var x := Rotr13(Over5(h'));
    ScrambleInverse(Xor(x, h));
    XorInverse(x, h);
    XorInverse(h, Xor(x, h));
    Rot13Inverse(Over5(h'));
    Times5Inverse(h');
  }

  lemma AvalancheInverse(h: bv32)
    ensures Unavalanche(Avalanche(h)) == h && Avalanche(Unavalanche(h)) == h
  {
    hide MulF1, DivF1, MulF2, DivF2, Shift16, Shift13, Unshift13;
    Shift16Inverse(MulF2(Shift13(MulF1(Shift16(h)))));
    MulF2Inverse(Shift13(MulF1(Shift16(h))));
    Shift13Inverse(MulF1(Shift16(h)));
    MulF1Inverse(Shift16(h));
    Shift16Inverse(h);
    Shift16Inverse(DivF1(Unshift13(DivF2(Shift16(h)))));
    MulF1Inverse(Unshift13(DivF2(Shift16(h))));
    Shift13Inverse(DivF2(Shift16(h)));
    MulF2Inverse(Shift16(h));
  }

  function Block(data: seq<bv8>, i: nat): bv32
    requires 4 * i + 4 <= |data|
  {
    Word(data[4 * i], data[4 * i + 1], data[4 * i + 2], data[4 * i + 3])
  }

  /** The state after the first n aligned blocks. */
  function Blocks(data: seq<bv8>, seed: bv32, n: nat): bv32
    requires 4 * n <= |data|
  {
    if n == 0 then seed else Round(Blocks(data, seed, n - 1), Block(data, n - 1))
  }

  /** The at most three bytes after the last block, as one little-endian word. */
  function TailWord(tail: seq<bv8>): bv32
    requires 1 <= |tail| < 4
  {
    Word(tail[0], if |tail| > 1 then tail[1] else 0, if |tail| > 2 then tail[2] else 0, 0)
  }

  function WithTail(h: bv32, tail: seq<bv8>): bv32
    requires |tail| < 4
  {
    if tail == [] then h else Xor(h, Scramble(TailWord(tail)))
  }

  function Low32(n: nat): bv32 {
    (n % 0x1_0000_0000) as bv32
  }

  function Digest(data: seq<bv8>, seed: bv32): bv32 {
    var n := |data| / 4;
    Avalanche(Xor(WithTail(Blocks(data, seed, n), data[4 * n..]), Low32(|data|)))
  }

  /** `Hash`: the block loop, the tail and the finalizer, step by step. */
  method Hash(data: seq<bv8>, seed: bv32) returns (h1: bv32)
    ensures h1 == Digest(data, seed)
  {
    hide Word, MulC1, MulC2, Rotl15, Rotl13, Times5, Xor, Shift16, Shift13, MulF1, MulF2, Low32;
    h1 := seed;
    var nblocks := |data| / 4;
    var p := 0;
    while p < 4 * nblocks
      invariant 0 <= p <= 4 * nblocks && p % 4 == 0
      invariant h1 == Blocks(data, seed, p / 4)
    {
      var k1 := Word(data[p], data[p + 1], data[p + 2], data[p + 3]);
      k1 := MulC1(k1);
      k1 := Rotl15(k1);
      k1 := MulC2(k1);
      h1 := Xor(h1, k1);
      h1 := Rotl13(h1);
      h1 := Times5(h1);
      p := p + 4;
    }
    h1 := HashTail(data[4 * nblocks..], h1);
    h1 := Xor(h1, Low32(|data|));
    h1 := Shift16(h1);
    h1 := MulF1(h1);
    h1 := Shift13(h1);
    h1 := MulF2(h1);
    h1 := Shift16(h1);
  }

  /** The fall-through switch on the tail length. */
  method HashTail(tail: seq<bv8>, h: bv32) returns (h1: bv32)
    requires |tail| < 4
    ensures h1 == WithTail(h, tail)
  {
    hide Word, MulC1, MulC2, Rotl15, Xor, High16, High8;
    h1 := h;
    var k1: bv32 := 0;
    if |tail| >= 3 {
      k1 := Xor(k1, High16(tail[2]));
    }
    if |tail| >= 2 {
      k1 := Xor(k1, High8(tail[1]));
    }
    if |tail| >= 1 {
      XorPacks(tail[0], if |tail| > 1 then tail[1] else 0, if |tail| > 2 then tail[2] else 0);
      k1 := Xor(k1, tail[0] as bv32);
      k1 := MulC1(k1);
      k1 := Rotl15(k1);
      k1 := MulC2(k1);
      h1 := Xor(h1, k1);
    }
  }

  function High16(b: bv8): bv32 { b as bv32 << 16 }
  function High8(b: bv8): bv32 { b as bv32 << 8 }

  lemma XorPacks(b0: bv8, b1: bv8, b2: bv8)
    ensures Xor(Xor(Xor(0, High16(b2)), High8(b1)), b0 as bv32) == Word(b0, b1, b2, 0)
    ensures Xor(Xor(0, High8(b1)), b0 as bv32) == Word(b0, b1, 0, 0)
    ensures Xor(0, b0 as bv32) == Word(b0, 0, 0, 0)
  {}

  ghost predicate AgreeExcept(a: seq<bv8>, b: seq<bv8>, from: nat, to: nat) {
    |a| == |b| && forall j :: 0 <= j < |a| && !(from <= j < to) ==> a[j] == b[j]
  }

  /** The states before block i agree, whatever block i is. */
  lemma {:induction false} BlocksPrefix(a: seq<bv8>, b: seq<bv8>, seed: bv32, i: nat, n: nat)
    requires AgreeExcept(a, b, 4 * i, 4 * i + 4) && n <= i && 4 * n <= |a|
    ensures Blocks(a, seed, n) == Blocks(b, seed, n)
  {
    hide Round, Word;
    if n > 0 {
      BlocksPrefix(a, b, seed, i, n - 1);
    }
  }

  /** A difference in block i survives every later round. */
  lemma {:induction false} BlocksDiffer(a: seq<bv8>, b: seq<bv8>, seed: bv32, i: nat, n: nat)
    requires AgreeExcept(a, b, 4 * i, 4 * i + 4) && i < n && 4 * n <= |a|
    requires Block(a, i) != Block(b, i)
    ensures Blocks(a, seed, n) != Blocks(b, seed, n)
  {
    hide Round, Word, UnroundState, UnroundBlock;
    var h, g := Blocks(a, seed, n - 1), Blocks(b, seed, n - 1);
    RoundInverse(h, Block(a, n - 1));
    RoundInverse(g, Block(b, n - 1));
    if n == i + 1 {
      BlocksPrefix(a, b, seed, i, i);
    } else {
      BlocksDiffer(a, b, seed, i, n - 1);
    }
  }

  lemma WithTailInjective(h: bv32, g: bv32, tail: seq<bv8>)
    requires |tail| < 4 && WithTail(h, tail) == WithTail(g, tail)
    ensures h == g
  {
    hide Xor, Scramble, Word;
    if tail != [] {
      XorInverse(h, Scramble(TailWord(tail)));
      XorInverse(g, Scramble(TailWord(tail)));
    }
  }

  lemma TailInjective(h: bv32, a: seq<bv8>, b: seq<bv8>)
    requires |a| == |b| < 4 && WithTail(h, a) == WithTail(h, b)
    ensures a == b
  {
    hide Xor, Scramble, Unscramble, Word, Unword;
    if a != [] {
      var k, l := TailWord(a), TailWord(b);
      XorInverse(Scramble(k), h);
      XorInverse(Scramble(l), h);
      XorInverse(h, Scramble(k));
      XorInverse(h, Scramble(l));
      ScrambleInverse(k);
      ScrambleInverse(l);
      UnwordWord(a[0], if |a| > 1 then a[1] else 0, if |a| > 2 then a[2] else 0, 0);
      UnwordWord(b[0], if |b| > 1 then b[1] else 0, if |b| > 2 then b[2] else 0, 0);
    }
  }

  lemma FinalInjective(h: bv32, g: bv32, n: nat)
    requires Avalanche(Xor(h, Low32(n))) == Avalanche(Xor(g, Low32(n)))
    ensures h == g
  {
    hide Xor, Avalanche, Unavalanche, Low32;
    AvalancheInverse(Xor(h, Low32(n)));
    AvalancheInverse(Xor(g, Low32(n)));
    XorInverse(h, Low32(n));
    XorInverse(g, Low32(n));
  }

  /** For every seed, inputs that differ at most in aligned block i hash alike only if they are equal. */
  lemma OneBlockInjective(a: seq<bv8>, b: seq<bv8>, seed: bv32, i: nat)
    requires 4 * i + 4 <= |a| && AgreeExcept(a, b, 4 * i, 4 * i + 4)
    ensures Digest(a, seed) == Digest(b, seed) <==> a == b
  {
    hide Xor, Avalanche, WithTail, Blocks, Word, Unword, Low32;
    var n := |a| / 4;
    assert a[4 * n..] == b[4 * n..];
    if Digest(a, seed) == Digest(b, seed) {
      FinalInjective(WithTail(Blocks(a, seed, n), a[4 * n..]), WithTail(Blocks(b, seed, n), b[4 * n..]), |a|);
      WithTailInjective(Blocks(a, seed, n), Blocks(b, seed, n), a[4 * n..]);
      if Block(a, i) != Block(b, i) {
        BlocksDiffer(a, b, seed, i, n);
      }
      UnwordWord(a[4 * i], a[4 * i + 1], a[4 * i + 2], a[4 * i + 3]);
      UnwordWord(b[4 * i], b[4 * i + 1], b[4 * i + 2], b[4 * i + 3]);
      assert forall j :: 0 <= j < |a| ==> a[j] == b[j];
    }
  }

  /** The same for inputs that differ at most in the bytes after the last aligned block. */
  lemma TailOnlyInjective(a: seq<bv8>, b: seq<bv8>, seed: bv32)
    requires AgreeExcept(a, b, 4 * (|a| / 4), |a|)
    ensures Digest(a, seed) == Digest(b, seed) <==> a == b
  {
    hide Xor, Avalanche, WithTail, Blocks, Low32;
    var n := |a| / 4;
    if Digest(a, seed) == Digest(b, seed) {
      FinalInjective(WithTail(Blocks(a, seed, n), a[4 * n..]), WithTail(Blocks(b, seed, n), b[4 * n..]), |a|);
      BlocksAgree(a, b, seed, n);
      TailInjective(Blocks(a, seed, n), a[4 * n..], b[4 * n..]);
      assert a == a[..4 * n] + a[4 * n..] && b == b[..4 * n] + b[4 * n..];
    }
  }

  lemma {:induction false} BlocksAgree(a: seq<bv8>, b: seq<bv8>, seed: bv32, n: nat)
    requires 4 * n <= |a| && AgreeExcept(a, b, 4 * n, |a|)
    ensures Blocks(a, seed, n) == Blocks(b, seed, n)
  {
    hide Round, Word;
    if n > 0 {
      BlocksAgree(a, b, seed, n - 1);
    }
  }

  /** The four bytes with a given hash. */
  function Preimage(h: bv32, seed: bv32): (data: seq<bv8>)
    ensures |data| == 4
  {
    var (b0, b1, b2, b3) := Unword(UnroundBlock(Xor(Unavalanche(h), Low32(4)), seed));
    [b0, b1, b2, b3]
  }

  /** On four-byte inputs the hash is a bijection onto the 32-bit words, for every seed. */
  lemma FourBytesBijective(a: seq<bv8>, h: bv32, seed: bv32)
    requires |a| == 4
    ensures Digest(Preimage(h, seed), seed) == h
    ensures Digest(a, seed) == h <==> a == Preimage(h, seed)
  {
    hide Xor, Avalanche, Unavalanche, Word, Unword, Low32, Round, UnroundBlock;
    var p := Preimage(h, seed);
    var k := UnroundBlock(Xor(Unavalanche(h), Low32(4)), seed);
    WordUnword(k);
    RoundReaches(Xor(Unavalanche(h), Low32(4)), seed);
    XorInverse(Unavalanche(h), Low32(4));
    AvalancheInverse(h);
    assert p[4..] == [] && Blocks(p, seed, 0) == seed;
    assert Blocks(p, seed, 1) == Round(seed, Block(p, 0));
    OneBlockInjective(a, p, seed, 0);
  }

  // What the published function gives: the anchor of the definitions above, which they do not name.

  /** The rotations are those by 15 and by 13 to the left. */
  lemma Rotations(x: bv32)
    ensures Rotl15(x) == (x << 15) | (x >> 17) && Rotl13(x) == (x << 13) | (x >> 19)
  {}

  /** One block: "aaaa". */
  lemma PublishedBlock()
    ensures Digest([0x61, 0x61, 0x61, 0x61], 0x9747b28c) == 0x5a97808a
  {
    hide Avalanche, Round, Low32, Xor, Word;
    OneBlock([0x61, 0x61, 0x61, 0x61], 0x9747b28c);
    FourAs();
  }

  lemma FourAs()
    ensures Word(0x61, 0x61, 0x61, 0x61) == 0x61616161 && Round(0x9747b28c, 0x61616161) == 0x720c8863
    ensures Avalanche(Xor(0x720c8863, Low32(4))) == 0x5a97808a
  {
    assert Low32(4) == 4;
  }

  /** The value the repository's own test expects of "ABCD" with seed 1. */
  lemma RepositoryVector()
    ensures Digest([0x41, 0x42, 0x43, 0x44], 1) == 3027734286
  {
    hide Avalanche, Round, Low32, Xor, Word;
    OneBlock([0x41, 0x42, 0x43, 0x44], 1);
    AToD();
  }

  lemma AToD()
    ensures Word(0x41, 0x42, 0x43, 0x44) == 0x44434241 && Round(1, 0x44434241) == 0x23ff2fe2
    ensures Avalanche(Xor(0x23ff2fe2, Low32(4))) == 3027734286
  {
    assert Low32(4) == 4;
  }

  lemma OneBlock(d: seq<bv8>, seed: bv32)
    requires |d| == 4
    ensures Digest(d, seed) == Avalanche(Xor(Round(seed, Word(d[0], d[1], d[2], d[3])), Low32(4)))
  {
    hide Avalanche, Xor, Round, Word, Low32;
    assert Blocks(d, seed, 1) == Round(Blocks(d, seed, 0), Block(d, 0));
    assert d[4..] == [];
  }

  /** A tail alone: "aa" and "abc". */
  lemma PublishedTail()
    ensures Digest([0x61, 0x61], 0x9747b28c) == 0x5d211726
    ensures Digest([0x61, 0x62, 0x63], 0) == 0xb3dd93fa
  {
    hide Avalanche, WithTail, Low32, Xor;
    TwoAs();
    AToC();
    TailAlone([0x61, 0x61], 0x9747b28c);
    TailAlone([0x61, 0x62, 0x63], 0);
  }

  lemma TailAlone(d: seq<bv8>, seed: bv32)
    requires |d| < 4
    ensures Digest(d, seed) == Avalanche(Xor(WithTail(seed, d), Low32(|d|)))
  {
    hide Avalanche, WithTail, Low32, Xor;
    assert d[0..] == d && Blocks(d, seed, 0) == seed;
  }

  lemma TwoAs()
    ensures WithTail(0x9747b28c, [0x61, 0x61]) == 0x1565507b
    ensures Avalanche(Xor(0x1565507b, Low32(2))) == 0x5d211726
  {
    assert Low32(2) == 2;
  }

  lemma AToC()
    ensures WithTail(0, [0x61, 0x62, 0x63]) == 0xa7349db7
    ensures Avalanche(Xor(0xa7349db7, Low32(3))) == 0xb3dd93fa
  {
    assert Low32(3) == 3;
  }

  /** Blocks, tail and length: "Hello, world!". */
  lemma PublishedText()
    ensures Digest([0x48, 0x65, 0x6c, 0x6c, 0x6f, 0x2c, 0x20, 0x77, 0x6f, 0x72, 0x6c, 0x64, 0x21], 0x9747b28c)
            == 0x24884cba
  {
    hide Avalanche, WithTail, Round, Low32, Xor, Word;
    var d: seq<bv8> := [0x48, 0x65, 0x6c, 0x6c, 0x6f, 0x2c, 0x20, 0x77, 0x6f, 0x72, 0x6c, 0x64, 0x21];
    ThreeBlocks(d, 0x9747b28c);
    TextRounds();
    TextEnd();
    assert d[12..] == [0x21];
  }

  lemma TextRounds()
    ensures Word(0x48, 0x65, 0x6c, 0x6c) == 0x6c6c6548 && Round(0x9747b28c, 0x6c6c6548) == 0xdae4c92e
    ensures Word(0x6f, 0x2c, 0x20, 0x77) == 0x77202c6f && Round(0xdae4c92e, 0x77202c6f) == 0x71c6b43c
    ensures Word(0x6f, 0x72, 0x6c, 0x64) == 0x646c726f && Round(0x71c6b43c, 0x646c726f) == 0x3bd692af
  {}

  lemma TextEnd()
    ensures WithTail(0x3bd692af, [0x21]) == 0x9788c38c
    ensures Avalanche(Xor(0x9788c38c, Low32(13))) == 0x24884cba
  {
    assert Low32(13) == 13;
  }

  lemma ThreeBlocks(d: seq<bv8>, seed: bv32)
    requires |d| >= 12
    ensures Blocks(d, seed, 3) == Round(Round(Round(seed, Block(d, 0)), Block(d, 1)), Block(d, 2))
  {
    hide Round, Block;
    assert Blocks(d, seed, 1) == Round(Blocks(d, seed, 0), Block(d, 0));
    assert Blocks(d, seed, 2) == Round(Blocks(d, seed, 1), Block(d, 1));
  }
}
