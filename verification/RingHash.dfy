/** The ring with the hash it has in the code: MurmurHash3 with its own seed. A string stands for its bytes, one
    character for each byte. */
module RingHash {
  import opened Murmur
  import opened RingSpec
  import opened RingOwners

  const SEED: bv32 := 0xabcd1234

  function ToByte(ch: char): bv8 {
    OfCode(ch as int % 256)
  }

  function FromByte(b: bv8): char {
    Code(b) as char
  }

  function OfCode(n: nat): bv8
    requires n < 256
  {
    n as bv8
  }

  function Code(b: bv8): (n: nat)
    ensures n < 256
  {
    b as nat
  }

  lemma CodeBack(b: bv8)
    ensures OfCode(Code(b)) == b
  {}

  function ToBytes(s: string): (r: seq<bv8>)
    ensures |r| == |s|
  {
    seq(|s|, i requires 0 <= i < |s| => ToByte(s[i]))
  }

  function FromBytes(bs: seq<bv8>): (s: string)
    ensures |s| == |bs|
  {
    seq(|bs|, i requires 0 <= i < |bs| => FromByte(bs[i]))
  }

  lemma ByteBack(b: bv8)
    ensures ToByte(FromByte(b)) == b
  {
    hide OfCode, Code;
    CodeBack(b);
  }

  lemma BytesBack(bs: seq<bv8>)
    ensures ToBytes(FromBytes(bs)) == bs
  {
    hide ToByte, FromByte;
    forall i | 0 <= i < |bs| ensures ToBytes(FromBytes(bs))[i] == bs[i] {
      ByteBack(bs[i]);
    }
  }

  function Value(w: bv32): (n: nat)
    ensures n < 0x1_0000_0000
  {
    w as nat
  }

  function FromValue(n: nat): bv32
    requires n < 0x1_0000_0000
  {
    n as bv32
  }

  function HashOf(s: string): nat {
    Value(Digest(ToBytes(s), SEED))
  }

  function Seeded(virtual: nat): Config {
    Config(HashOf, virtual)
  }

  /** The id of four bytes with the hash of `a`. */
  function Twin(a: string): (b: string)
    ensures |b| == 4
  {
    FromBytes(Preimage(Digest(ToBytes(a), SEED), SEED))
  }

  /** Every id has a four-byte twin with its hash, and no other: two ids of which one has four bytes collide in their
      real points if and only if that one is, byte for byte, the twin of the other. */
  lemma TwinCollides(a: string, b: string)
    requires |b| == 4
    ensures HashOf(Twin(a)) == HashOf(a)
    ensures HashOf(a) == HashOf(b) <==> ToBytes(b) == ToBytes(Twin(a))
  {
    hide Digest, Preimage, FromBytes, ToBytes, HashOf;
    var h := Digest(ToBytes(a), SEED);
    FourBytesBijective(ToBytes(b), h, SEED);
    BytesBack(Preimage(h, SEED));
    SameDigest(a, b);
    SameDigest(a, Twin(a));
  }

  lemma SameDigest(a: string, b: string)
    ensures HashOf(a) == HashOf(b) <==> Digest(ToBytes(a), SEED) == Digest(ToBytes(b), SEED)
  {
    hide Digest, ToBytes, Value, FromValue;
    ValueBack(Digest(ToBytes(a), SEED));
    ValueBack(Digest(ToBytes(b), SEED));
  }

  lemma ValueBack(w: bv32)
    ensures FromValue(Value(w)) == w
  {}

  /** On the ring as built, with any number of virtual points: an id that is not four bytes long, then its twin, then
      the id removed, and a point of the removed node is still there. */
  lemma TwinOutlives(a: string, virtual: nat)
    requires |a| != 4
    ensures var c, b := Seeded(virtual), Twin(a);
            var st := Run(c, [Add(a), Add(b), Remove(a)]);
            && st.ids == {b}
            && exists nd <- st.nodes :: nd.Owner() == RealPoint(c, a)
  {
    hide Run, Apart, HashOf, Twin;
    var c, b := Seeded(virtual), Twin(a);
    TwinCollides(a, b);
    CollisionOutlives(c, a, b);
    assert !Apart(c, a, b) by { SameHash(c, a, b); }
  }

  lemma SameHash(c: Config, a: string, b: string)
    requires c.hash(a) == c.hash(b)
    ensures !Apart(c, a, b)
  {
    assert Points(c, a)[0] in Points(c, a) && Points(c, b)[0] in Points(c, b);
  }

  /** Without virtual points, `Get` then answers every key with the removed node. */
  lemma TwinAnswers(a: string, h: nat)
    requires |a| != 4
    ensures var c, b := Seeded(0), Twin(a);
            var st := Run(c, [Add(a), Add(b), Remove(a)]);
            && st == State([RealPoint(c, a)], {b})
            && Lookup(st.nodes, h) == RealPoint(c, a) && a !in st.ids
  {
    hide Run, HashOf, Twin, Lookup;
    TwinCollides(a, Twin(a));
    LoneCollision(Seeded(0), a, Twin(a), h);
  }

  /** Two hashes with the code's seed. */
  lemma SeededValues()
    ensures HashOf("A") == 0x5b91b200 && HashOf("B") == 0x9f7c8ad8
  {
    hide Digest, ToByte;
    assert ToByte('A') == 0x41 && ToByte('B') == 0x42 by { LetterBytes(); }
    assert ToBytes("A") == [0x41] && ToBytes("B") == [0x42];
    hide ToBytes, Value;
    OneByte();
    LetterValues();
  }

  lemma LetterBytes()
    ensures ToByte('A') == 0x41 && ToByte('B') == 0x42
  {}

  lemma LetterValues()
    ensures Value(0x5b91b200) == 0x5b91b200 && Value(0x9f7c8ad8) == 0x9f7c8ad8
  {}

  lemma OneByte()
    ensures Digest([0x41], SEED) == 0x5b91b200 && Digest([0x42], SEED) == 0x9f7c8ad8
  {
    hide Avalanche, WithTail, Low32, Murmur.Xor;
    TailAlone([0x41], SEED);
    TailAlone([0x42], SEED);
    ByteA();
    ByteB();
  }

  lemma ByteA()
    ensures WithTail(0xabcd1234, [0x41]) == 0xe074af48
    ensures Avalanche(Murmur.Xor(0xe074af48, Low32(1))) == 0x5b91b200
  {
    assert Low32(1) == 1;
  }

  lemma ByteB()
    ensures WithTail(0xabcd1234, [0x42]) == 0xdf8ec5ed
    ensures Avalanche(Murmur.Xor(0xdf8ec5ed, Low32(1))) == 0x9f7c8ad8
  {
    assert Low32(1) == 1;
  }

  /** A key past the last point: with the nodes "A" and "B" the key "B" is answered by B, not by the first node. */
  lemma PastTheLast()
    ensures var c := Seeded(0);
            var ns := [RealPoint(c, "A"), RealPoint(c, "B")];
            Run(c, [Add("A"), Add("B")]).nodes == ns && Lookup(ns, c.hash("B")) == RealPoint(c, "B")
  {
    hide HashOf, InsertAll, Points;
    var c := Seeded(0);
    SeededValues();
    var a, b := RealPoint(c, "A"), RealPoint(c, "B");
    LonePoints(c, "A");
    LonePoints(c, "B");
    RunSnoc(c, [], Add("A"));
    RunSnoc(c, [Add("A")], Add("B"));
    assert [] + [Add("A")] == [Add("A")] && [Add("A")] + [Add("B")] == [Add("A"), Add("B")];
    Ascending(a, b);
    LookupExact([a, b], c.hash("B"), 1);
  }

  lemma Ascending(a: Node, b: Node)
    requires a.hash < b.hash
    ensures InsertAll(InsertAll([], [a]), [b]) == [a, b]
  {
    assert [a][..0] == [] && [b][..0] == [];
    assert FirstAbove([a], b.hash) == 1;
    assert Insert([], a) == [a] && Insert([a], b) == [a, b];
  }
}
