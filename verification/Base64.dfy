/** Base64 with the standard alphabet and no padding (sections 4 and 3.2 of RFC 4648), on bytes, as the decoder in use
    reads it: line breaks are skipped, left-over low bits are ignored. */
module Base64 {
  import opened Options

  /** The character of a six-bit value. */
  function Letter(s: bv8): bv8 {
    if s < 26 then s + 65
    else if s < 52 then s + 71
    else if s < 62 then s - 4
    else if s == 62 then 43
    else 47
  }

  function Value(ch: bv8): Option<bv8> {
    if 65 <= ch <= 90 then Some(ch - 65)
    else if 97 <= ch <= 122 then Some(ch - 71)
    else if 48 <= ch <= 57 then Some(ch + 4)
    else if ch == 43 then Some(62)
    else if ch == 47 then Some(63)
    else None
  }

  predicate IsBreak(ch: bv8) {
    ch == 10 || ch == 13
  }

  // The four six-bit values of three bytes, and back.

  function S0(a: bv8): bv8 { a >> 2 }
  function S1(a: bv8, b: bv8): bv8 { ((a & 3) << 4) | (b >> 4) }
  function S2(b: bv8, c: bv8): bv8 { ((b & 15) << 2) | (c >> 6) }
  function S3(c: bv8): bv8 { c & 63 }

  function B0(w: bv8, x: bv8): bv8 { (w << 2) | (x >> 4) }
  function B1(x: bv8, y: bv8): bv8 { (x << 4) | (y >> 2) }
  function B2(y: bv8, z: bv8): bv8 { (y << 6) | z }

  lemma Sextets(a: bv8, b: bv8, c: bv8)
    ensures S0(a) < 64 && S1(a, b) < 64 && S2(b, c) < 64 && S3(c) < 64
    ensures B0(S0(a), S1(a, b)) == a && B1(S1(a, b), S2(b, c)) == b && B2(S2(b, c), S3(c)) == c
  {}

  lemma LetterValue(s: bv8)
    requires s < 64
    ensures Value(Letter(s)) == Some(s) && !IsBreak(Letter(s))
  {}

  /** The alphabet of section 4 of RFC 4648: A-Z, a-z, 0-9, '+' and '/', in this order. */
  lemma Alphabet(s: bv8)
    requires s < 64
    ensures Letter(0) == 0x41 && Letter(25) == 0x5a && Letter(26) == 0x61 && Letter(51) == 0x7a
    ensures Letter(52) == 0x30 && Letter(61) == 0x39 && Letter(62) == 0x2b && Letter(63) == 0x2f
    ensures s != 25 && s != 51 && s < 61 ==> Letter(s + 1) == Letter(s) + 1
  {}

  /** Three bytes and their four six-bit values are the same 24 bits, the first highest. */
  lemma SameBits(a: bv8, b: bv8, c: bv8)
    ensures (a as bv32 << 16) | (b as bv32 << 8) | c as bv32
            == (S0(a) as bv32 << 18) | (S1(a, b) as bv32 << 12) | (S2(b, c) as bv32 << 6) | S3(c) as bv32
  {}

  /** "Man" is "TWFu", "fo" is "Zm8" and "f" is "Zg" (section 10 of RFC 4648, without padding). */
  lemma PublishedEncodings()
    ensures Encode([0x4d, 0x61, 0x6e]) == [0x54, 0x57, 0x46, 0x75]
    ensures Encode([0x66, 0x6f]) == [0x5a, 0x6d, 0x38] && Encode([0x66]) == [0x5a, 0x67]
  {
    var man: seq<bv8> := [0x4d, 0x61, 0x6e];
    assert man[3..] == [];
    assert Encode(man) == [0x54, 0x57, 0x46, 0x75] + Encode([]);
  }

  function Encode(src: seq<bv8>): seq<bv8> {
    if src == [] then []
    else if |src| == 1 then [Letter(S0(src[0])), Letter(S1(src[0], 0))]
    else if |src| == 2 then [Letter(S0(src[0])), Letter(S1(src[0], src[1])), Letter(S2(src[1], 0))]
    else
      [Letter(S0(src[0])), Letter(S1(src[0], src[1])), Letter(S2(src[1], src[2])), Letter(S3(src[2]))]
      + Encode(src[3..])
  }

  function WithoutBreaks(src: seq<bv8>): seq<bv8> {
    if src == [] then []
    else (if IsBreak(src[0]) then [] else [src[0]]) + WithoutBreaks(src[1..])
  }

  /** None is the corrupt-input error: a foreign character, or a single character left over. */
  function DecodeGroups(src: seq<bv8>): Option<seq<bv8>> {
    if src == [] then Some([])
    else if |src| == 1 then None
    else
      var w, x := Value(src[0]), Value(src[1]);
      if w.None? || x.None? then None
      else if |src| == 2 then Some([B0(w.value, x.value)])
      else
        var y := Value(src[2]);
        if y.None? then None
        else if |src| == 3 then Some([B0(w.value, x.value), B1(x.value, y.value)])
        else
          var z := Value(src[3]);
          if z.None? then None
          else
            var rest := DecodeGroups(src[4..]);
            if rest.None? then None
            else Some([B0(w.value, x.value), B1(x.value, y.value), B2(y.value, z.value)] + rest.value)
  }

  function Decode(src: seq<bv8>): Option<seq<bv8>> {
    DecodeGroups(WithoutBreaks(src))
  }

  function DecodedLen(n: nat): nat {
    n * 6 / 8
  }

  lemma {:induction false} DecodeGroupsEncode(src: seq<bv8>)
    ensures DecodeGroups(Encode(src)) == Some(src)
    ensures DecodedLen(|Encode(src)|) == |src|
    ensures forall ch <- Encode(src) :: !IsBreak(ch)
  {
    hide Letter, Value, IsBreak, S0, S1, S2, S3, B0, B1, B2;
    if src != [] {
      var a, b := src[0], if |src| > 1 then src[1] else 0;
      var c := if |src| > 2 then src[2] else 0;
      Sextets(a, b, c);
      LetterValue(S0(a));
      LetterValue(S1(a, b));
      LetterValue(S2(b, c));
      LetterValue(S3(c));
      if |src| > 2 {
        var head := [Letter(S0(a)), Letter(S1(a, b)), Letter(S2(b, c)), Letter(S3(c))];
        assert Encode(src) == head + Encode(src[3..]);
        assert Encode(src)[4..] == Encode(src[3..]);
        DecodeGroupsEncode(src[3..]);
        assert [a, b, c] + src[3..] == src;
      } else {
        assert src == if |src| == 1 then [a] else [a, b];
      }
    }
  }

  lemma {:induction false} NoBreaks(src: seq<bv8>)
    requires forall ch <- src :: !IsBreak(ch)
    ensures WithoutBreaks(src) == src
  {
    if src != [] {
      assert forall ch <- src[1..] :: ch in src;
      NoBreaks(src[1..]);
    }
  }

  /** Decoding undoes encoding, for all bytes, and the buffer sized for it is filled exactly. */
  lemma DecodeEncode(src: seq<bv8>)
    ensures Decode(Encode(src)) == Some(src) && DecodedLen(|Encode(src)|) == |src|
  {
    DecodeGroupsEncode(src);
    NoBreaks(Encode(src));
  }

  /** The decoder accepts exactly the texts of letters and line breaks that do not leave a single letter over. */
  lemma DecodeExact(src: seq<bv8>)
    ensures Decode(src).Some? <==>
              (forall ch <- src :: IsBreak(ch) || Value(ch).Some?) && |WithoutBreaks(src)| % 4 != 1
    ensures Decode(src).Some? ==> |Decode(src).value| == DecodedLen(|WithoutBreaks(src)|) <= DecodedLen(|src|)
  {
    hide IsBreak, Value, DecodeGroups, WithoutBreaks;
    DecodeGroupsExact(WithoutBreaks(src));
    forall ch ensures ch in WithoutBreaks(src) <==> ch in src && !IsBreak(ch) {
      BreaksMembers(src, ch);
    }
    BreaksMembers(src, 0);
  }

  lemma {:induction false} DecodeGroupsExact(src: seq<bv8>)
    ensures DecodeGroups(src).Some? <==> (forall ch <- src :: Value(ch).Some?) && |src| % 4 != 1
    ensures DecodeGroups(src).Some? ==> |DecodeGroups(src).value| == DecodedLen(|src|)
  {
    hide Value, B0, B1, B2;
    if |src| >= 4 {
      DecodeGroupsExact(src[4..]);
      assert src == [src[0], src[1], src[2], src[3]] + src[4..];
    }
  }

  lemma {:induction false} BreaksMembers(src: seq<bv8>, ch: bv8)
    ensures ch in WithoutBreaks(src) <==> ch in src && !IsBreak(ch)
    ensures |WithoutBreaks(src)| <= |src|
  {
    hide IsBreak;
    if src != [] {
      BreaksMembers(src[1..], ch);
      assert src == [src[0]] + src[1..];
    }
  }
}
