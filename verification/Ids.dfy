/** Client ids: up to three parts (gateway, user, device) joined by '_', as pkg/gate/client.go reads and edits them. */
module Ids {

  type ID = string

  const TEMP_PREFIX := "tmp@"

  /** No '_' inside. */
  predicate Plain(s: string) {
    '_' !in s
  }

  function Split(s: string): (r: seq<string>)
    ensures |r| >= 1
    ensures forall i :: 0 <= i < |r| ==> Plain(r[i])
  {
    if s == "" then [""]
    else
      var r := Split(s[1..]);
      if s[0] == '_' then [""] + r else [[s[0]] + r[0]] + r[1..]
  }

  function Join(parts: seq<string>): string {
    if parts == [] then ""
    else if |parts| == 1 then parts[0]
    else parts[0] + "_" + Join(parts[1..])
  }

  lemma {:induction false} JoinSplit(s: string)
    ensures Join(Split(s)) == s
  {
    if s != "" {
      var r := Split(s[1..]);
      JoinSplit(s[1..]);
      if s[0] == '_' {
        assert ([""] + r)[1..] == r;
        assert "" + "_" + s[1..] == s;
      } else {
        var h := [s[0]] + r[0];
        assert ([h] + r[1..])[1..] == r[1..];
        assert s == [s[0]] + s[1..];
        if |r| > 1 {
          assert h + "_" + Join(r[1..]) == [s[0]] + (r[0] + "_" + Join(r[1..]));
        }
      }
    }
  }

  lemma {:induction false} SplitPrepend(p: string, s: string)
    requires Plain(p)
    ensures Split(p + "_" + s) == [p] + Split(s)
    ensures Split(p) == [p]
  {
    if p == "" {
      assert p + "_" + s == "_" + s;
      assert ("_" + s)[1..] == s;
    } else {
      SplitPrepend(p[1..], s);
      assert (p + "_" + s)[1..] == p[1..] + "_" + s;
      assert [p[0]] + p[1..] == p;
    }
  }

  lemma {:induction false} SplitJoin(parts: seq<string>)
    requires parts != [] && forall p <- parts :: Plain(p)
    ensures Split(Join(parts)) == parts
  {
    SplitPrepend(parts[0], Join(parts[1..]));
    if |parts| > 1 {
      SplitJoin(parts[1..]);
    }
  }

  function NewID(gate: string, uid: string, device: string): ID {
    Join([gate, uid, device])
  }

  function NewID2(uid: string): ID {
    Join(["", uid, ""])
  }

  function Part(id: ID, i: nat): string {
    var s := Split(id);
    if i >= |s| then "" else s[i]
  }

  function Gateway(id: ID): string { Part(id, 0) }
  function UID(id: ID): string { Part(id, 1) }
  function Device(id: ID): string { Part(id, 2) }

  predicate IsTemp(id: ID) {
    TEMP_PREFIX <= UID(id)
  }

  predicate Equals(a: ID, b: ID) {
    UID(a) + Device(a) == UID(b) + Device(b)
  }

  /** What `SetGateway` leaves in its receiver. */
  function SetGateway(id: ID, gateway: string): ID {
    if gateway <= id then id
    else
      var s := Split(id);
      if |s| != 3 then id else Join([gateway, s[1], s[2]])
  }

  /** What `SetDevice` leaves in its receiver. */
  function SetDevice(id: ID, device: string): ID {
    if |device| <= |id| && id[|id| - |device|..] == device then id
    else
      var s := Split(id);
      if |s| != 3 then id else Join([s[0], s[1], device])
  }

  lemma Join3(a: string, b: string, c: string)
    ensures Join([a, b, c]) == a + ("_" + (b + ("_" + c)))
  {
    assert [a, b, c][1..] == [b, c] && [b, c][1..] == [c];
    assert Join([b, c]) == b + ("_" + c);
    assert a + "_" + Join([b, c]) == a + ("_" + Join([b, c]));
    assert "_" + (b + ("_" + c)) == "_" + Join([b, c]);
  }

  lemma Split3(a: string, b: string, c: string)
    requires Plain(a) && Plain(b) && Plain(c)
    ensures Split(Join([a, b, c])) == [a, b, c]
  {
    SplitJoin([a, b, c]);
  }

  /** An id is temporary exactly if its user part starts with "tmp@". */
  lemma TempExact(gate: string, uid: string, device: string)
    requires Plain(gate) && Plain(uid) && Plain(device)
    ensures IsTemp(NewID(gate, uid, device)) <==> |uid| >= 4 && uid[..4] == "tmp@"
  {
    NewIDParts(gate, uid, device);
  }

  /** A string without the separator is a gateway and nothing else. */
  lemma MissingParts(s: string)
    requires Plain(s)
    ensures Gateway(s) == s && UID(s) == "" && Device(s) == ""
  {
    SplitPrepend(s, "");
  }

  /** Joining plain parts and reading them back. */
  lemma NewIDParts(gate: string, uid: string, device: string)
    requires Plain(gate) && Plain(uid) && Plain(device)
    ensures var id := NewID(gate, uid, device);
            Gateway(id) == gate && UID(id) == uid && Device(id) == device
    ensures var id := NewID2(uid); Gateway(id) == "" && UID(id) == uid && Device(id) == ""
  {
    Split3(gate, uid, device);
    Split3("", uid, "");
  }

  /** Setting the gateway twice is setting it once, for all strings. */
  lemma SetGatewayIdempotent(id: ID, gateway: string)
    ensures SetGateway(SetGateway(id, gateway), gateway) == SetGateway(id, gateway)
  {
    var s := Split(id);
    if !(gateway <= id) && |s| == 3 {
      Join3(gateway, s[1], s[2]);
    }
  }

  /** A plain string is a prefix of an id exactly when it is one of the id's first part. */
  lemma PlainPrefix(g: string, p: string, rest: string)
    requires Plain(g)
    ensures g <= p + ("_" + rest) <==> g <= p
  {
    var s := p + ("_" + rest);
    assert s[|p|] == '_';
    assert forall i :: 0 <= i < |p| ==> s[i] == p[i];
  }

  /** With a plain gateway name, a three-part id keeps its user and device; and it ends up with that gateway if and
      only if its gateway part was not a longer name that merely starts with it. */
  lemma SetGatewayParts(id: ID, gateway: string)
    requires Plain(gateway) && |Split(id)| == 3
    ensures var id' := SetGateway(id, gateway);
            && |Split(id')| == 3
            && UID(id') == UID(id) && Device(id') == Device(id)
            && (Gateway(id') == gateway <==> !(gateway < Gateway(id)))
            && (Gateway(id') == gateway || id' == id)
  {
    var s := Split(id);
    JoinSplit(id);
    assert s == [s[0], s[1], s[2]];
    Join3(s[0], s[1], s[2]);
    PlainPrefix(gateway, s[0], s[1] + ("_" + s[2]));
    Split3(gateway, s[1], s[2]);
  }

  /** A gateway whose name extends another one's is not overwritten by it. */
  lemma SetGatewayKeepsLongerName()
    ensures SetGateway(NewID("gate-10", "u", ""), "gate-1") == NewID("gate-10", "u", "")
  {
    Join3("gate-10", "u", "");
  }

  ghost predicate Suffix(d: string, s: string) {
    |d| <= |s| && s[|s| - |d|..] == d
  }

  lemma PlainSuffix(d: string, rest: string, p: string)
    requires Plain(d)
    ensures Suffix(d, rest + "_" + p) <==> Suffix(d, p)
  {
    var s := rest + "_" + p;
    assert s[|rest|] == '_' && s[|rest| + 1..] == p;
    if |d| <= |p| {
      assert s[|s| - |d|..] == p[|p| - |d|..];
    } else if |d| <= |s| {
      assert s[|s| - |d|..][|rest| - (|s| - |d|)] == '_';
    }
  }

  /** The same for the device: it is set unless the device part was a longer name that merely ends with it. */
  lemma SetDeviceParts(id: ID, device: string)
    requires Plain(device) && |Split(id)| == 3
    ensures var id' := SetDevice(id, device);
            && |Split(id')| == 3
            && Gateway(id') == Gateway(id) && UID(id') == UID(id)
            && (Device(id') == device <==> !(Suffix(device, Device(id)) && device != Device(id)))
            && (Device(id') == device || id' == id)
  {
    var s := Split(id);
    JoinSplit(id);
    assert s == [s[0], s[1], s[2]];
    Join3(s[0], s[1], s[2]);
    assert id == (s[0] + ("_" + s[1])) + "_" + s[2];
    PlainSuffix(device, s[0] + ("_" + s[1]), s[2]);
    Split3(s[0], s[1], device);
  }

  /** `Equals` compares user and device run together: it means the same user and device if and only if the user parts
      are equally long. */
  lemma EqualsExact(a: ID, b: ID)
    ensures UID(a) == UID(b) && Device(a) == Device(b) <==> Equals(a, b) && |UID(a)| == |UID(b)|
  {
    var x, y := UID(a) + Device(a), UID(b) + Device(b);
    assert x[..|UID(a)|] == UID(a) && x[|UID(a)|..] == Device(a);
    assert y[..|UID(b)|] == UID(b) && y[|UID(b)|..] == Device(b);
  }

  /** User "u" on device "1" equals user "u1" on no device. */
  lemma EqualsConflates()
    ensures Equals(NewID("", "u", "1"), NewID("", "u1", "")) && "u" != "u1"
  {
    NewIDParts("", "u", "1");
    NewIDParts("", "u1", "");
  }

  /** A user id with the separator inside reads as a user and a device, and stays without a gateway. */
  lemma SeparatorInUser(gateway: string, a: string, b: string)
    requires Plain(gateway) && gateway != "" && Plain(a) && Plain(b)
    ensures var id := NewID2(a + "_" + b);
            UID(id) == a && Device(id) == b && SetGateway(id, gateway) == id
  {
    var id := NewID2(a + "_" + b);
    Join3("", a + "_" + b, "");
    assert id == "" + "_" + (a + "_" + (b + "_" + ""));
    SplitPrepend(b, "");
    SplitPrepend(a, b + "_" + "");
    SplitPrepend("", a + "_" + (b + "_" + ""));
    assert id[0] == '_';
  }

  /** Qualifying the id of a plain user with a plain, non-empty gateway name. */
  lemma QualifyUser(gateway: string, uid: string)
    requires Plain(gateway) && gateway != "" && Plain(uid)
    ensures SetGateway(NewID2(uid), gateway) == NewID(gateway, uid, "")
    ensures SetGateway(NewID(gateway, uid, ""), gateway) == NewID(gateway, uid, "")
  {
    Split3("", uid, "");
    Join3("", uid, "");
    Join3(gateway, uid, "");
    PlainPrefix(gateway, "", uid + ("_" + ""));
  }

  // Temporary ids.

  type Byte = x: int | 0 <= x < 256

  const HEX := "0123456789abcdef"

  /** `hex.Encode`: two characters a byte, high digit first. */
  function Hex(src: seq<Byte>): (r: string)
    ensures |r| == 2 * |src|
  {
    if src == [] then "" else [HEX[src[0] / 16], HEX[src[0] % 16]] + Hex(src[1..])
  }

  function Digit(ch: char): nat {
    if ch <= '9' then (ch as int - '0' as int) % 16 else (ch as int - 'a' as int + 10) % 16
  }

  function Unhex(s: string): (r: seq<Byte>)
    decreases |s|
  {
    if |s| < 2 then [] else [16 * Digit(s[0]) + Digit(s[1])] + Unhex(s[2..])
  }

  lemma DigitHex(d: nat)
    requires d < 16
    ensures Digit(HEX[d]) == d && HEX[d] != '_' && HEX[d] != '-'
  {
    if d < 10 {
      assert HEX[d] == "0123456789"[d];
    } else {
      assert HEX[d] == "abcdef"[d - 10];
    }
  }

  lemma {:induction false} UnhexHex(src: seq<Byte>)
    ensures Unhex(Hex(src)) == src && Plain(Hex(src)) && '-' !in Hex(src)
  {
    if src != [] {
      UnhexHex(src[1..]);
      DigitHex(src[0] / 16);
      DigitHex(src[0] % 16);
      assert Hex(src)[2..] == Hex(src[1..]);
    }
  }

  /** The version and variant bits of section 5.4 of RFC 9562: four fixed bits in byte 6 and two in byte 8. */
  function Version4(random: seq<Byte>): (r: seq<Byte>)
    requires |random| == 16
    ensures |r| == 16
  {
    random[6 := random[6] % 16 + 0x40][8 := random[8] % 64 + 0x80]
  }

  /** The groups 8-4-4-4-12 of a uuid's text. */
  function Dashed(u: seq<Byte>): (r: string)
    requires |u| == 16
    ensures |r| == 36
  {
    Hex(u[..4]) + "-" + Hex(u[4..6]) + "-" + Hex(u[6..8]) + "-" + Hex(u[8..10]) + "-" + Hex(u[10..])
  }

  lemma {:induction false} HexAt(src: seq<Byte>, i: nat)
    requires i < |src|
    ensures Hex(src)[2 * i] == HEX[src[i] / 16] && Hex(src)[2 * i + 1] == HEX[src[i] % 16]
  {
    if i > 0 {
      HexAt(src[1..], i - 1);
    }
  }

  method HexEncode(buf: array<char>, at: nat, src: seq<Byte>)
    requires at + 2 * |src| <= buf.Length
    modifies buf
    ensures buf[..] == old(buf[..at]) + Hex(src) + old(buf[at + 2 * |src|..])
  {
    for i := 0 to |src|
      invariant forall j :: 0 <= j < at || at + 2 * i <= j < buf.Length ==> buf[j] == old(buf[j])
      invariant forall j :: 0 <= j < 2 * i ==> buf[at + j] == Hex(src)[j]
    {
      HexAt(src, i);
      buf[at + 2 * i] := HEX[src[i] / 16];
      buf[at + 2 * i + 1] := HEX[src[i] % 16];
    }
  }

  /** Encodes one group behind what is already in the buffer, and the dash after it. */
  method Group(buf: array<char>, at: nat, src: seq<Byte>, ghost done: string)
    requires at + 2 * |src| < buf.Length && buf[..at] == done
    modifies buf
    ensures buf[..at + 2 * |src| + 1] == done + Hex(src) + "-"
  {
    HexEncode(buf, at, src);
    var end := at + 2 * |src|;
    assert buf[..end] == buf[..][..end] == done + Hex(src);
    buf[end] := '-';
  }

  /** `newUUID` on the random bytes it reads. */
  method NewUUID(random: seq<Byte>) returns (text: string)
    requires |random| == 16
    ensures text == Dashed(Version4(random))
  {
    hide Hex;
    var uuid := random;
    uuid := uuid[6 := uuid[6] % 16 + 0x40];
    uuid := uuid[8 := uuid[8] % 64 + 0x80];
    var buf := new char[36];
    Group(buf, 0, uuid[..4], "");
    ghost var done := "" + Hex(uuid[..4]) + "-";
    Group(buf, 9, uuid[4..6], done);
    done := done + Hex(uuid[4..6]) + "-";
    Group(buf, 14, uuid[6..8], done);
    done := done + Hex(uuid[6..8]) + "-";
    Group(buf, 19, uuid[8..10], done);
    done := done + Hex(uuid[8..10]) + "-";
    HexEncode(buf, 24, uuid[10..]);
    text := buf[..];
    assert text == done + Hex(uuid[10..]);
    assert "" + Hex(uuid[..4]) == Hex(uuid[..4]);
  }

  function Undashed(text: string): seq<Byte>
    requires |text| == 36
  {
    Unhex(text[..8]) + Unhex(text[9..13]) + Unhex(text[14..18]) + Unhex(text[19..23]) + Unhex(text[24..])
  }

  /** The text is 8-4-4-4-12 hex digits, has no '_', and gives back every byte. */
  lemma DashedLayout(u: seq<Byte>)
    requires |u| == 16
    ensures var t := Dashed(u);
            && Plain(t)
            && t[8] == t[13] == t[18] == t[23] == '-'
            && Undashed(t) == u
  {
    hide Hex, Unhex;
    UnhexHex(u[..4]);
    UnhexHex(u[4..6]);
    UnhexHex(u[6..8]);
    UnhexHex(u[8..10]);
    UnhexHex(u[10..]);
    var t := Dashed(u);
    assert t[..8] == Hex(u[..4]) && t[9..13] == Hex(u[4..6]) && t[14..18] == Hex(u[6..8]);
    assert t[19..23] == Hex(u[8..10]) && t[24..] == Hex(u[10..]);
    assert u == u[..4] + u[4..6] + u[6..8] + u[8..10] + u[10..];
  }

  /** The uuid is of version 4 and the RFC variant, and every random bit but those six shows in it. */
  lemma UuidVersion4(random: seq<Byte>)
    requires |random| == 16
    ensures var t := Dashed(Version4(random));
            && t[14] == '4' && t[19] in "89ab" && |Undashed(t)| == 16
            && forall i :: 0 <= i < 16 ==>
                 (i != 6 && i != 8 ==> Undashed(t)[i] == random[i])
                 && (i == 6 ==> Undashed(t)[i] % 16 == random[i] % 16)
                 && (i == 8 ==> Undashed(t)[i] % 64 == random[i] % 64)
  {
    hide Hex, Undashed;
    var u := Version4(random);
    DashedLayout(u);
    HexAt(u[6..8], 0);
    HexAt(u[8..10], 0);
    var t := Dashed(u);
    assert t[14] == Hex(u[6..8])[0] && t[19] == Hex(u[8..10])[0];
    assert HEX[8..12] == "89ab" && t[19] == HEX[8..12][u[8] / 16 - 8];
  }

  /** `GenTempID` */
  method GenTempID(gate: string, random: seq<Byte>) returns (id: ID)
    requires |random| == 16
    ensures id == TempID(gate, random)
  {
    var uuid := NewUUID(random);
    id := NewID(gate, TEMP_PREFIX + uuid, "");
  }

  function TempID(gate: string, random: seq<Byte>): ID
    requires |random| == 16
  {
    NewID(gate, TEMP_PREFIX + Dashed(Version4(random)), "")
  }

  /** A generated id reads back as its gateway, "tmp@" and the uuid, and no device; it is temporary. */
  lemma TempIDParts(gate: string, random: seq<Byte>)
    requires |random| == 16 && Plain(gate)
    ensures var id := TempID(gate, random);
            && Gateway(id) == gate && UID(id) == TEMP_PREFIX + Dashed(Version4(random)) && Device(id) == ""
            && IsTemp(id)
  {
    DashedLayout(Version4(random));
    NewIDParts(gate, TEMP_PREFIX + Dashed(Version4(random)), "");
  }
}
