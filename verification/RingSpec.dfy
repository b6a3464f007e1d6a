/** What the consistent-hash ring computes, as functions on sorted sequences of points. The hash is any function. */
module RingSpec {

  /** A point of the ring; a virtual point carries the real node it stands for. */
  datatype Node = Real(val: string, hash: nat) | Virtual(val: string, hash: nat, realNode: Node) {
    function Owner(): Node {
      if Virtual? then realNode else this
    }
  }

  /** The hash with the ring's seed, and the number of virtual points per node. */
  datatype Config = Config(hash: string -> nat, virtual: nat)

  function Decimal(i: nat): string {
    if i < 10 then [('0' as int + i) as char] else Decimal(i / 10) + [('0' as int + i % 10) as char]
  }

  function VirtualId(id: string, i: nat): string {
    id + "_#" + Decimal(i)
  }

  function Number(s: string): int {
    if s == "" then 0 else 10 * Number(s[..|s| - 1]) + (s[|s| - 1] as int - '0' as int)
  }

  lemma {:induction false} NumberDecimal(i: nat)
    ensures Number(Decimal(i)) == i && Decimal(i) != ""
  {
    if i < 10 {
      assert Decimal(i)[..0] == "";
    } else {
      NumberDecimal(i / 10);
      assert Decimal(i)[..|Decimal(i)| - 1] == Decimal(i / 10);
    }
  }

  predicate IsDigit(ch: char) {
    '0' <= ch <= '9'
  }

  /** A virtual point's name: the node's, "_#", and the number in decimal digits without leading zeros. */
  lemma VirtualIdExact(id: string, i: nat)
    ensures var s := VirtualId(id, i);
            && |s| > |id| + 2 && s[..|id|] == id && s[|id|] == '_' && s[|id| + 1] == '#'
            && Number(s[|id| + 2..]) == i && (forall ch <- s[|id| + 2..] :: IsDigit(ch))
            && (s[|id| + 2] == '0' ==> i == 0)
  {
    DecimalDigits(i);
    NumberDecimal(i);
    assert VirtualId(id, i)[|id| + 2..] == Decimal(i);
  }

  lemma {:induction false} DecimalDigits(i: nat)
    ensures Decimal(i) != "" && (forall ch <- Decimal(i) :: IsDigit(ch)) && (Decimal(i)[0] == '0' ==> i == 0)
  {
    if i >= 10 {
      DecimalDigits(i / 10);
    }
  }

  /** The virtual points of a node have different names. */
  lemma VirtualIdInjective(id: string, i: nat, j: nat)
    requires VirtualId(id, i) == VirtualId(id, j)
    ensures i == j
  {
    assert VirtualId(id, i)[|id| + 2..] == Decimal(i) && VirtualId(id, j)[|id| + 2..] == Decimal(j);
    NumberDecimal(i);
    NumberDecimal(j);
  }

  function RealPoint(c: Config, id: string): Node {
    Real(id, c.hash(id))
  }

  function VirtualPoint(c: Config, id: string, i: nat): Node {
    Virtual(VirtualId(id, i), c.hash(VirtualId(id, i)), RealPoint(c, id))
  }

  function VirtualPoints(c: Config, id: string, n: nat): (r: seq<Node>)
    ensures |r| == n
  {
    seq(n, i requires 0 <= i => VirtualPoint(c, id, i))
  }

  /** The points of a node in the order `Add` inserts them. */
  function Points(c: Config, id: string): (r: seq<Node>)
    ensures |r| == c.virtual + 1
  {
    [RealPoint(c, id)] + VirtualPoints(c, id, c.virtual)
  }

  /** The points of a node in the order `Remove` looks for them. */
  function Departing(c: Config, id: string): (r: seq<Node>)
    ensures |r| == c.virtual + 1
  {
    VirtualPoints(c, id, c.virtual) + [RealPoint(c, id)]
  }

  ghost predicate Sorted(ns: seq<Node>) {
    forall i, j :: 0 <= i < j < |ns| ==> ns[i].hash <= ns[j].hash
  }

  /** The linear scan for the first point with a hash strictly greater than h. */
  function FirstAbove(ns: seq<Node>, h: nat): (i: nat)
    ensures i <= |ns|
    ensures forall j :: 0 <= j < i ==> ns[j].hash <= h
    ensures i < |ns| ==> ns[i].hash > h
  {
    if ns == [] || ns[0].hash > h then 0 else 1 + FirstAbove(ns[1..], h)
  }

  /** The owner of a key: that point's node, or the last point's when no point is above the key. */
  function Lookup(ns: seq<Node>, h: nat): Node
    requires ns != []
  {
    var i := FirstAbove(ns, h);
    ns[if i == |ns| then |ns| - 1 else i].Owner()
  }

  function Insert(ns: seq<Node>, nd: Node): seq<Node> {
    var i := FirstAbove(ns, nd.hash);
    ns[..i] + [nd] + ns[i..]
  }

  /** Removes the last point with hash h, if there is one. */
  function Drop(ns: seq<Node>, h: nat): seq<Node> {
    var i := FirstAbove(ns, h);
    if i == 0 || ns[i - 1].hash != h then ns else ns[..i - 1] + ns[i..]
  }

  function InsertAll(ns: seq<Node>, pts: seq<Node>): seq<Node>
    decreases |pts|
  {
    if pts == [] then ns else Insert(InsertAll(ns, pts[..|pts| - 1]), pts[|pts| - 1])
  }

  function DropAll(ns: seq<Node>, pts: seq<Node>): seq<Node>
    decreases |pts|
  {
    if pts == [] then ns else Drop(DropAll(ns, pts[..|pts| - 1]), pts[|pts| - 1].hash)
  }

  /** The ring and the ids of `nodeMap`. */
  datatype State = State(nodes: seq<Node>, ids: set<string>)

  datatype Op = Add(id: string) | Remove(id: string)

  const Empty := State([], {})

  function Step(c: Config, st: State, op: Op): State {
    match op
    case Add(id) => if id in st.ids then st else State(InsertAll(st.nodes, Points(c, id)), st.ids + {id})
    case Remove(id) => if id !in st.ids then st else State(DropAll(st.nodes, Departing(c, id)), st.ids - {id})
  }

  function Run(c: Config, ops: seq<Op>): State
    decreases |ops|
  {
    if ops == [] then Empty else Step(c, Run(c, ops[..|ops| - 1]), ops[|ops| - 1])
  }

  lemma FirstAboveUnique(ns: seq<Node>, h: nat, i: nat)
    requires Sorted(ns) && i <= |ns|
    requires i > 0 ==> ns[i - 1].hash <= h
    requires i < |ns| ==> ns[i].hash > h
    ensures FirstAbove(ns, h) == i
  {}

  /** Who answers for a key: the node of the one point above it with none above it before, or, when no point is above
      it, the node of the last point. */
  lemma LookupExact(ns: seq<Node>, h: nat, i: nat)
    requires i < |ns| && forall j :: 0 <= j < i ==> ns[j].hash <= h
    requires ns[i].hash > h || i == |ns| - 1
    ensures Lookup(ns, h) == if ns[i].Virtual? then ns[i].realNode else ns[i]
  {
    var k := FirstAbove(ns, h);
    assert k >= i;
  }

  lemma InsertSorted(ns: seq<Node>, nd: Node)
    requires Sorted(ns)
    ensures Sorted(Insert(ns, nd))
  {}

  lemma DropSorted(ns: seq<Node>, h: nat)
    requires Sorted(ns)
    ensures Sorted(Drop(ns, h))
  {}

  lemma {:induction false} InsertAllSorted(ns: seq<Node>, pts: seq<Node>)
    requires Sorted(ns)
    ensures Sorted(InsertAll(ns, pts))
    decreases |pts|
  {
    if pts != [] {
      InsertAllSorted(ns, pts[..|pts| - 1]);
      InsertSorted(InsertAll(ns, pts[..|pts| - 1]), pts[|pts| - 1]);
    }
  }

  lemma {:induction false} DropAllSorted(ns: seq<Node>, pts: seq<Node>)
    requires Sorted(ns)
    ensures Sorted(DropAll(ns, pts))
    decreases |pts|
  {
    if pts != [] {
      DropAllSorted(ns, pts[..|pts| - 1]);
      DropSorted(DropAll(ns, pts[..|pts| - 1]), pts[|pts| - 1].hash);
    }
  }

  // A sorted ring is determined by its hash classes, and within a class insertion and removal are last in, first out.

  function Class(ns: seq<Node>, h: nat): seq<Node> {
    if ns == [] then [] else (if ns[0].hash == h then [ns[0]] else []) + Class(ns[1..], h)
  }

  lemma {:induction false} ClassConcat(a: seq<Node>, b: seq<Node>, h: nat)
    ensures Class(a + b, h) == Class(a, h) + Class(b, h)
  {
    if a == [] {
      assert a + b == b;
    } else {
      assert (a + b)[0] == a[0] && (a + b)[1..] == a[1..] + b;
      ClassConcat(a[1..], b, h);
      var x := if a[0].hash == h then [a[0]] else [];
      assert x + (Class(a[1..], h) + Class(b, h)) == x + Class(a[1..], h) + Class(b, h);
    }
  }

  lemma {:induction false} ClassAbsent(ns: seq<Node>, h: nat)
    requires forall i :: 0 <= i < |ns| ==> ns[i].hash != h
    ensures Class(ns, h) == []
  {
    if ns != [] {
      ClassAbsent(ns[1..], h);
    }
  }

  lemma {:induction false} ClassMembers(ns: seq<Node>, h: nat, nd: Node)
    ensures nd in Class(ns, h) <==> nd in ns && nd.hash == h
  {
    if ns != [] {
      ClassMembers(ns[1..], h, nd);
      assert ns == [ns[0]] + ns[1..];
    }
  }

  lemma InsertClass(ns: seq<Node>, nd: Node, h: nat)
    requires Sorted(ns)
    ensures Class(Insert(ns, nd), h) == Class(ns, h) + (if nd.hash == h then [nd] else [])
  {
    hide Sorted, FirstAbove;
    var i := FirstAbove(ns, nd.hash);
    ClassConcat(ns[..i], ns[i..], h);
    ClassConcat(ns[..i] + [nd], ns[i..], h);
    ClassConcat(ns[..i], [nd], h);
    assert ns == ns[..i] + ns[i..];
    if nd.hash == h {
      AboveFirst(ns, h);
      ClassAbsent(ns[i..], h);
    }
  }

  lemma AboveFirst(ns: seq<Node>, h: nat)
    requires Sorted(ns)
    ensures forall j :: FirstAbove(ns, h) <= j < |ns| ==> ns[j].hash > h
  {
    var i := FirstAbove(ns, h);
    forall j | i <= j < |ns| ensures ns[j].hash > h {
      assert i < j ==> ns[i].hash <= ns[j].hash;
    }
  }

  /** Where the last point with hash g sits. */
  lemma DropSplit(ns: seq<Node>, g: nat) returns (a: seq<Node>, m: Node, b: seq<Node>)
    requires Sorted(ns) && Class(ns, g) != []
    ensures ns == a + [m] + b && Drop(ns, g) == a + b && |a| + 1 == FirstAbove(ns, g)
    ensures m.hash == g && forall i :: 0 <= i < |b| ==> b[i].hash > g
  {
    hide Class, Sorted;
    var i := FirstAbove(ns, g);
    LastOfClass(ns, g);
    AboveFirst(ns, g);
    a, m, b := ns[..i - 1], ns[i - 1], ns[i..];
    assert ns == a + [m] + b;
  }

  lemma LastOfClass(ns: seq<Node>, g: nat)
    requires Sorted(ns) && Class(ns, g) != []
    ensures FirstAbove(ns, g) > 0 && ns[FirstAbove(ns, g) - 1].hash == g
  {
    var i, x := FirstAbove(ns, g), Class(ns, g)[0];
    ClassMembers(ns, g, x);
    var k :| 0 <= k < |ns| && ns[k] == x;
    AboveFirst(ns, g);
    assert k < i - 1 ==> ns[k].hash <= ns[i - 1].hash;
  }

  lemma DropClass(ns: seq<Node>, g: nat, h: nat)
    requires Sorted(ns) && Class(ns, g) != []
    ensures g == h ==> Class(Drop(ns, g), h) == Class(ns, h)[..|Class(ns, h)| - 1]
    ensures g != h ==> Class(Drop(ns, g), h) == Class(ns, h)
  {
    var a, m, b := DropSplit(ns, g);
    ClassConcat(a + [m], b, h);
    ClassConcat(a, [m], h);
    ClassConcat(a, b, h);
    if g == h {
      ClassAbsent(b, g);
    }
  }

  lemma ClassHead(ns: seq<Node>)
    requires Sorted(ns) && ns != []
    ensures forall h: nat :: h < ns[0].hash ==> Class(ns, h) == []
  {
    forall h: nat | h < ns[0].hash ensures Class(ns, h) == [] {
      ClassAbsent(ns, h);
    }
  }

  ghost predicate SameClasses(a: seq<Node>, b: seq<Node>) {
    forall h: nat :: Class(a, h) == Class(b, h)
  }

  lemma ClassOfHead(ns: seq<Node>)
    requires ns != []
    ensures Class(ns, ns[0].hash) != [] && Class(ns, ns[0].hash)[0] == ns[0]
  {}

  lemma SameHead(a: seq<Node>, b: seq<Node>)
    requires Sorted(a) && Sorted(b) && SameClasses(a, b) && a != [] && b != []
    ensures a[0] == b[0]
  {
    hide Class;
    ClassOfHead(a);
    ClassOfHead(b);
    ClassHead(a);
    ClassHead(b);
    assert Class(a, a[0].hash) == Class(b, a[0].hash);
    assert Class(a, b[0].hash) == Class(b, b[0].hash);
  }

  lemma SameTails(a: seq<Node>, b: seq<Node>)
    requires SameClasses(a, b) && a != [] && b != [] && a[0] == b[0]
    ensures SameClasses(a[1..], b[1..])
  {
    forall h: nat ensures Class(a[1..], h) == Class(b[1..], h) {
      var k := if a[0].hash == h then 1 else 0;
      assert Class(a, h)[k..] == Class(a[1..], h);
      assert Class(b, h)[k..] == Class(b[1..], h);
      assert Class(a, h) == Class(b, h);
    }
  }

  lemma {:induction false} ClassesDetermine(a: seq<Node>, b: seq<Node>)
    requires Sorted(a) && Sorted(b) && SameClasses(a, b)
    ensures a == b
    decreases |a|
  {
    if a == [] || b == [] {
      assert a == [] || Class(a, a[0].hash) == Class(b, a[0].hash);
      assert b == [] || Class(a, b[0].hash) == Class(b, b[0].hash);
    } else {
      hide Class;
      SameHead(a, b);
      SameTails(a, b);
      ClassesDetermine(a[1..], b[1..]);
      assert a == [a[0]] + a[1..] && b == [b[0]] + b[1..];
    }
  }

  lemma {:induction false} InsertAllClass(ns: seq<Node>, pts: seq<Node>, h: nat)
    requires Sorted(ns)
    ensures Class(InsertAll(ns, pts), h) == Class(ns, h) + Class(pts, h)
    decreases |pts|
  {
    if pts != [] {
      var init, last := pts[..|pts| - 1], pts[|pts| - 1];
      InsertAllClass(ns, init, h);
      InsertAllSorted(ns, init);
      InsertClass(InsertAll(ns, init), last, h);
      assert pts == init + [last];
      ClassConcat(init, [last], h);
    }
  }

  /** The ring holds, class by class, at least as many points as are asked for. */
  ghost predicate Covers(ns: seq<Node>, pts: seq<Node>) {
    forall h :: |Class(pts, h)| <= |Class(ns, h)|
  }

  lemma {:induction false} DropAllClass(ns: seq<Node>, pts: seq<Node>, h: nat)
    requires Sorted(ns) && Covers(ns, pts)
    ensures |Class(pts, h)| <= |Class(ns, h)|
    ensures Class(DropAll(ns, pts), h) == Class(ns, h)[..|Class(ns, h)| - |Class(pts, h)|]
    decreases |pts|
  {
    assert |Class(pts, h)| <= |Class(ns, h)|;
    if pts != [] {
      var init, last := pts[..|pts| - 1], pts[|pts| - 1];
      assert pts == init + [last];
      CoversInit(ns, init, last);
      DropAllClass(ns, init, h);
      DropAllClass(ns, init, last.hash);
      DropAllSorted(ns, init);
      ClassConcat(init, [last], h);
      ClassConcat(init, [last], last.hash);
      assert |Class(pts, last.hash)| <= |Class(ns, last.hash)|;
      DropClass(DropAll(ns, init), last.hash, h);
    }
  }

  lemma CoversInit(ns: seq<Node>, init: seq<Node>, last: Node)
    requires Covers(ns, init + [last])
    ensures Covers(ns, init)
  {
    forall h ensures |Class(init, h)| <= |Class(ns, h)| {
      ClassConcat(init, [last], h);
      assert |Class(init + [last], h)| <= |Class(ns, h)|;
    }
  }

  /** Removing in any order the points just inserted restores the ring, element for element. */
  lemma DropAllInsertAll(ns: seq<Node>, pts: seq<Node>, out: seq<Node>)
    requires Sorted(ns) && forall h :: |Class(out, h)| == |Class(pts, h)|
    ensures DropAll(InsertAll(ns, pts), out) == ns
  {
    var full := InsertAll(ns, pts);
    InsertAllSorted(ns, pts);
    assert Covers(full, out) by {
      forall h ensures |Class(out, h)| <= |Class(full, h)| {
        InsertAllClass(ns, pts, h);
      }
    }
    DropAllSorted(full, out);
    forall h ensures Class(DropAll(full, out), h) == Class(ns, h) {
      InsertAllClass(ns, pts, h);
      DropAllClass(full, out, h);
    }
    ClassesDetermine(DropAll(full, out), ns);
  }

  lemma DepartingClass(c: Config, id: string, h: nat)
    ensures |Class(Departing(c, id), h)| == |Class(Points(c, id), h)|
    ensures forall nd :: nd in Departing(c, id) <==> nd in Points(c, id)
  {
    ClassConcat([RealPoint(c, id)], VirtualPoints(c, id, c.virtual), h);
    ClassConcat(VirtualPoints(c, id, c.virtual), [RealPoint(c, id)], h);
  }

  /** `Remove(id)` right after a successful `Add(id)` undoes it, whatever collides with whatever. */
  lemma RemoveUndoesAdd(c: Config, st: State, id: string)
    requires Sorted(st.nodes) && id !in st.ids
    ensures Step(c, Step(c, st, Add(id)), Remove(id)) == st
  {
    forall h ensures |Class(Departing(c, id), h)| == |Class(Points(c, id), h)| {
      DepartingClass(c, id, h);
    }
    DropAllInsertAll(st.nodes, Points(c, id), Departing(c, id));
  }

  // Who owns a key.

  lemma LookupInsert(ns: seq<Node>, nd: Node, h: nat)
    requires Sorted(ns) && ns != []
    ensures Lookup(Insert(ns, nd), h) == Lookup(ns, h) || Lookup(Insert(ns, nd), h) == nd.Owner()
  {
    var i, k := FirstAbove(ns, nd.hash), FirstAbove(ns, h);
    var ns' := Insert(ns, nd);
    InsertSorted(ns, nd);
    if nd.hash <= h {
      FirstAboveUnique(ns', h, k + 1);
    } else if i <= k {
      FirstAboveUnique(ns', h, i);
    } else {
      FirstAboveUnique(ns', h, k);
    }
  }

  lemma {:induction false} LookupInsertAll(ns: seq<Node>, pts: seq<Node>, owner: Node, h: nat)
    requires Sorted(ns) && ns != [] && forall p <- pts :: p.Owner() == owner
    ensures InsertAll(ns, pts) != []
    ensures Lookup(InsertAll(ns, pts), h) == Lookup(ns, h) || Lookup(InsertAll(ns, pts), h) == owner
    decreases |pts|
  {
    if pts != [] {
      LookupInsertAll(ns, pts[..|pts| - 1], owner, h);
      InsertAllSorted(ns, pts[..|pts| - 1]);
      LookupInsert(InsertAll(ns, pts[..|pts| - 1]), pts[|pts| - 1], h);
    }
  }

  /** Adding a node moves keys to that node only. */
  lemma Monotone(c: Config, st: State, id: string, h: nat)
    requires Sorted(st.nodes) && st.nodes != []
    ensures var st' := Step(c, st, Add(id));
            && st'.nodes != []
            && (Lookup(st'.nodes, h) == Lookup(st.nodes, h) || Lookup(st'.nodes, h) == RealPoint(c, id))
  {
    if id !in st.ids {
      LookupInsertAll(st.nodes, Points(c, id), RealPoint(c, id), h);
    }
  }
}
