/** Accounting and ownership over whole runs of the ring. */
module RingOwners {
  import opened RingSpec

  // How many points carry each hash.

  /** How many points with hash h the nodes `ids` contribute. */
  ghost function Load(c: Config, ids: set<string>, h: nat): nat {
    if ids == {} then 0
    else
      var id :| id in ids;
      |Class(Points(c, id), h)| + Load(c, ids - {id}, h)
  }

  lemma {:induction false} LoadPick(c: Config, ids: set<string>, id: string, h: nat)
    requires id in ids
    ensures Load(c, ids, h) == |Class(Points(c, id), h)| + Load(c, ids - {id}, h)
    decreases ids
  {
    var x :| x in ids && Load(c, ids, h) == |Class(Points(c, x), h)| + Load(c, ids - {x}, h);
    if x != id {
      LoadPick(c, ids - {x}, id, h);
      LoadPick(c, ids - {id}, x, h);
      assert ids - {x} - {id} == ids - {id} - {x};
    }
  }

  /** The ring holds exactly the hashes recorded for the nodes in `nodeMap`, in order. */
  ghost predicate Accounted(c: Config, st: State) {
    && Sorted(st.nodes)
    && (forall h :: |Class(st.nodes, h)| == Load(c, st.ids, h))
    && |st.nodes| == (c.virtual + 1) * |st.ids|
  }

  lemma {:induction false} InsertAllLength(ns: seq<Node>, pts: seq<Node>)
    ensures |InsertAll(ns, pts)| == |ns| + |pts|
    decreases |pts|
  {
    if pts != [] {
      InsertAllLength(ns, pts[..|pts| - 1]);
    }
  }

  /** After the first k points have been taken out, the next one is still there. */
  lemma NextPresent(ns: seq<Node>, pts: seq<Node>, k: nat)
    requires Sorted(ns) && Covers(ns, pts) && k < |pts|
    ensures Sorted(DropAll(ns, pts[..k])) && Class(DropAll(ns, pts[..k]), pts[k].hash) != []
  {
    var h := pts[k].hash;
    assert pts == pts[..k] + [pts[k]] + pts[k + 1..];
    CoversPrefix(ns, pts, k);
    DropAllSorted(ns, pts[..k]);
    DropAllClass(ns, pts[..k], h);
    ClassConcat(pts[..k], [pts[k]], h);
    ClassConcat(pts[..k] + [pts[k]], pts[k + 1..], h);
    assert |Class(pts, h)| <= |Class(ns, h)|;
  }

  lemma CoversPrefix(ns: seq<Node>, pts: seq<Node>, k: nat)
    requires Covers(ns, pts) && k <= |pts|
    ensures Covers(ns, pts[..k])
  {
    forall h ensures |Class(pts[..k], h)| <= |Class(ns, h)| {
      assert pts == pts[..k] + pts[k..];
      ClassConcat(pts[..k], pts[k..], h);
      assert |Class(pts, h)| <= |Class(ns, h)|;
    }
  }

  lemma {:induction false} DropAllLength(ns: seq<Node>, pts: seq<Node>)
    requires Sorted(ns) && Covers(ns, pts)
    ensures |DropAll(ns, pts)| == |ns| - |pts|
    decreases |pts|
  {
    if pts != [] {
      var k := |pts| - 1;
      CoversPrefix(ns, pts, k);
      DropAllLength(ns, pts[..k]);
      NextPresent(ns, pts, k);
      var _, _, _ := DropSplit(DropAll(ns, pts[..k]), pts[k].hash);
    }
  }

  lemma AccountedCovers(c: Config, st: State, id: string)
    requires Accounted(c, st) && id in st.ids
    ensures Covers(st.nodes, Departing(c, id))
  {
    forall h ensures |Class(Departing(c, id), h)| <= |Class(st.nodes, h)| {
      DepartingClass(c, id, h);
      LoadPick(c, st.ids, id, h);
      assert |Class(st.nodes, h)| == Load(c, st.ids, h);
    }
  }

  lemma AccountedAdd(c: Config, st: State, id: string)
    requires Accounted(c, st) && id !in st.ids
    ensures Accounted(c, Step(c, st, Add(id)))
  {
    hide Points, Class, Load, InsertAll;
    var st' := Step(c, st, Add(id));
    InsertAllSorted(st.nodes, Points(c, id));
    InsertAllLength(st.nodes, Points(c, id));
    assert st'.ids - {id} == st.ids;
    MulSucc(c.virtual + 1, |st.ids|);
    forall h ensures |Class(st'.nodes, h)| == Load(c, st'.ids, h) {
      InsertAllClass(st.nodes, Points(c, id), h);
      LoadPick(c, st'.ids, id, h);
      assert |Class(st.nodes, h)| == Load(c, st.ids, h);
    }
  }

  lemma AccountedRemove(c: Config, st: State, id: string)
    requires Accounted(c, st) && id in st.ids
    ensures Accounted(c, Step(c, st, Remove(id)))
  {
    hide Points, Departing, Class, Load, DropAll;
    var st' := Step(c, st, Remove(id));
    AccountedCovers(c, st, id);
    DropAllSorted(st.nodes, Departing(c, id));
    DropAllLength(st.nodes, Departing(c, id));
    MulSucc(c.virtual + 1, |st.ids| - 1);
    forall h ensures |Class(st'.nodes, h)| == Load(c, st'.ids, h) {
      DropAllClass(st.nodes, Departing(c, id), h);
      DepartingClass(c, id, h);
      LoadPick(c, st.ids, id, h);
      assert |Class(st.nodes, h)| == Load(c, st.ids, h);
    }
  }

  lemma MulSucc(x: nat, n: nat)
    ensures x * (n + 1) == x * n + x
  {}

  lemma AccountedStep(c: Config, st: State, op: Op)
    requires Accounted(c, st)
    ensures Accounted(c, Step(c, st, op))
  {
    hide Accounted;
    if op.Add? && op.id !in st.ids {
      AccountedAdd(c, st, op.id);
    } else if op.Remove? && op.id in st.ids {
      AccountedRemove(c, st, op.id);
    }
  }

  /** Over every run of additions and removals, collisions or not, the ring is accounted for. */
  lemma {:induction false} RunAccounted(c: Config, ops: seq<Op>)
    ensures Accounted(c, Run(c, ops))
    decreases |ops|
  {
    if ops == [] {
      assert forall h :: Class([], h) == [];
    } else {
      RunAccounted(c, ops[..|ops| - 1]);
      AccountedStep(c, Run(c, ops[..|ops| - 1]), ops[|ops| - 1]);
    }
  }

  // Whose points they are.

  predicate Owns(id: string, nd: Node) {
    nd.Owner().val == id
  }

  function Mine(ns: seq<Node>, id: string): seq<Node> {
    if ns == [] then [] else (if Owns(id, ns[0]) then [ns[0]] else []) + Mine(ns[1..], id)
  }

  function Others(ns: seq<Node>, id: string): seq<Node> {
    if ns == [] then [] else (if Owns(id, ns[0]) then [] else [ns[0]]) + Others(ns[1..], id)
  }

  /** Every point belongs to a known node, and every known node still has all its points. */
  ghost predicate Faithful(c: Config, st: State) {
    && (forall nd <- st.nodes :: nd.Owner().val in st.ids)
    && (forall id, h: nat :: id in st.ids ==> |Mine(Class(st.nodes, h), id)| == |Class(Points(c, id), h)|)
  }

  ghost predicate Free(ns: seq<Node>, id: string) {
    forall nd <- ns :: !Owns(id, nd)
  }

  /** Within a hash class, no other node's point comes behind a point of id. */
  ghost predicate Hindmost(ns: seq<Node>, id: string) {
    forall i, j :: 0 <= i < j < |ns| && Owns(id, ns[i]) ==> Owns(id, ns[j])
  }

  ghost predicate Uncovered(ns: seq<Node>, id: string) {
    forall h: nat :: Hindmost(Class(ns, h), id)
  }

  lemma {:induction false} MineLength(ns: seq<Node>, id: string)
    ensures |Mine(ns, id)| <= |ns|
    ensures |Mine(ns, id)| == |ns| <==> forall nd <- ns :: Owns(id, nd)
    ensures Mine(ns, id) == [] <==> forall nd <- ns :: !Owns(id, nd)
  {
    if ns != [] {
      MineLength(ns[1..], id);
      assert ns == [ns[0]] + ns[1..];
    }
  }

  lemma {:induction false} MineConcat(a: seq<Node>, b: seq<Node>, id: string)
    ensures Mine(a + b, id) == Mine(a, id) + Mine(b, id)
  {
    hide Owns;
    if a == [] {
      assert a + b == b;
    } else {
      assert (a + b)[0] == a[0] && (a + b)[1..] == a[1..] + b;
      MineConcat(a[1..], b, id);
      var x := Mine([a[0]], id);
      assert x + (Mine(a[1..], id) + Mine(b, id)) == x + Mine(a[1..], id) + Mine(b, id);
    }
  }

  lemma {:induction false} OthersConcat(a: seq<Node>, b: seq<Node>, id: string)
    ensures Others(a + b, id) == Others(a, id) + Others(b, id)
  {
    hide Owns;
    if a == [] {
      assert a + b == b;
    } else {
      assert (a + b)[0] == a[0] && (a + b)[1..] == a[1..] + b;
      OthersConcat(a[1..], b, id);
      var x := Others([a[0]], id);
      assert x + (Others(a[1..], id) + Others(b, id)) == x + Others(a[1..], id) + Others(b, id);
    }
  }

  lemma {:induction false} OthersMembers(ns: seq<Node>, id: string, nd: Node)
    ensures nd in Others(ns, id) <==> nd in ns && !Owns(id, nd)
  {
    if ns != [] {
      OthersMembers(ns[1..], id, nd);
      assert ns == [ns[0]] + ns[1..];
    }
  }

  /** Cutting off as many points as id owns leaves none of id's, and all the others, exactly when id's come last. */
  lemma {:induction false} CutMine(ns: seq<Node>, id: string)
    ensures |Mine(ns, id)| <= |ns|
    ensures var cut := ns[..|ns| - |Mine(ns, id)|];
            && (Free(cut, id) <==> Hindmost(ns, id))
            && (Hindmost(ns, id) ==> cut == Others(ns, id))
  {
    hide Owns, Hindmost;
    MineLength(ns, id);
    if ns != [] {
      var x, rest := ns[0], ns[1..];
      CutMine(rest, id);
      MineLength(rest, id);
      var n := |ns| - |Mine(ns, id)|;
      if Owns(id, x) {
        HindmostOwned(ns, id);
        if |Mine(ns, id)| == |ns| {
          OthersNone(ns, id);
        } else {
          assert ns[..n][0] == x;
        }
      } else {
        HindmostRest(ns, id);
        assert ns[..n] == [x] + rest[..n - 1];
      }
    } else {
      HindmostRest(ns, id);
    }
  }

  lemma HindmostOwned(ns: seq<Node>, id: string)
    requires ns != [] && Owns(id, ns[0])
    ensures Hindmost(ns, id) <==> forall nd <- ns :: Owns(id, nd)
  {
    if Hindmost(ns, id) {
      assert forall j :: 0 < j < |ns| ==> Owns(id, ns[j]);
    }
  }

  lemma HindmostRest(ns: seq<Node>, id: string)
    requires ns == [] || !Owns(id, ns[0])
    ensures ns == [] ==> Hindmost(ns, id)
    ensures ns != [] ==> (Hindmost(ns, id) <==> Hindmost(ns[1..], id))
  {
    hide Owns;
    if ns != [] {
      var rest := ns[1..];
      if Hindmost(rest, id) {
        forall i, j | 0 <= i < j < |ns| && Owns(id, ns[i]) ensures Owns(id, ns[j]) {
          assert rest[i - 1] == ns[i] && rest[j - 1] == ns[j];
        }
      }
      if Hindmost(ns, id) {
        forall i, j | 0 <= i < j < |rest| && Owns(id, rest[i]) ensures Owns(id, rest[j]) {
          assert rest[i] == ns[i + 1] && rest[j] == ns[j + 1];
        }
      }
    }
  }

  lemma {:induction false} OthersNone(ns: seq<Node>, id: string)
    requires forall nd <- ns :: Owns(id, nd)
    ensures Others(ns, id) == []
  {
    if ns != [] {
      assert forall nd <- ns[1..] :: nd in ns;
      OthersNone(ns[1..], id);
    }
  }

  lemma {:induction false} OthersClass(ns: seq<Node>, id: string, h: nat)
    ensures Class(Others(ns, id), h) == Others(Class(ns, h), id)
  {
    hide Owns;
    if ns != [] {
      OthersClass(ns[1..], id, h);
      ClassConcat(if Owns(id, ns[0]) then [] else [ns[0]], Others(ns[1..], id), h);
      OthersConcat(if ns[0].hash == h then [ns[0]] else [], Class(ns[1..], h), id);
    }
  }

  lemma {:induction false} OthersSorted(ns: seq<Node>, id: string)
    requires Sorted(ns)
    ensures Sorted(Others(ns, id))
  {
    if ns != [] {
      var rest := Others(ns[1..], id);
      OthersSorted(ns[1..], id);
      forall i | 0 <= i < |rest| ensures ns[0].hash <= rest[i].hash {
        OthersMembers(ns[1..], id, rest[i]);
      }
    }
  }

  lemma {:induction false} MineOthers(ns: seq<Node>, id: string, other: string)
    requires id != other
    ensures Mine(Others(ns, id), other) == Mine(ns, other)
  {
    if ns != [] {
      MineOthers(ns[1..], id, other);
      MineConcat(if Owns(id, ns[0]) then [] else [ns[0]], Others(ns[1..], id), other);
    }
  }

  /** Every point of id is among the last n of the class. */
  ghost predicate Hind(ns: seq<Node>, id: string, n: nat) {
    forall i :: 0 <= i < |ns| && Owns(id, ns[i]) ==> i >= |ns| - n
  }

  /** In every hash class the points of id are among as many last ones as the node was added with. */
  ghost predicate AmongLast(c: Config, ns: seq<Node>, id: string) {
    forall h: nat :: Hind(Class(ns, h), id, |Class(Points(c, id), h)|)
  }

  /** In every reachable ring, removing a node leaves none of its points if and only if they are all among the last of
      their hash classes. While every node still has all its points, that is: if and only if none of them is covered
      by a later colliding point of another node; and then exactly the node's own points go. */
  lemma RemoveExact(c: Config, st: State, id: string)
    requires Accounted(c, st) && id in st.ids
    ensures var st' := Step(c, st, Remove(id));
            && (Free(st'.nodes, id) <==> AmongLast(c, st.nodes, id))
            && (Faithful(c, st) ==> (AmongLast(c, st.nodes, id) <==> Uncovered(st.nodes, id)))
            && (Faithful(c, st) && Uncovered(st.nodes, id) ==> st'.nodes == Others(st.nodes, id))
  {
    hide Accounted, Faithful, Free, AmongLast, Uncovered, Others;
    RemoveAny(c, st, id);
    if Faithful(c, st) {
      RemoveFaithful(c, st, id);
    }
  }

  lemma RemoveAny(c: Config, st: State, id: string)
    requires Accounted(c, st) && id in st.ids
    ensures Free(Step(c, st, Remove(id)).nodes, id) <==> AmongLast(c, st.nodes, id)
  {
    hide Class, Points, Owns, DropAll, Departing, Load, Free, Hind;
    var ns, ns' := st.nodes, DropAll(st.nodes, Departing(c, id));
    AccountedCovers(c, st, id);
    forall h: nat ensures Free(Class(ns', h), id) <==> Hind(Class(ns, h), id, |Class(Points(c, id), h)|) {
      DropAllClass(ns, Departing(c, id), h);
      DepartingClass(c, id, h);
      CutHind(Class(ns, h), id, |Class(Points(c, id), h)|);
    }
    if Free(ns', id) {
      forall h: nat ensures Hind(Class(ns, h), id, |Class(Points(c, id), h)|) {
        FreeClass(ns', id, h);
      }
    }
    if AmongLast(c, ns, id) {
      forall h: nat ensures Free(Class(ns', h), id) {
        assert Hind(Class(ns, h), id, |Class(Points(c, id), h)|);
      }
      FreeClasses(ns', id);
    }
  }

  lemma CutHind(ns: seq<Node>, id: string, n: nat)
    requires n <= |ns|
    ensures Free(ns[..|ns| - n], id) <==> Hind(ns, id, n)
  {
    var cut := ns[..|ns| - n];
    if Free(cut, id) {
      assert forall i :: 0 <= i < |cut| ==> ns[i] == cut[i] && cut[i] in cut;
    }
    if Hind(ns, id, n) {
      assert forall i :: 0 <= i < |cut| ==> cut[i] == ns[i];
    }
  }

  lemma RemoveFaithful(c: Config, st: State, id: string)
    requires Accounted(c, st) && Faithful(c, st) && id in st.ids
    ensures var st' := Step(c, st, Remove(id));
            && (Free(st'.nodes, id) <==> Uncovered(st.nodes, id))
            && (Uncovered(st.nodes, id) ==> st'.nodes == Others(st.nodes, id))
  {
    hide Class, Points, Owns, Hindmost, DropAll, Departing, Load, Free;
    var ns, ns' := st.nodes, DropAll(st.nodes, Departing(c, id));
    AccountedCovers(c, st, id);
    DropAllSorted(ns, Departing(c, id));
    OthersSorted(ns, id);
    forall h: nat
      ensures Free(Class(ns', h), id) <==> Hindmost(Class(ns, h), id)
      ensures Hindmost(Class(ns, h), id) ==> Class(ns', h) == Class(Others(ns, id), h)
    {
      DropAllClass(ns, Departing(c, id), h);
      DepartingClass(c, id, h);
      assert |Mine(Class(ns, h), id)| == |Class(Points(c, id), h)|;
      CutMine(Class(ns, h), id);
      OthersClass(ns, id, h);
    }
    if Free(ns', id) {
      forall h: nat ensures Hindmost(Class(ns, h), id) {
        FreeClass(ns', id, h);
      }
    }
    if Uncovered(ns, id) {
      forall h: nat ensures Free(Class(ns', h), id) && Class(ns', h) == Class(Others(ns, id), h) {
        assert Hindmost(Class(ns, h), id);
      }
      FreeClasses(ns', id);
      ClassesDetermine(ns', Others(ns, id));
    }
  }

  lemma FreeClass(ns: seq<Node>, id: string, h: nat)
    requires Free(ns, id)
    ensures Free(Class(ns, h), id)
  {
    forall nd | nd in Class(ns, h) ensures !Owns(id, nd) {
      ClassMembers(ns, h, nd);
    }
  }

  lemma FreeClasses(ns: seq<Node>, id: string)
    requires forall h: nat :: Free(Class(ns, h), id)
    ensures Free(ns, id)
  {
    forall nd | nd in ns ensures !Owns(id, nd) {
      ClassMembers(ns, nd.hash, nd);
      assert Free(Class(ns, nd.hash), id);
    }
  }

  lemma LookupOthers(ns: seq<Node>, id: string, h: nat)
    requires Sorted(ns) && ns != [] && Lookup(ns, h).val != id
    ensures Others(ns, id) != [] && Lookup(Others(ns, id), h) == Lookup(ns, h)
  {
    hide Sorted;
    var i := FirstAbove(ns, h);
    var k := if i == |ns| then |ns| - 1 else i;
    var a, m, b := ns[..k], ns[k], ns[k + 1..];
    assert ns == a + [m] + b;
    OthersSplit(a, m, b, id);
    OthersSorted(ns, id);
    OthersBelow(a, id, h);
    FirstAboveUnique(Others(ns, id), h, if i == |ns| then |Others(a, id)| + 1 else |Others(a, id)|);
  }

  lemma OthersSplit(a: seq<Node>, m: Node, b: seq<Node>, id: string)
    requires !Owns(id, m)
    ensures Others(a + [m] + b, id) == Others(a, id) + [m] + Others(b, id)
    ensures b == [] ==> Others(b, id) == []
  {
    OthersConcat(a + [m], b, id);
    OthersConcat(a, [m], id);
  }

  lemma OthersBelow(ns: seq<Node>, id: string, h: nat)
    requires forall i :: 0 <= i < |ns| ==> ns[i].hash <= h
    ensures forall i :: 0 <= i < |Others(ns, id)| ==> Others(ns, id)[i].hash <= h
  {
    forall i | 0 <= i < |Others(ns, id)| ensures Others(ns, id)[i].hash <= h {
      OthersMembers(ns, id, Others(ns, id)[i]);
    }
  }

  /** When none of id's points is covered, removing it moves only the keys it owned; the rest keep their owner,
      and the ring stays faithful. */
  lemma RemoveLocal(c: Config, st: State, id: string, h: nat)
    requires Accounted(c, st) && Faithful(c, st) && id in st.ids && Uncovered(st.nodes, id)
    ensures Faithful(c, Step(c, st, Remove(id)))
    ensures st.nodes != [] && Lookup(st.nodes, h).val != id ==>
              var ns := Step(c, st, Remove(id)).nodes;
              ns != [] && Lookup(ns, h) == Lookup(st.nodes, h)
  {
    hide Class, Points, Hindmost, DropAll, Departing, Load, Uncovered, Lookup;
    RemoveFaithful(c, st, id);
    if st.nodes != [] && Lookup(st.nodes, h).val != id {
      LookupOthers(st.nodes, id, h);
    }
    var st' := Step(c, st, Remove(id));
    forall nd | nd in st'.nodes ensures nd.Owner().val in st'.ids {
      OthersMembers(st.nodes, id, nd);
    }
    forall x, g: nat | x in st'.ids ensures |Mine(Class(st'.nodes, g), x)| == |Class(Points(c, x), g)| {
      OthersClass(st.nodes, id, g);
      MineOthers(Class(st.nodes, g), id, x);
      assert |Mine(Class(st.nodes, g), x)| == |Class(Points(c, x), g)|;
    }
  }

  lemma PointsOwned(c: Config, id: string, h: nat)
    ensures forall nd <- Points(c, id) :: Owns(id, nd)
    ensures Mine(Class(Points(c, id), h), id) == Class(Points(c, id), h)
    ensures forall x :: x != id ==> Mine(Class(Points(c, id), h), x) == []
  {
    var pts := Class(Points(c, id), h);
    forall nd | nd in pts ensures Owns(id, nd) {
      ClassMembers(Points(c, id), h, nd);
    }
    MineAll(pts, id);
    forall x | x != id ensures Mine(pts, x) == [] {
      MineLength(pts, x);
    }
  }

  lemma {:induction false} MineAll(ns: seq<Node>, id: string)
    requires forall nd <- ns :: Owns(id, nd)
    ensures Mine(ns, id) == ns
  {
    if ns != [] {
      assert forall nd <- ns[1..] :: nd in ns;
      MineAll(ns[1..], id);
    }
  }

  /** Adding a node always keeps the ring faithful. */
  lemma AddFaithful(c: Config, st: State, id: string)
    requires Accounted(c, st) && Faithful(c, st) && id !in st.ids
    ensures Faithful(c, Step(c, st, Add(id)))
  {
    hide Class, Points, InsertAll, Load, Owns, Sorted;
    var st' := Step(c, st, Add(id));
    forall nd | nd in st'.nodes ensures nd.Owner().val in st'.ids {
      InsertAllClass(st.nodes, Points(c, id), nd.hash);
      ClassMembers(st'.nodes, nd.hash, nd);
      ClassMembers(st.nodes, nd.hash, nd);
      ClassMembers(Points(c, id), nd.hash, nd);
      PointsOwned(c, id, nd.hash);
      OwnsIs(id, nd);
    }
    forall x, h: nat | x in st'.ids ensures |Mine(Class(st'.nodes, h), x)| == |Class(Points(c, x), h)| {
      InsertAllClass(st.nodes, Points(c, id), h);
      MineConcat(Class(st.nodes, h), Class(Points(c, id), h), x);
      PointsOwned(c, id, h);
      if x == id {
        NoneOwned(st, id, h);
      } else {
        assert |Mine(Class(st.nodes, h), x)| == |Class(Points(c, x), h)|;
      }
    }
  }

  lemma OwnsIs(id: string, nd: Node)
    ensures Owns(id, nd) <==> nd.Owner().val == id
  {}

  lemma NoneOwned(st: State, id: string, h: nat)
    requires (forall nd <- st.nodes :: nd.Owner().val in st.ids) && id !in st.ids
    ensures Mine(Class(st.nodes, h), id) == []
  {
    forall nd | nd in Class(st.nodes, h) ensures !Owns(id, nd) {
      ClassMembers(st.nodes, h, nd);
    }
    MineLength(Class(st.nodes, h), id);
  }

  /** No point of one of the two nodes has the hash of a point of the other. */
  ghost predicate Apart(c: Config, x: string, y: string) {
    forall p <- Points(c, x), q <- Points(c, y) :: p.hash != q.hash
  }

  lemma FaithfulLookup(c: Config, st: State)
    ensures Faithful(c, st) && st.nodes != [] ==> forall h: nat :: Lookup(st.nodes, h).val in st.ids
  {}

  lemma EmptyFaithful(c: Config)
    ensures Faithful(c, Empty)
  {}

  // Which later nodes cover a point.

  lemma ApartClasses(c: Config, x: string, y: string)
    ensures Apart(c, x, y) <==> forall h: nat :: Class(Points(c, x), h) == [] || Class(Points(c, y), h) == []
  {
    hide Points, Class;
    if Apart(c, x, y) {
      forall h: nat ensures Class(Points(c, x), h) == [] || Class(Points(c, y), h) == [] {
        ClassHashes(Points(c, x), h);
        ClassHashes(Points(c, y), h);
      }
    } else {
      var p, q :| p in Points(c, x) && q in Points(c, y) && p.hash == q.hash;
      ClassMembers(Points(c, x), p.hash, p);
      ClassMembers(Points(c, y), p.hash, q);
      assert Class(Points(c, x), p.hash) != [] && Class(Points(c, y), p.hash) != [];
    }
  }

  lemma ClassHashes(ns: seq<Node>, h: nat)
    ensures Class(ns, h) != [] <==> exists nd <- ns :: nd.hash == h
  {
    hide Class;
    if Class(ns, h) != [] {
      ClassMembers(ns, h, Class(ns, h)[0]);
    }
    if exists nd <- ns :: nd.hash == h {
      var nd :| nd in ns && nd.hash == h;
      ClassMembers(ns, h, nd);
    }
  }

  /** Other points behind cover a class exactly if it holds a point of id. */
  lemma HindmostConcat(a: seq<Node>, b: seq<Node>, id: string)
    requires Free(b, id)
    ensures Hindmost(a + b, id) <==> Hindmost(a, id) && (b == [] || Free(a, id))
  {
    hide Owns;
    assert forall i :: 0 <= i < |a| ==> (a + b)[i] == a[i];
    assert forall i :: 0 <= i < |b| ==> (a + b)[|a| + i] == b[i];
    if Hindmost(a + b, id) {
      assert forall i, j :: 0 <= i < j < |a| && Owns(id, a[i]) ==> Owns(id, (a + b)[j]);
      if b != [] {
        assert !Owns(id, (a + b)[|a|]) by { assert b[0] in b; }
        assert forall i :: 0 <= i < |a| ==> !Owns(id, (a + b)[i]);
      }
    }
    if Hindmost(a, id) && b == [] {
      assert a + b == a;
    }
    if Free(a, id) {
      assert forall i :: 0 <= i < |a| ==> a[i] in a;
      assert forall i :: 0 <= i < |b| ==> b[i] in b;
    }
  }

  lemma HindmostLast(a: seq<Node>, b: seq<Node>, id: string)
    requires Free(a, id) && Mine(b, id) == b
    ensures Hindmost(a + b, id)
  {
    hide Owns;
    MineLength(b, id);
    assert forall i :: 0 <= i < |a| ==> (a + b)[i] == a[i] && a[i] in a;
    assert forall i :: |a| <= i < |a + b| ==> (a + b)[i] == b[i - |a|] && b[i - |a|] in b;
  }

  /** Adding a node uncovers nothing, and covers exactly the nodes it collides with: a condition on the two ids. */
  lemma AddCovers(c: Config, st: State, a: string, b: string)
    requires Accounted(c, st) && Faithful(c, st) && a in st.ids && b !in st.ids
    ensures Uncovered(Step(c, st, Add(b)).nodes, a) <==> Uncovered(st.nodes, a) && Apart(c, a, b)
  {
    hide Class, Points, Hindmost, InsertAll, Free, Load, Mine, Apart;
    var ns' := Step(c, st, Add(b)).nodes;
    forall h: nat
      ensures Hindmost(Class(ns', h), a)
              <==> Hindmost(Class(st.nodes, h), a) && (Class(Points(c, b), h) == [] || Class(Points(c, a), h) == [])
    {
      InsertAllClass(st.nodes, Points(c, b), h);
      PointsFree(c, b, a, h);
      HindmostConcat(Class(st.nodes, h), Class(Points(c, b), h), a);
      FreeOfMine(Class(st.nodes, h), a);
      assert |Mine(Class(st.nodes, h), a)| == |Class(Points(c, a), h)|;
    }
    ApartClasses(c, a, b);
    if Uncovered(ns', a) {
      forall h: nat
        ensures Hindmost(Class(st.nodes, h), a) && (Class(Points(c, b), h) == [] || Class(Points(c, a), h) == [])
      {
        assert Hindmost(Class(ns', h), a);
      }
    }
    if Uncovered(st.nodes, a) && Apart(c, a, b) {
      forall h: nat ensures Hindmost(Class(ns', h), a) {
        assert Hindmost(Class(st.nodes, h), a);
        assert Class(Points(c, a), h) == [] || Class(Points(c, b), h) == [];
      }
    }
  }

  lemma FreeOfMine(ns: seq<Node>, id: string)
    ensures Free(ns, id) <==> Mine(ns, id) == []
  {
    MineLength(ns, id);
  }

  lemma PointsFree(c: Config, x: string, id: string, h: nat)
    requires x != id
    ensures Free(Class(Points(c, x), h), id)
  {
    hide Class, Points;
    PointsOwned(c, x, h);
    FreeOfMine(Class(Points(c, x), h), id);
  }

  /** A node just added is not covered. */
  lemma AddedUncovered(c: Config, st: State, a: string)
    requires Accounted(c, st) && Faithful(c, st) && a !in st.ids
    ensures Uncovered(Step(c, st, Add(a)).nodes, a)
  {
    hide Class, Points, InsertAll, Load, Owns, Hindmost, Free, Mine;
    forall h: nat ensures Hindmost(Class(Step(c, st, Add(a)).nodes, h), a) {
      InsertAllClass(st.nodes, Points(c, a), h);
      NoneOwned(st, a, h);
      FreeOfMine(Class(st.nodes, h), a);
      PointsOwned(c, a, h);
      HindmostLast(Class(st.nodes, h), Class(Points(c, a), h), a);
    }
  }

  /** Whatever the hash and the number of virtual points: if two nodes collide, removing the one added first leaves
      one of its points behind, although it is no longer in `nodeMap`; if they do not, none. */
  lemma CollisionOutlives(c: Config, a: string, b: string)
    requires a != b
    ensures var st := Run(c, [Add(a), Add(b), Remove(a)]);
            && st.ids == {b}
            && ((exists nd <- st.nodes :: nd.Owner() == RealPoint(c, a)) <==> !Apart(c, a, b))
  {
    hide Faithful, Accounted, Uncovered, AmongLast, Others, Apart, Step, Run, Free;
    var two := [Add(a), Add(b)];
    assert two + [Remove(a)] == [Add(a), Add(b), Remove(a)];
    TwoAdded(c, a, b);
    RunSnoc(c, two, Remove(a));
    RunAccounted(c, two);
    RemoveExact(c, Run(c, two), a);
    OwnersAreReal(c, [Add(a), Add(b), Remove(a)]);
    StrayPoint(c, Run(c, [Add(a), Add(b), Remove(a)]).nodes, a);
    RemovedIds(c, Run(c, two), a);
    assert {a} + {b} - {a} == {b};
  }

  lemma TwoAdded(c: Config, a: string, b: string)
    requires a != b
    ensures var st := Run(c, [Add(a), Add(b)]);
            st.ids == {a} + {b} && Faithful(c, st) && (Uncovered(st.nodes, a) <==> Apart(c, a, b))
  {
    hide Faithful, Accounted, Uncovered, InsertAll, Points, Apart;
    var one := [Add(a)];
    assert [] + [Add(a)] == one && one + [Add(b)] == [Add(a), Add(b)];
    RunAccounted(c, []);
    RunAccounted(c, one);
    RunSnoc(c, [], Add(a));
    RunSnoc(c, one, Add(b));
    EmptyFaithful(c);
    AddFaithful(c, Empty, a);
    AddedUncovered(c, Empty, a);
    AddFaithful(c, Run(c, one), b);
    AddCovers(c, Run(c, one), a, b);
  }

  lemma StrayPoint(c: Config, ns: seq<Node>, a: string)
    requires forall nd <- ns :: nd.Owner() == RealPoint(c, nd.Owner().val)
    ensures Free(ns, a) <==> !exists nd <- ns :: nd.Owner() == RealPoint(c, a)
  {}

  lemma RemovedIds(c: Config, st: State, id: string)
    ensures Step(c, st, Remove(id)).ids == st.ids - {id}
  {}

  /** Points only ever stand for the real point of the node they were made for. */
  lemma {:induction false} OwnersAreReal(c: Config, ops: seq<Op>)
    ensures forall nd <- Run(c, ops).nodes :: nd.Owner() == RealPoint(c, nd.Owner().val)
    decreases |ops|
  {
    if ops != [] {
      var init, op := ops[..|ops| - 1], ops[|ops| - 1];
      var st := Run(c, init);
      OwnersAreReal(c, init);
      RunAccounted(c, init);
      forall nd | nd in Run(c, ops).nodes ensures nd.Owner() == RealPoint(c, nd.Owner().val) {
        StepMembers(c, st, op, nd);
      }
    }
  }

  lemma StepMembers(c: Config, st: State, op: Op, nd: Node)
    requires Accounted(c, st) && nd in Step(c, st, op).nodes
    ensures nd in st.nodes || nd in Points(c, op.id)
  {
    hide Class, Load, InsertAll, DropAll, Points, Departing;
    var ns' := Step(c, st, op).nodes;
    ClassMembers(ns', nd.hash, nd);
    ClassMembers(st.nodes, nd.hash, nd);
    ClassMembers(Points(c, op.id), nd.hash, nd);
    if op.Add? && op.id !in st.ids {
      InsertAllClass(st.nodes, Points(c, op.id), nd.hash);
    } else if op.Remove? && op.id in st.ids {
      AccountedCovers(c, st, op.id);
      DropAllClass(st.nodes, Departing(c, op.id), nd.hash);
    }
  }

  /** What `Add` puts into the ring: the node itself at its hash, and for each number below the virtual count a point
      at the hash of that point's own name, standing for the node; everything else stays. */
  lemma AddedPoints(c: Config, st: State, id: string, nd: Node)
    requires Accounted(c, st) && id !in st.ids
    ensures nd in Step(c, st, Add(id)).nodes <==>
              || nd in st.nodes || nd == Real(id, c.hash(id))
              || exists i :: 0 <= i < c.virtual && Names(c, id, i, nd)
  {
    hide Class, Load, InsertAll;
    ClassMembers(Step(c, st, Add(id)).nodes, nd.hash, nd);
    ClassMembers(st.nodes, nd.hash, nd);
    ClassMembers(Points(c, id), nd.hash, nd);
    InsertAllClass(st.nodes, Points(c, id), nd.hash);
    if nd in Points(c, id) && nd != Real(id, c.hash(id)) {
      var k :| 0 <= k < |Points(c, id)| && Points(c, id)[k] == nd;
      assert Names(c, id, k - 1, nd);
    }
    if exists i :: 0 <= i < c.virtual && Names(c, id, i, nd) {
      var i :| 0 <= i < c.virtual && Names(c, id, i, nd);
      assert Points(c, id)[i + 1] == nd;
    }
    assert Points(c, id)[0] == Real(id, c.hash(id));
  }

  ghost predicate Names(c: Config, id: string, i: nat, nd: Node) {
    nd == Virtual(VirtualId(id, i), c.hash(VirtualId(id, i)), Real(id, c.hash(id)))
  }

  lemma RunSnoc(c: Config, ops: seq<Op>, op: Op)
    ensures Run(c, ops + [op]) == Step(c, Run(c, ops), op)
  {
    assert (ops + [op])[..|ops|] == ops;
  }

  /** Without virtual points the removed node then answers for every key. */
  lemma LoneCollision(c: Config, a: string, b: string, h: nat)
    requires c.virtual == 0 && a != b && c.hash(a) == c.hash(b)
    ensures var st := Run(c, [Add(a), Add(b), Remove(a)]);
            && st == State([RealPoint(c, a)], {b})
            && Lookup(st.nodes, h) == RealPoint(c, a) && Lookup(st.nodes, h).val !in st.ids
  {
    hide InsertAll, DropAll, Points, Departing;
    var p, q := RealPoint(c, a), RealPoint(c, b);
    assert Points(c, a) == [p] == Departing(c, a) && Points(c, b) == [q] by {
      LonePoints(c, a);
      LonePoints(c, b);
    }
    OnePoint(p, q);
    RunSnoc(c, [], Add(a));
    RunSnoc(c, [Add(a)], Add(b));
    RunSnoc(c, [Add(a), Add(b)], Remove(a));
    assert [] + [Add(a)] == [Add(a)] && [Add(a)] + [Add(b)] == [Add(a), Add(b)];
    assert [Add(a), Add(b)] + [Remove(a)] == [Add(a), Add(b), Remove(a)];
    assert {a} + {b} - {a} == {b};
  }

  lemma LonePoints(c: Config, id: string)
    requires c.virtual == 0
    ensures Points(c, id) == [RealPoint(c, id)] == Departing(c, id)
  {}

  lemma OnePoint(a: Node, b: Node)
    requires a.hash == b.hash
    ensures InsertAll([], [a]) == [a] && InsertAll([a], [b]) == [a, b] && DropAll([a, b], [a]) == [a]
  {
    var h := a.hash;
    assert [a][..0] == [] && [b][..0] == [];
    assert FirstAbove([a], h) == 1 && FirstAbove([b], h) == 1 && [a, b][1..] == [b];
    assert FirstAbove([a, b], h) == 2;
    assert Insert([], a) == [a] && Insert([a], b) == [a, b] && Drop([a, b], h) == [a];
  }
}
