/** Which histories of the ring keep every point with its node: a condition on the ids and the order of the calls. */
module RingOrder {
  import opened RingSpec
  import opened RingOwners

  function Without(order: seq<string>, id: string): seq<string> {
    if order == [] then []
    else
      var x := order[|order| - 1];
      Without(order[..|order| - 1], id) + (if x == id then [] else [x])
  }

  /** The nodes present after the calls, in the order they were added. */
  function Order(ops: seq<Op>): seq<string> {
    if ops == [] then []
    else
      var order := Order(ops[..|ops| - 1]);
      match ops[|ops| - 1]
      case Add(id) => if id in order then order else order + [id]
      case Remove(id) => Without(order, id)
  }

  ghost predicate Distinct(order: seq<string>) {
    forall i, j :: 0 <= i < j < |order| ==> order[i] != order[j]
  }

  /** No node added after `id` collides with it. */
  ghost predicate Clear(c: Config, order: seq<string>, id: string) {
    forall i, j :: 0 <= i < j < |order| && order[i] == id ==> Apart(c, id, order[j])
  }

  /** A node is removed only when none of the nodes added after it, and still present, collides with it. */
  ghost predicate Orderly(c: Config, ops: seq<Op>) {
    forall k :: 0 <= k < |ops| && ops[k].Remove? ==> Clear(c, Order(ops[..k]), ops[k].id)
  }

  /** Every point belongs to a node in `nodeMap`. */
  ghost predicate Homed(st: State) {
    forall nd <- st.nodes :: nd.Owner().val in st.ids
  }

  lemma {:induction false} WithoutMembers(order: seq<string>, id: string)
    ensures forall x :: x in Without(order, id) <==> x in order && x != id
    ensures Distinct(order) ==> Distinct(Without(order, id))
  {
    if order != [] {
      var init, x := order[..|order| - 1], order[|order| - 1];
      WithoutMembers(init, id);
      assert order == init + [x];
      var w := Without(init, id);
      assert Distinct(order) ==> x !in init;
      assert forall i :: 0 <= i < |w| ==> w[i] in w;
    }
  }

  /** `Order` lists exactly the ids in `nodeMap`, each once. */
  lemma {:induction false} OrderIds(c: Config, ops: seq<Op>)
    ensures Distinct(Order(ops))
    ensures forall x :: x in Order(ops) <==> x in Run(c, ops).ids
    decreases |ops|
  {
    hide InsertAll, DropAll, Points, Departing;
    if ops != [] {
      var init, op := ops[..|ops| - 1], ops[|ops| - 1];
      OrderIds(c, init);
      WithoutMembers(Order(init), op.id);
    }
  }

  // A hash class of such a ring is the stack of its nodes' points, in the order the nodes were added.

  function Stack(c: Config, order: seq<string>, h: nat): seq<Node> {
    if order == [] then []
    else Stack(c, order[..|order| - 1], h) + Class(Points(c, order[|order| - 1]), h)
  }

  ghost predicate Stacked(c: Config, ns: seq<Node>, order: seq<string>) {
    forall h: nat :: Class(ns, h) == Stack(c, order, h)
  }

  lemma {:induction false} StackOthers(c: Config, order: seq<string>, id: string, h: nat)
    ensures Others(Stack(c, order, h), id) == Stack(c, Without(order, id), h)
    decreases |order|
  {
    hide Class, Points;
    if order != [] {
      var init, x := order[..|order| - 1], order[|order| - 1];
      var y := Class(Points(c, x), h);
      StackOthers(c, init, id, h);
      OthersConcat(Stack(c, init, h), y, id);
      PointsOwned(c, x, h);
      if x == id {
        MineLength(y, id);
        OthersNone(y, id);
        assert Without(order, id) == Without(init, id);
      } else {
        PointsFree(c, x, id, h);
        OthersAll(y, id);
        assert (Without(init, id) + [x])[..|Without(init, id)|] == Without(init, id);
      }
    }
  }

  lemma {:induction false} OthersAll(ns: seq<Node>, id: string)
    requires Free(ns, id)
    ensures Others(ns, id) == ns
  {
    if ns != [] {
      assert forall nd <- ns[1..] :: nd in ns;
      OthersAll(ns[1..], id);
    }
  }

  lemma {:induction false} StackFree(c: Config, order: seq<string>, id: string, h: nat)
    ensures Free(Stack(c, order, h), id) <==> id !in order || Class(Points(c, id), h) == []
    decreases |order|
  {
    hide Class, Points;
    if order != [] {
      var init, x := order[..|order| - 1], order[|order| - 1];
      StackFree(c, init, id, h);
      assert order == init + [x];
      if x == id {
        PointsOwned(c, x, h);
        MineLength(Class(Points(c, x), h), id);
        var y := Class(Points(c, x), h);
        assert y != [] ==> y[0] in y && y[0] in Stack(c, order, h);
      } else {
        PointsFree(c, x, id, h);
        FreeConcat(Stack(c, init, h), Class(Points(c, x), h), id);
      }
    }
  }

  lemma FreeConcat(a: seq<Node>, b: seq<Node>, id: string)
    requires Free(b, id)
    ensures Free(a + b, id) <==> Free(a, id)
  {
    assert forall nd <- a :: nd in a + b;
  }

  /** Class by class: a node's points are hindmost exactly if no node added later has a point there too. */
  lemma {:induction false} StackHindmost(c: Config, order: seq<string>, id: string, h: nat)
    requires Distinct(order)
    ensures Hindmost(Stack(c, order, h), id)
            <==> (forall i, j :: 0 <= i < j < |order| && order[i] == id
                    ==> Class(Points(c, id), h) == [] || Class(Points(c, order[j]), h) == [])
    decreases |order|
  {
    hide Class, Points, Free, Hindmost;
    if order == [] {
      HindmostRest([], id);
    } else {
      var init, x := order[..|order| - 1], order[|order| - 1];
      StackHindmost(c, init, id, h);
      StackFree(c, init, id, h);
      if x == id {
        PointsOwned(c, id, h);
        HindmostLast(Stack(c, init, h), Class(Points(c, id), h), id);
      } else {
        PointsFree(c, x, id, h);
        HindmostConcat(Stack(c, init, h), Class(Points(c, x), h), id);
        if id in init {
          var i :| 0 <= i < |init| && init[i] == id;
          assert order[i] == id && order[|order| - 1] == x;
        }
      }
    }
  }

  lemma ClearUncovered(c: Config, ns: seq<Node>, order: seq<string>, id: string)
    requires Distinct(order) && Stacked(c, ns, order)
    ensures Uncovered(ns, id) <==> Clear(c, order, id)
  {
    hide Class, Points, Apart, Hindmost, Stack, Distinct;
    forall h: nat
      ensures Hindmost(Class(ns, h), id)
              <==> (forall i, j :: 0 <= i < j < |order| && order[i] == id
                      ==> Class(Points(c, id), h) == [] || Class(Points(c, order[j]), h) == [])
    {
      StackHindmost(c, order, id, h);
    }
    forall x
      ensures Apart(c, id, x) <==> forall h: nat :: Class(Points(c, id), h) == [] || Class(Points(c, x), h) == []
    {
      ApartClasses(c, id, x);
    }
  }

  lemma StackedAdd(c: Config, ns: seq<Node>, order: seq<string>, id: string)
    requires Sorted(ns) && Stacked(c, ns, order)
    ensures Stacked(c, InsertAll(ns, Points(c, id)), order + [id])
  {
    hide Class, Points, InsertAll;
    forall h: nat ensures Class(InsertAll(ns, Points(c, id)), h) == Stack(c, order + [id], h) {
      InsertAllClass(ns, Points(c, id), h);
      assert (order + [id])[..|order|] == order;
    }
  }

  lemma StackedOthers(c: Config, ns: seq<Node>, order: seq<string>, id: string)
    requires Stacked(c, ns, order)
    ensures Stacked(c, Others(ns, id), Without(order, id))
  {
    hide Class, Points;
    forall h: nat ensures Class(Others(ns, id), h) == Stack(c, Without(order, id), h) {
      OthersClass(ns, id, h);
      StackOthers(c, order, id, h);
    }
  }

  lemma OrderlySnoc(c: Config, ops: seq<Op>)
    requires ops != []
    ensures var init, op := ops[..|ops| - 1], ops[|ops| - 1];
            Orderly(c, ops) <==> Orderly(c, init) && (op.Remove? ==> Clear(c, Order(init), op.id))
  {
    hide Clear, Order;
    var init := ops[..|ops| - 1];
    assert forall k :: 0 <= k < |init| ==> init[..k] == ops[..k] && init[k] == ops[k];
  }

  /** One call on a ring that is in order: it stays so unless a node is removed that a later one collides with, and
      then one of its points stays behind. */
  lemma OrderStep(c: Config, ops: seq<Op>)
    requires ops != []
    requires var init := ops[..|ops| - 1]; Faithful(c, Run(c, init)) && Stacked(c, Run(c, init).nodes, Order(init))
    ensures var init, op, st := ops[..|ops| - 1], ops[|ops| - 1], Run(c, ops);
            if op.Remove? && !Clear(c, Order(init), op.id) then !Homed(st)
            else Faithful(c, st) && Stacked(c, st.nodes, Order(ops))
  {
    hide InsertAll, DropAll, Points, Departing, Stacked, Faithful, Clear, Uncovered, Others, Distinct;
    var init, op := ops[..|ops| - 1], ops[|ops| - 1];
    var st, order := Run(c, init), Order(init);
    OrderIds(c, init);
    RunAccounted(c, init);
    if op.Add? && op.id !in order {
      AddFaithful(c, st, op.id);
      StackedAdd(c, st.nodes, order, op.id);
    } else if op.Remove? {
      ClearUncovered(c, st.nodes, order, op.id);
      if op.id in order {
        RemoveExact(c, st, op.id);
        if Clear(c, order, op.id) {
          RemoveLocal(c, st, op.id, 0);
          StackedOthers(c, st.nodes, order, op.id);
        }
      } else {
        WithoutAbsent(order, op.id);
        ClearAbsent(c, order, op.id);
      }
    }
  }

  lemma {:induction false} WithoutAbsent(order: seq<string>, id: string)
    requires id !in order
    ensures Without(order, id) == order
  {
    if order != [] {
      WithoutAbsent(order[..|order| - 1], id);
    }
  }

  lemma ClearAbsent(c: Config, order: seq<string>, id: string)
    requires id !in order
    ensures Clear(c, order, id)
  {}

  /** An orderly history leaves every node with all its points, stacked in the order the nodes came, and every lookup
      answers with a node in `nodeMap`. */
  lemma {:induction false} RunFaithful(c: Config, ops: seq<Op>)
    requires Orderly(c, ops)
    ensures var st := Run(c, ops);
            && Faithful(c, st) && Stacked(c, st.nodes, Order(ops))
            && (forall h: nat :: st.nodes != [] ==> Lookup(st.nodes, h).val in st.ids)
    decreases |ops|
  {
    hide Stacked, Faithful, Orderly, Clear, Lookup, Order;
    if ops == [] {
      EmptyFaithful(c);
      EmptyStacked(c);
    } else {
      OrderlySnoc(c, ops);
      RunFaithful(c, ops[..|ops| - 1]);
      OrderStep(c, ops);
    }
    FaithfulLookup(c, Run(c, ops));
  }

  lemma EmptyStacked(c: Config)
    ensures Stacked(c, [], Order([]))
  {}

  /** Any hash, any number of virtual points, any history: no removed node ever leaves a point behind if and only if
      the history is orderly. */
  lemma {:induction false} RunHomed(c: Config, ops: seq<Op>)
    ensures Orderly(c, ops) <==> forall k :: 0 <= k <= |ops| ==> Homed(Run(c, ops[..k]))
    decreases |ops|
  {
    hide Stacked, Faithful, Orderly, Clear, Order, Run, Homed;
    if ops == [] {
      assert ops[..0] == [];
      OrderlyHomed(c, ops);
    } else {
      var init := ops[..|ops| - 1];
      OrderlySnoc(c, ops);
      RunHomed(c, init);
      assert forall k :: 0 <= k <= |init| ==> init[..k] == ops[..k];
      assert ops[..|ops|] == ops;
      if Orderly(c, init) {
        RunFaithful(c, init);
        OrderStep(c, ops);
        FaithfulHomed(c, Run(c, ops));
      }
    }
  }

  lemma OrderlyHomed(c: Config, ops: seq<Op>)
    requires ops == []
    ensures Orderly(c, ops) && Homed(Run(c, ops))
  {}

  lemma FaithfulHomed(c: Config, st: State)
    ensures Faithful(c, st) ==> Homed(st)
  {}

  /** In particular when no two nodes of the history collide. */
  lemma ApartOrderly(c: Config, ops: seq<Op>)
    requires forall i, j :: 0 <= i < |ops| && 0 <= j < |ops| && ops[i].id != ops[j].id ==>
                              Apart(c, ops[i].id, ops[j].id)
    ensures Orderly(c, ops)
  {
    hide Apart, Order, Distinct;
    forall k | 0 <= k < |ops| && ops[k].Remove? ensures Clear(c, Order(ops[..k]), ops[k].id) {
      var order := Order(ops[..k]);
      OrderIds(c, ops[..k]);
      forall i, j | 0 <= i < j < |order| && order[i] == ops[k].id ensures Apart(c, ops[k].id, order[j]) {
        OrderFrom(ops[..k], order[j]);
        DistinctAt(order, i, j);
      }
    }
  }

  lemma DistinctAt(order: seq<string>, i: nat, j: nat)
    requires Distinct(order) && i < j < |order|
    ensures order[i] != order[j]
  {}

  lemma {:induction false} OrderFrom(ops: seq<Op>, id: string)
    requires id in Order(ops)
    ensures exists i :: 0 <= i < |ops| && ops[i].id == id
  {
    var init, op := ops[..|ops| - 1], ops[|ops| - 1];
    WithoutMembers(Order(init), op.id);
    if id != op.id {
      OrderFrom(init, id);
      var i :| 0 <= i < |init| && init[i].id == id;
      assert ops[i].id == id;
    }
  }
}
