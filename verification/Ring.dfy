/** The consistent-hash ring as pkg/hash/consisten_hash.go keeps it: a slice (`buf[..len]`) rebuilt on insertion and
    shifted in place on removal, and the map from node ids to the points each node was added with. */
module HashRing {
  import opened Options
  import opened RingSpec
  import opened RingOwners

  datatype Nodes = Nodes(nd: Node, virtual: seq<Node>)

  datatype Removal = Removed | UnknownId | VirtualMissing | VirtualMismatch | RealMissing

  lemma AccountedSorted(c: Config, st: State)
    requires Accounted(c, st)
    ensures Sorted(st.nodes)
  {}

  lemma InsertAllOne(ns: seq<Node>, nd: Node)
    ensures InsertAll(ns, [nd]) == Insert(ns, nd)
  {
    assert [nd][..0] == [];
  }

  lemma InsertAllSnoc(ns: seq<Node>, pts: seq<Node>, nd: Node)
    ensures InsertAll(ns, pts + [nd]) == Insert(InsertAll(ns, pts), nd)
  {
    assert (pts + [nd])[..|pts|] == pts;
  }

  lemma DropAllNone(ns: seq<Node>)
    ensures DropAll(ns, []) == ns
  {}

  lemma DropAllNext(ns: seq<Node>, pts: seq<Node>, k: nat)
    requires k < |pts|
    ensures DropAll(ns, pts[..k + 1]) == Drop(DropAll(ns, pts[..k]), pts[k].hash)
  {
    assert pts[..k + 1][..k] == pts[..k];
  }

  /** A new array with `nd` between the first `index` and the remaining points of p[..m]. */
  method Spliced(p: array<Node>, m: nat, index: nat, nd: Node) returns (n: array<Node>)
    requires index <= m <= p.Length
    ensures fresh(n) && n[..] == p[..index] + [nd] + p[index..m]
  {
    n := new Node[m + 1](_ => nd);
    for i := 0 to index
      invariant forall j :: 0 <= j < i ==> n[j] == p[j]
      invariant forall j :: i <= j < n.Length ==> n[j] == nd
    {
      n[i] := p[i];
    }
    for i := index to m
      invariant forall j :: 0 <= j < index ==> n[j] == p[j]
      invariant n[index] == nd && forall j :: index <= j < i ==> n[j + 1] == p[j]
    {
      n[i + 1] := p[i];
    }
  }

  class ConsistentHash {
    const c: Config
    var buf: array<Node>
    var len: nat
    var nodeMap: map<string, Nodes>

    ghost function Abs(): State
      reads this, buf
      requires len <= buf.Length
    {
      State(buf[..len], nodeMap.Keys)
    }

    ghost predicate Valid()
      reads this, buf
    {
      && len <= buf.Length
      && Accounted(c, Abs())
      && (forall id <- nodeMap :: nodeMap[id] == Nodes(RealPoint(c, id), VirtualPoints(c, id, c.virtual)))
    }

    constructor (config: Config)
      ensures Valid() && c == config && Abs() == Empty && fresh(buf)
    {
      c := config;
      buf, len, nodeMap := new Node[0], 0, map[];
      new;
      RunAccounted(c, []);
      assert Abs() == Empty;
    }

    /** `findIndex`: the binary search agrees with the linear scan, and sees a hash exactly when it is there. */
    method FindIndex(h: nat) returns (left: nat, exist: bool)
      requires len <= buf.Length && Sorted(buf[..len])
      ensures left == FirstAbove(buf[..len], h)
      ensures exist <==> exists i :: 0 <= i < len && buf[i].hash == h
      ensures exist <==> left > 0 && buf[left - 1].hash == h
    {
      left, exist := 0, false;
      var right := len;
      ghost var ns := buf[..len];
      while left < right
        invariant 0 <= left <= right <= len
        invariant left > 0 ==> ns[left - 1].hash <= h
        invariant right < len ==> ns[right].hash > h
        invariant exist <==> left > 0 && ns[left - 1].hash == h
      {
        var middle := (left + right) / 2;
        var hash := buf[middle].hash;
        assert hash == ns[middle].hash && (0 < left <= middle ==> ns[left - 1].hash <= ns[middle].hash);
        if hash < h {
          left := middle + 1;
        } else if hash == h {
          left, exist := middle + 1, true;
        } else {
          right := middle;
        }
      }
      FirstAboveUnique(ns, h, left);
      forall i | 0 <= i < len && buf[i].hash == h ensures left > 0 && ns[left - 1].hash == h {
        assert ns[i].hash == h;
        assert i < left - 1 ==> ns[i].hash <= ns[left - 1].hash;
      }
    }

    /** `addNode`: a new slice with the point inserted behind every point of the same hash. */
    method AddNode(nd: Node)
      requires len <= buf.Length && Sorted(buf[..len])
      modifies this`buf, this`len
      ensures len <= buf.Length && fresh(buf)
      ensures buf[..len] == Insert(old(buf[..len]), nd) && Sorted(buf[..len])
    {
      hide Sorted;
      InsertSorted(buf[..len], nd);
      var index, _ := FindIndex(nd.hash);
      assert buf[..index] == buf[..len][..index] && buf[index..len] == buf[..len][index..];
      var n := Spliced(buf, len, index, nd);
      buf, len := n, len + 1;
      assert buf[..len] == n[..];
    }

    /** `removeIndex`: the points behind the index move down one place in the same backing array. */
    method RemoveIndex(index: nat)
      requires index < len <= buf.Length
      modifies buf, this`len
      ensures len == old(len) - 1 && buf[..len] == old(buf[..index]) + old(buf[index + 1..len])
    {
      ghost var ns := buf[..len];
      if index == len - 1 {
        len := len - 1;
        return;
      }
      var end, p, m := index, buf, len;
      for i := index + 1 to m
        modifies p
        invariant end == i - 1
        invariant forall j :: 0 <= j < index ==> p[j] == ns[j]
        invariant forall j :: index <= j < end ==> p[j] == ns[j + 1]
        invariant forall j :: i <= j < m ==> p[j] == ns[j]
      {
        p[end] := p[i];
        end := end + 1;
      }
      len := end;
    }

    /** `Add`; false is its error on an id that is already there. */
    method Add(id: string) returns (ok: bool)
      requires Valid()
      modifies this`buf, this`len, this`nodeMap
      ensures Valid() && (buf == old(buf) || fresh(buf))
      ensures ok <==> id !in old(nodeMap)
      ensures Abs() == Step(c, old(Abs()), Op.Add(id))
    {
      hide Accounted, InsertAll;
      ghost var st := Abs();
      if id in nodeMap {
        return false;
      }
      AccountedSorted(c, st);
      AccountedStep(c, st, Op.Add(id));
      var nd := Real(id, c.hash(id));
      nodeMap := nodeMap[id := Nodes(nd, [])];
      InsertAllOne(st.nodes, nd);
      AddNode(nd);
      AddVirtual(nd, st.nodes);
      assert nodeMap.Keys == st.ids + {id};
      ok := true;
    }

    /** `addVirtual` */
    method AddVirtual(nd: Node, ghost before: seq<Node>)
      requires len <= buf.Length && Sorted(buf[..len]) && nd.Real? && nd == RealPoint(c, nd.val)
      requires buf[..len] == InsertAll(before, [nd]) && nd.val in nodeMap && nodeMap[nd.val] == Nodes(nd, [])
      modifies this`buf, this`len, this`nodeMap
      ensures buf == old(buf) || fresh(buf)
      ensures len <= buf.Length && buf[..len] == InsertAll(before, Points(c, nd.val))
      ensures nodeMap == old(nodeMap)[nd.val := Nodes(nd, VirtualPoints(c, nd.val, c.virtual))]
    {
      hide Sorted, InsertAll;
      ghost var pts := [nd];
      var i := 0;
      while i < c.virtual
        invariant 0 <= i <= c.virtual && len <= buf.Length && Sorted(buf[..len])
        invariant buf == old(buf) || fresh(buf)
        invariant pts == [nd] + VirtualPoints(c, nd.val, i) && buf[..len] == InsertAll(before, pts)
        invariant nodeMap == old(nodeMap)[nd.val := Nodes(nd, VirtualPoints(c, nd.val, i))]
      {
        var vNodeID := VirtualId(nd.val, i);
        var vNode := Virtual(vNodeID, c.hash(vNodeID), nd);
        AddNode(vNode);
        InsertAllSnoc(before, pts, vNode);
        pts := pts + [vNode];
        assert VirtualPoints(c, nd.val, i + 1) == VirtualPoints(c, nd.val, i) + [vNode];
        var nds := nodeMap[nd.val];
        nodeMap := nodeMap[nd.val := nds.(virtual := nds.virtual + [vNode])];
        i := i + 1;
      }
    }

    /** `Get`; None is its error on an empty ring. The answer is the node of the first point above the key, or of the
        last point when there is none above it: the ring does not wrap. */
    method Get(data: string) returns (r: Option<Node>)
      requires Valid()
      ensures r == if buf[..len] == [] then None else Some(Lookup(buf[..len], c.hash(data)))
      ensures r.None? <==> len == 0
      ensures len > 0 && (forall j :: 0 <= j < len ==> buf[j].hash <= c.hash(data)) ==>
                var p := buf[len - 1]; r == Some(if p.Virtual? then p.realNode else p)
      ensures forall i :: 0 <= i < len && buf[i].hash > c.hash(data)
                          && (forall j :: 0 <= j < i ==> buf[j].hash <= c.hash(data)) ==>
                var p := buf[i]; r == Some(if p.Virtual? then p.realNode else p)
    {
      AccountedSorted(c, Abs());
      assert forall j :: 0 <= j < len ==> buf[j] == buf[..len][j];
      var index, _ := FindIndex(c.hash(data));
      if len == 0 {
        return None;
      }
      if index == len {
        index := len - 1;
      }
      var n := buf[index];
      if n.Virtual? {
        return Some(n.realNode);
      }
      return Some(n);
    }

    /** One removal of `Remove`: the last point with this hash, or one of the error exits; only a virtual point's
        hash is checked again before it goes. */
    method RemovePoint(h: nat, checked: bool, missing: Removal) returns (r: Removal)
      requires len <= buf.Length && Sorted(buf[..len])
      modifies buf, this`len
      ensures len <= buf.Length
      ensures old(Class(buf[..len], h)) != [] ==> r == Removed && buf[..len] == Drop(old(buf[..len]), h)
    {
      ghost var ns := buf[..len];
      var ndIndex, exist := FindIndex(h);
      if ns != [] && Class(ns, h) != [] {
        ghost var a, m, b := DropSplit(ns, h);
        assert ns[|a|] == m && buf[ndIndex - 1] == m;
      }
      if !exist {
        return missing;
      }
      ndIndex := ndIndex - 1;
      var nd := buf[ndIndex];
      if checked && nd.hash != h {
        return VirtualMismatch;
      }
      assert buf[..ndIndex] == ns[..ndIndex] && buf[ndIndex + 1..len] == ns[ndIndex + 1..];
      RemoveIndex(ndIndex);
      r := Removed;
    }

    /** `Remove`: a known id never meets one of the error exits, whatever hashes collide. */
    method Remove(id: string) returns (r: Removal)
      requires Valid()
      modifies buf, this`len, this`nodeMap
      ensures Valid()
      ensures r == if id in old(nodeMap) then Removed else UnknownId
      ensures Abs() == Step(c, old(Abs()), Op.Remove(id))
    {
      hide Accounted, DropAll, Covers, Sorted, Class, Drop;
      ghost var st := Abs();
      if id !in nodeMap {
        return UnknownId;
      }
      var nodes := nodeMap[id];
      ghost var out := Departing(c, id);
      AccountedSorted(c, st);
      AccountedStep(c, st, Op.Remove(id));
      AccountedCovers(c, st, id);
      DropAllNone(st.nodes);
      assert out[..0] == [];
      for i := 0 to |nodes.virtual|
        invariant len <= buf.Length && nodeMap == old(nodeMap)
        invariant buf[..len] == DropAll(st.nodes, out[..i])
      {
        NextPresent(st.nodes, out, i);
        DropAllNext(st.nodes, out, i);
        r := RemovePoint(nodes.virtual[i].hash, true, VirtualMissing);
        if r != Removed {
          return;
        }
      }
      NextPresent(st.nodes, out, |nodes.virtual|);
      DropAllNext(st.nodes, out, |nodes.virtual|);
      r := RemovePoint(nodes.nd.hash, false, RealMissing);
      if r != Removed {
        return;
      }
      assert out[..|out|] == out;
      nodeMap := nodeMap - {id};
    }
  }

  /** Any history of additions and removals leaves the class in the state its specification runs to. */
  method RunAll(config: Config, ops: seq<Op>) returns (nodes: seq<Node>, ids: set<string>)
    ensures State(nodes, ids) == Run(config, ops)
  {
    var ring := new ConsistentHash(config);
    for i := 0 to |ops|
      invariant ring.Valid() && ring.c == config && fresh(ring) && fresh(ring.buf)
      invariant ring.Abs() == Run(config, ops[..i])
    {
      assert ops[..i + 1][..i] == ops[..i] && ops[..i + 1][i] == ops[i];
      match ops[i]
      case Add(id) => var _ := ring.Add(id);
      case Remove(id) => var _ := ring.Remove(id);
    }
    assert ops[..|ops|] == ops;
    nodes, ids := ring.buf[..ring.len], ring.nodeMap.Keys;
  }
}
