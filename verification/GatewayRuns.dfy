/** Whole histories of a gateway: connections are numbered as they come in, and whatever is called, and whichever
    clients leave on their own, the objects do what the registry's run says. */
module GatewayRuns {
  import opened Ids
  import opened Registry
  import opened Gateways

  type Random = r: seq<Byte> | |r| == 16 witness seq(16, _ => 0)

  /** What may happen: a connection comes in, the gateway is called, connection n leaves or authenticates. */
  datatype Call =
    | Connect(random: Random)
    | Readdress(oldID: ID, newID: ID)
    | Expel(id: ID)
    | Leave(n: nat)
    | LogInAs(n: nat, uid: string, random: Random, free: bool)

  /** The table by connection number, the id each connection carries itself, and who has exited. A connection whose
      key was taken by a later one keeps its id without being in the table. */
  datatype World = World(reg: Reg<nat>, own: map<nat, ID>, left: set<nat>, next: nat)

  const Empty := World(Reg(map[], []), map[], {}, 0)

  /** The call as the registry sees it; connections leaving with a blank id, or a second time, it does not see. */
  function OpsOf1(g: string, w: World, call: Call): seq<Op<nat>> {
    match call
    case Connect(random) => [AddClient(TempID(g, random), w.next)]
    case Readdress(o, n) => [SetClientID(o, n)]
    case Expel(id) => [ExitClient(id)]
    case Leave(n) => if n in w.own && n !in w.left && w.own[n] != "" then [ExitClient(w.own[n])] else []
    case LogInAs(n, uid, random, _) =>
      if n in w.own && n !in w.left then [Op.Authenticate(w.own[n], uid, TempID("", random))] else []
  }

  /** Clients in the table carry their key; the others keep what they had. */
  ghost function Track(own: map<nat, ID>, clients: map<ID, nat>): map<nat, ID> {
    map n | n in own :: if n in clients.Values then var k :| k in clients && clients[k] == n; k else own[n]
  }

  /** Whoever is filed under id is out, with a blank id of its own. */
  function Expelled(g: string, w: World, id: ID): World {
    var k := Key(g, id);
    if k !in w.reg.clients then w
    else
      var c := w.reg.clients[k];
      World(Registry.Exit(g, w.reg, id).1, w.own[c := ""], w.left + {c}, w.next)
  }

  ghost function Next(g: string, w: World, call: Call): World {
    match call
    case Connect(random) =>
      var id := TempID(g, random);
      World(Add(g, w.reg, id, w.next), w.own[w.next := id], w.left, w.next + 1)
    case Readdress(o, n) =>
      var r := Rename(g, w.reg, o, n).1;
      w.(reg := r, own := Track(w.own, r.clients))
    case Expel(id) => Expelled(g, w, id)
    case Leave(n) =>
      if n !in w.own || n in w.left then w
      else
        var w' := if w.own[n] == "" then w else Expelled(g, w, w.own[n]);
        w'.(own := w'.own[n := ""], left := w'.left + {n})
    case LogInAs(n, uid, random, _) =>
      if n !in w.own || n in w.left then w
      else
        var r := LogIn(g, w.reg, w.own[n], uid, TempID("", random)).reg;
        w.(reg := r, own := Track(w.own, r.clients))
  }

  ghost function After(g: string, calls: seq<Call>): World {
    if calls == [] then Empty else Next(g, After(g, calls[..|calls| - 1]), calls[|calls| - 1])
  }

  ghost function OpsOf(g: string, calls: seq<Call>): seq<Op<nat>> {
    if calls == [] then []
    else
      var init := calls[..|calls| - 1];
      OpsOf(g, init) + OpsOf1(g, After(g, init), calls[|calls| - 1])
  }

  lemma RunConcat(g: string, ops: seq<Op<nat>>, more: seq<Op<nat>>)
    requires |more| <= 1
    ensures Run(g, ops + more) == if more == [] then Run(g, ops) else Registry.Step(g, Run(g, ops), more[0])
  {
    if more == [] {
      assert ops + more == ops;
    } else {
      assert (ops + more)[..|ops|] == ops && (ops + more)[|ops|] == more[0];
    }
  }

  /** Connection numbers are 0, 1, ... in order, each added once. */
  ghost predicate Numbered(w: World, ops: seq<Op<nat>>) {
    && (forall n: nat :: n in w.own <==> n < w.next)
    && (forall k <- w.reg.clients :: w.reg.clients[k] < w.next)
    && (forall i :: 0 <= i < |ops| && ops[i].AddClient? ==> ops[i].c < w.next)
    && AddedOnce(ops)
  }

  /** The table is that of the registry's own run of those operations. */
  lemma {:induction false} AfterIsRun(g: string, calls: seq<Call>)
    ensures After(g, calls).reg == Run(g, OpsOf(g, calls))
    ensures Numbered(After(g, calls), OpsOf(g, calls))
  {
    if calls != [] {
      var init, call := calls[..|calls| - 1], calls[|calls| - 1];
      AfterIsRun(g, init);
      RunConcat(g, OpsOf(g, init), OpsOf1(g, After(g, init), call));
      NextIsStep(g, After(g, init), call);
      NextNumbered(g, After(g, init), OpsOf(g, init), call);
    }
  }

  lemma NextIsStep(g: string, w: World, call: Call)
    ensures var ops := OpsOf1(g, w, call);
            Next(g, w, call).reg == if ops == [] then w.reg else Registry.Step(g, w.reg, ops[0])
  {}

  lemma NextNumbered(g: string, w: World, ops: seq<Op<nat>>, call: Call)
    requires Numbered(w, ops)
    ensures Numbered(Next(g, w, call), ops + OpsOf1(g, w, call))
  {
    hide TempID, Key, LogIn, Rename;
    match call
    case Connect(random) =>
    case Readdress(o, n) =>
      RenameValues(g, w.reg, o, n);
      ValuesBelow(w.reg.clients, Rename(g, w.reg, o, n).1.clients, w.next);
    case Expel(id) => ExpelledNumbered(g, w, ops, id);
    case Leave(n) =>
      if n in w.own && n !in w.left && w.own[n] != "" {
        ExpelledNumbered(g, w, ops, w.own[n]);
      }
    case LogInAs(n, uid, random, _) =>
      if n in w.own {
        LogInValues(g, w.reg, w.own[n], uid, TempID("", random));
        ValuesBelow(w.reg.clients, LogIn(g, w.reg, w.own[n], uid, TempID("", random)).reg.clients, w.next);
      }
  }

  lemma ExpelledNumbered(g: string, w: World, ops: seq<Op<nat>>, id: ID)
    requires Numbered(w, ops)
    ensures Numbered(Expelled(g, w, id), ops)
  {
    hide Key;
  }

  lemma ValuesBelow(m: map<ID, nat>, m': map<ID, nat>, next: nat)
    requires m'.Values <= m.Values && forall k <- m :: m[k] < next
    ensures forall k <- m' :: m'[k] < next
  {
    forall k | k in m' ensures m'[k] < next {
      assert m'[k] in m'.Values;
    }
  }

  // The objects follow.

  /** The table of objects is the table of numbers, object by number. */
  ghost predicate Same(objs: seq<UserClient>, r: Reg<UserClient>, rn: Reg<nat>) {
    && r.log == rn.log && r.clients.Keys == rn.clients.Keys
    && (forall k <- rn.clients :: rn.clients[k] < |objs| && r.clients[k] == objs[rn.clients[k]])
  }

  lemma SameRename(g: string, objs: seq<UserClient>, r: Reg<UserClient>, rn: Reg<nat>, o: ID, n: ID)
    requires Same(objs, r, rn)
    ensures Rename(g, r, o, n).0 == Rename(g, rn, o, n).0
    ensures Same(objs, Rename(g, r, o, n).1, Rename(g, rn, o, n).1)
  {
    hide Key;
  }

  lemma SameLogIn(g: string, objs: seq<UserClient>, r: Reg<UserClient>, rn: Reg<nat>, old': ID, uid: string, temp: ID)
    requires Same(objs, r, rn)
    ensures Same(objs, LogIn(g, r, old', uid, temp).reg, LogIn(g, rn, old', uid, temp).reg)
  {
    hide Same, Rename, Equals, NewID2;
    var newID := NewID2(uid);
    var r1, n1 := Rename(g, r, old', newID).1, Rename(g, rn, old', newID).1;
    SameRename(g, objs, r, rn, old', newID);
    var r2, n2 := Rename(g, r1, newID, temp).1, Rename(g, n1, newID, temp).1;
    SameRename(g, objs, r1, n1, newID, temp);
    SameRename(g, objs, r2, n2, old', newID);
  }

  lemma SameExit(g: string, objs: seq<UserClient>, r: Reg<UserClient>, rn: Reg<nat>, id: ID)
    requires Same(objs, r, rn)
    ensures Same(objs, Registry.Exit(g, r, id).1, Registry.Exit(g, rn, id).1)
  {
    hide Key;
  }

  lemma SameAdd(g: string, objs: seq<UserClient>, r: Reg<UserClient>, rn: Reg<nat>, id: ID, c: UserClient)
    requires Same(objs, r, rn)
    ensures Same(objs + [c], Add(g, r, id, c), Add(g, rn, id, |objs|))
  {
    hide Key;
  }

  lemma SameValues(objs: seq<UserClient>, r: Reg<UserClient>, rn: Reg<nat>, i: nat)
    requires Same(objs, r, rn) && i < |objs| && forall i, j :: 0 <= i < j < |objs| ==> objs[i] != objs[j]
    ensures objs[i] in r.clients.Values <==> i in rn.clients.Values
  {
    if objs[i] in r.clients.Values {
      var k :| k in r.clients && r.clients[k] == objs[i];
      assert rn.clients[k] == i;
    }
    if i in rn.clients.Values {
      var k :| k in rn.clients && rn.clients[k] == i;
      assert r.clients[k] == objs[i];
    }
  }

  /** Connection i is in order, carries the id the world says, and has exited if the world says so. */
  ghost predicate Person(g: Gateway, c: UserClient, w: World, i: nat)
    reads c
  {
    && i in w.own && c.Ok() && c.id == w.own[i]
    && (i in w.left <==> c.state == Closed)
    && (c.state != Closed ==> c.mgr == g)
  }

  ghost predicate Mirrors(g: Gateway, objs: seq<UserClient>, w: World)
    reads g, g.clients.Values, objs
  {
    && g.Valid() && !g.locked
    && |objs| == w.next && (forall n: nat :: n in w.own <==> n < w.next) && (forall n <- w.left :: n < w.next)
    && (forall i, j :: 0 <= i < j < |objs| ==> objs[i] != objs[j])
    && Same(objs, g.Table(), w.reg)
    && (forall i :: 0 <= i < |objs| ==> Person(g, objs[i], w, i))
  }

  /** A new connection, which may take over the key of an earlier one. */
  method ServeConnect(g: Gateway, ghost objs: seq<UserClient>, ghost w: World, random: Random)
    returns (c: UserClient)
    requires Mirrors(g, objs, w)
    modifies g
    ensures fresh(c) && Mirrors(g, objs + [c], Next(g.gate, w, Connect(random)))
  {
    hide Present, Key, TempID, Same, Registry.Add, UID;
    ghost var before := g.Table();
    var id := g.HandleConnection(random);
    c := g.clients[id];
    SameAdd(g.gate, objs, before, w.reg, id, c);
    ghost var w' := Next(g.gate, w, Connect(random));
    assert g.Filed(id, c);
    forall i | 0 <= i < |objs + [c]| ensures Person(g, (objs + [c])[i], w', i) {
      if i < |objs| {
        assert Person(g, objs[i], w, i);
      }
    }
  }

  /** What a renaming leaves of a connection: all but its own id, and that too if it is not in the table. */
  ghost predicate Staying(g: Gateway, c: UserClient, w: World, i: nat)
    reads g, c
  {
    && i in w.own && c.Ok()
    && (i in w.left <==> c.state == Closed)
    && (c.state != Closed ==> c.mgr == g)
    && (c !in g.clients.Values ==> c.id == w.own[i])
  }

  /** After a renaming every connection's own id is the tracked one. */
  lemma Tracked(g: Gateway, objs: seq<UserClient>, w: World, r: Reg<nat>)
    requires g.Valid() && !g.locked && Same(objs, g.Table(), r)
    requires |objs| == w.next && (forall n: nat :: n in w.own <==> n < w.next) && (forall n <- w.left :: n < w.next)
    requires forall i, j :: 0 <= i < j < |objs| ==> objs[i] != objs[j]
    requires forall i :: 0 <= i < |objs| ==> Staying(g, objs[i], w, i)
    ensures Mirrors(g, objs, w.(reg := r, own := Track(w.own, r.clients)))
  {
    hide Present, Key;
    var w' := w.(reg := r, own := Track(w.own, r.clients));
    forall i | 0 <= i < |objs| ensures Person(g, objs[i], w', i) {
      var c := objs[i];
      assert Staying(g, c, w, i);
      SameValues(objs, g.Table(), r, i);
      if i in r.clients.Values {
        var k := w'.own[i];
        assert k in r.clients && r.clients[k] == i && g.clients[k] == c && g.Filed(k, c);
      }
    }
  }

  method ServeReaddress(g: Gateway, ghost objs: seq<UserClient>, ghost w: World, o: ID, n: ID)
    requires Mirrors(g, objs, w)
    modifies g, g.clients.Values
    ensures Mirrors(g, objs, Next(g.gate, w, Readdress(o, n)))
  {
    hide Present, Key, Same, Rename;
    SameRename(g.gate, objs, g.Table(), w.reg, o, n);
    assert forall i :: 0 <= i < |objs| ==> Person(g, objs[i], w, i);
    var _ := g.SetClientID(o, n);
    Tracked(g, objs, w, Rename(g.gate, w.reg, o, n).1);
  }

  method ServeLogIn(g: Gateway, ghost objs: seq<UserClient>, ghost w: World, c: UserClient, call: Call)
    requires Mirrors(g, objs, w) && call.LogInAs? && call.n < |objs| && c == objs[call.n] && call.n !in w.left
    modifies g, g.clients.Values
    ensures Mirrors(g, objs, Next(g.gate, w, call))
  {
    hide Present, Key, Same, LogIn, TempID, NewID2;
    ghost var temp := TempID("", call.random);
    SameLogIn(g.gate, objs, g.Table(), w.reg, c.id, call.uid, temp);
    assert forall i :: 0 <= i < |objs| ==> Person(g, objs[i], w, i);
    ghost var r := LogIn(g.gate, w.reg, c.id, call.uid, temp).reg;
    var _, _ := g.UpdateClient(c, call.uid, "", "", call.random, call.free);
    assert forall k <- g.clients :: g.Filed(k, g.clients[k]);
    Tracked(g, objs, w, r);
  }

  method ServeExpel(g: Gateway, ghost objs: seq<UserClient>, ghost w: World, id: ID)
    requires Mirrors(g, objs, w)
    modifies g, g.clients.Values
    ensures Mirrors(g, objs, Next(g.gate, w, Expel(id)))
  {
    hide Present, Key, Same;
    SameExit(g.gate, objs, g.Table(), w.reg, id);
    SameKey(objs, g.Table(), w.reg, Key(g.gate, id));
    ghost var w' := Next(g.gate, w, Expel(id));
    assert forall i :: 0 <= i < |objs| ==> Person(g, objs[i], w, i);
    var _ := g.ExitClient(id);
    forall i | 0 <= i < |objs| ensures Person(g, objs[i], w', i) {}
  }

  lemma SameKey(objs: seq<UserClient>, r: Reg<UserClient>, rn: Reg<nat>, k: ID)
    requires Same(objs, r, rn)
    ensures k in r.clients <==> k in rn.clients
    ensures k in rn.clients ==> rn.clients[k] < |objs| && r.clients[k] == objs[rn.clients[k]]
  {}

  /** Connection n leaves on its own: out of the table go its id and whoever is filed there by now. */
  method ServeLeave(g: Gateway, ghost objs: seq<UserClient>, ghost w: World, c: UserClient, ghost n: nat)
    requires Mirrors(g, objs, w) && n < |objs| && c == objs[n]
    modifies g, g.clients.Values, c
    ensures Mirrors(g, objs, Next(g.gate, w, Leave(n)))
  {
    hide Present, Key, Same;
    SameExit(g.gate, objs, g.Table(), w.reg, c.id);
    SameKey(objs, g.Table(), w.reg, Key(g.gate, c.id));
    ghost var w' := Next(g.gate, w, Leave(n));
    assert forall i :: 0 <= i < |objs| ==> Person(g, objs[i], w, i);
    c.Exit();
    forall i | 0 <= i < |objs| ensures Person(g, objs[i], w', i) {}
  }

  lemma MirrorsTable(g: Gateway, objs: seq<UserClient>, w: World)
    requires Mirrors(g, objs, w)
    ensures forall c <- g.clients.Values :: c in objs
    ensures |objs| == w.next && forall i :: 0 <= i < |objs| ==> (objs[i].state == Closed <==> i in w.left)
  {
    forall c | c in g.clients.Values ensures c in objs {
      var k :| k in g.clients && g.clients[k] == c;
    }
    forall i | 0 <= i < |objs| ensures objs[i].state == Closed <==> i in w.left {
      assert Person(g, objs[i], w, i);
    }
  }

  /** One event; `cs` are the connections so far. */
  method ServeOne(g: Gateway, cs: seq<UserClient>, ghost w: World, call: Call) returns (cs': seq<UserClient>)
    requires Mirrors(g, cs, w)
    modifies g, cs
    ensures Mirrors(g, cs', Next(g.gate, w, call))
    ensures cs <= cs' && forall i :: |cs| <= i < |cs'| ==> fresh(cs'[i])
  {
    hide Mirrors, Next, Present, TempID;
    MirrorsTable(g, cs, w);
    cs' := cs;
    match call
    case Connect(random) =>
      var c := ServeConnect(g, cs, w, random);
      cs' := cs + [c];
    case Readdress(o, n) => ServeReaddress(g, cs, w, o, n);
    case Expel(id) => ServeExpel(g, cs, w, id);
    case Leave(n) =>
      if n < |cs| {
        ServeLeave(g, cs, w, cs[n], n);
      } else {
        NextIdle(g, cs, w, call);
      }
    case LogInAs(n, uid, random, free) =>
      if n < |cs| && cs[n].state != Closed {
        ServeLogIn(g, cs, w, cs[n], call);
      } else {
        NextIdle(g, cs, w, call);
      }
  }

  /** Connections that do not exist, or have exited, do not authenticate; the former do not leave either. */
  lemma NextIdle(g: Gateway, objs: seq<UserClient>, w: World, call: Call)
    requires Mirrors(g, objs, w) && (call.Leave? || call.LogInAs?)
    requires call.n >= |objs| || (call.LogInAs? && objs[call.n].state == Closed)
    ensures Next(g.gate, w, call) == w
  {
    assert call.n < |objs| ==> Person(g, objs[call.n], w, call.n);
  }

  /** Any history of connections, renamings, logins and exits from either side, keys taken over and blank ids included:
      the table and the events are those of the registry's run of the calls, the events fold to the keys, and `gone`
      are the connections the history closes. */
  method Serve(name: string, calls: seq<Call>) returns (keys: set<ID>, log: seq<Presence>, gone: set<nat>)
    ensures keys == Run(name, OpsOf(name, calls)).clients.Keys
    ensures log == Run(name, OpsOf(name, calls)).log
    ensures Present(log) == keys
    ensures gone == After(name, calls).left
  {
    hide Mirrors, Next, Present, OpsOf;
    var g := new Gateway(name);
    var cs: seq<UserClient> := [];
    MirrorsNew(g);
    for i := 0 to |calls|
      invariant fresh(g) && g.gate == name && fresh(cs)
      invariant Mirrors(g, cs, After(name, calls[..i]))
    {
      assert calls[..i + 1][..i] == calls[..i] && calls[..i + 1][i] == calls[i];
      cs := ServeOne(g, cs, After(name, calls[..i]), calls[i]);
    }
    assert calls[..|calls|] == calls;
    AfterIsRun(name, calls);
    MirrorsWorld(g, cs, After(name, calls));
    gone := set n: nat | n < |cs| && cs[n].state == Closed;
    keys, log := g.clients.Keys, g.log;
  }

  lemma MirrorsNew(g: Gateway)
    requires g.Valid() && !g.locked && g.Table() == Reg(map[], [])
    ensures Mirrors(g, [], Empty)
  {}

  lemma MirrorsWorld(g: Gateway, objs: seq<UserClient>, w: World)
    requires Mirrors(g, objs, w)
    ensures g.clients.Keys == w.reg.clients.Keys && g.log == w.reg.log && Present(g.log) == g.clients.Keys
    ensures w.left == set n: nat | n < |objs| && objs[n].state == Closed
  {
    MirrorsTable(g, objs, w);
  }

  /** Two connections that draw the same temporary id: the second takes the first one's key, and when the first leaves
      it is the second that is expelled. */
  method SameTempID(name: string, random: Random) returns (log: seq<Presence>, secondRuns: bool)
    ensures var id := TempID(name, random); log == [Online(id), Online(id), Offline(id)]
    ensures !secondRuns
  {
    hide Present, Key, TempID;
    TempIDKey(name, random);
    var g := new Gateway(name);
    var id := g.HandleConnection(random);
    var first := g.clients[id];
    assert first.id == id && first.mgr == g && first.Ok() && id != "" by {
      assert g.Filed(id, first);
      TempIDNotBlank(name, random);
    }
    id := g.HandleConnection(random);
    var second := g.clients[id];
    first.Exit();
    log, secondRuns := g.log, second.state == Running;
  }

  lemma TempIDNotBlank(g: string, random: Random)
    ensures TempID(g, random) != ""
  {
    Join3(g, TEMP_PREFIX + Dashed(Version4(random)), "");
  }
}
