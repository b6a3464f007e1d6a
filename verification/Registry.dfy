/** The gateway's registration table and the presence events it emits, as functions; `C` stands for the clients. */
module Registry {
  import opened Ids

  datatype Presence = Online(id: ID) | Offline(id: ID)

  datatype Outcome = Done | NotExist | AlreadyExist

  datatype Reg<C> = Reg(clients: map<ID, C>, log: seq<Presence>)

  /** The key under which gateway g files an id. */
  function Key(g: string, id: ID): ID {
    SetGateway(id, g)
  }

  function Add<C>(g: string, r: Reg<C>, id: ID, c: C): Reg<C> {
    Reg(r.clients[Key(g, id) := c], r.log + [Online(Key(g, id))])
  }

  function Rename<C>(g: string, r: Reg<C>, oldID: ID, newID: ID): (Outcome, Reg<C>) {
    var o, n := Key(g, oldID), Key(g, newID);
    if o !in r.clients then (NotExist, r)
    else if n in r.clients then (AlreadyExist, r)
    else (Done, Reg((r.clients - {o})[n := r.clients[o]], r.log + [Offline(o), Online(n)]))
  }

  function Exit<C>(g: string, r: Reg<C>, id: ID): (Outcome, Reg<C>) {
    var k := Key(g, id);
    if k !in r.clients then (NotExist, r)
    else (Done, Reg(r.clients - {k}, r.log + [Offline(k)]))
  }

  /** What `updateClient` returns, and the id a kick-out message went to, if any. */
  datatype Login<C> = Login(outcome: Outcome, id: ID, reg: Reg<C>, kicked: seq<ID>)

  /** `updateClient`: take the user's id, moving a different holder of it to the temporary id first. */
  function LogIn<C>(g: string, r: Reg<C>, oldID: ID, uid: string, temp: ID): Login<C> {
    var newID := NewID2(uid);
    var (first, r1) := Rename(g, r, oldID, newID);
    if first != AlreadyExist then Login(first, newID, r1, [])
    else if Equals(newID, oldID) then Login(Done, newID, r1, [])
    else
      var (second, r2) := Rename(g, r1, newID, temp);
      if second != Done then Login(second, "", r2, [])
      else
        var (third, r3) := Rename(g, r2, oldID, newID);
        Login(third, if third == Done then newID else "", r3, [temp])
  }

  // The presence log.

  function Hear(before: set<ID>, e: Presence): set<ID> {
    if e.Online? then before + {e.id} else before - {e.id}
  }

  /** Who is online according to the events alone. */
  function Present(log: seq<Presence>): set<ID> {
    if log == [] then {} else Hear(Present(log[..|log| - 1]), log[|log| - 1])
  }

  lemma PresentSnoc(log: seq<Presence>, e: Presence)
    ensures Present(log + [e]) == Hear(Present(log), e)
  {
    assert (log + [e])[..|log|] == log;
  }

  /** No client is under two keys. */
  ghost predicate Injective<C>(m: map<ID, C>) {
    forall k, l :: k in m && l in m && m[k] == m[l] ==> k == l
  }

  ghost predicate Sound<C>(g: string, r: Reg<C>) {
    && Present(r.log) == r.clients.Keys
    && Injective(r.clients)
    && (forall k <- r.clients :: Key(g, k) == k)
  }

  lemma AddSound<C>(g: string, r: Reg<C>, id: ID, c: C)
    requires Sound(g, r) && c !in r.clients.Values
    ensures Sound(g, Add(g, r, id, c))
  {
    PresentSnoc(r.log, Online(Key(g, id)));
    SetGatewayIdempotent(id, g);
    forall k | k in r.clients ensures r.clients[k] != c {
      assert r.clients[k] in r.clients.Values;
    }
  }

  lemma RenameSound<C>(g: string, r: Reg<C>, oldID: ID, newID: ID)
    requires Sound(g, r)
    ensures Sound(g, Rename(g, r, oldID, newID).1)
  {
    hide Present;
    var o, n := Key(g, oldID), Key(g, newID);
    SetGatewayIdempotent(newID, g);
    assert r.log + [Offline(o), Online(n)] == r.log + [Offline(o)] + [Online(n)];
    PresentSnoc(r.log, Offline(o));
    PresentSnoc(r.log + [Offline(o)], Online(n));
  }

  lemma ExitSound<C>(g: string, r: Reg<C>, id: ID)
    requires Sound(g, r)
    ensures Sound(g, Exit(g, r, id).1)
  {
    PresentSnoc(r.log, Offline(Key(g, id)));
  }

  /** The calls a gateway serves; a client is added once. */
  datatype Op<C> = AddClient(id: ID, c: C) | SetClientID(oldID: ID, newID: ID) | ExitClient(id: ID)
                 | Authenticate(id: ID, uid: string, temp: ID)

  function Step<C>(g: string, r: Reg<C>, op: Op<C>): Reg<C> {
    match op
    case AddClient(id, c) => Add(g, r, id, c)
    case SetClientID(o, n) => Rename(g, r, o, n).1
    case ExitClient(id) => Exit(g, r, id).1
    case Authenticate(id, uid, temp) => LogIn(g, r, id, uid, temp).reg
  }

  function Run<C>(g: string, ops: seq<Op<C>>): Reg<C> {
    if ops == [] then Reg(map[], []) else Step(g, Run(g, ops[..|ops| - 1]), ops[|ops| - 1])
  }

  ghost predicate AddedOnce<C>(ops: seq<Op<C>>) {
    forall i, j :: 0 <= i < j < |ops| && ops[i].AddClient? && ops[j].AddClient? ==> ops[i].c != ops[j].c
  }

  ghost function Added<C>(ops: seq<Op<C>>): set<C> {
    set i | 0 <= i < |ops| && ops[i].AddClient? :: ops[i].c
  }

  lemma RenameValues<C>(g: string, r: Reg<C>, oldID: ID, newID: ID)
    ensures Rename(g, r, oldID, newID).1.clients.Values <= r.clients.Values
  {
    var r' := Rename(g, r, oldID, newID).1;
    forall c | c in r'.clients.Values ensures c in r.clients.Values {
      var k :| k in r'.clients && r'.clients[k] == c;
      var l := if k in r.clients && r.clients[k] == c then k else Key(g, oldID);
      assert l in r.clients && r.clients[l] == c;
    }
  }

  lemma LogInSound<C>(g: string, r: Reg<C>, oldID: ID, uid: string, temp: ID)
    requires Sound(g, r)
    ensures Sound(g, LogIn(g, r, oldID, uid, temp).reg)
  {
    hide Sound, Rename;
    var newID := NewID2(uid);
    var r1 := Rename(g, r, oldID, newID).1;
    var r2 := Rename(g, r1, newID, temp).1;
    RenameSound(g, r, oldID, newID);
    RenameSound(g, r1, newID, temp);
    RenameSound(g, r2, oldID, newID);
  }

  lemma LogInValues<C>(g: string, r: Reg<C>, oldID: ID, uid: string, temp: ID)
    ensures LogIn(g, r, oldID, uid, temp).reg.clients.Values <= r.clients.Values
  {
    hide Rename;
    var newID := NewID2(uid);
    var r1 := Rename(g, r, oldID, newID).1;
    var r2 := Rename(g, r1, newID, temp).1;
    RenameValues(g, r, oldID, newID);
    RenameValues(g, r1, newID, temp);
    RenameValues(g, r2, oldID, newID);
  }

  /** In every run, the events alone tell who is registered, and no client is under two keys. */
  lemma {:induction false} RunSound<C>(g: string, ops: seq<Op<C>>)
    requires AddedOnce(ops)
    ensures Sound(g, Run(g, ops)) && Run(g, ops).clients.Values <= Added(ops)
  {
    if ops != [] {
      var init, op := ops[..|ops| - 1], ops[|ops| - 1];
      RunSound(g, init);
      StepSound(g, Run(g, init), op, init);
      AddedSnoc(ops);
    }
  }

  lemma AddedSnoc<C>(ops: seq<Op<C>>)
    requires ops != []
    ensures var init, op := ops[..|ops| - 1], ops[|ops| - 1];
            Added(ops) >= Added(init) + if op.AddClient? then {op.c} else {}
  {
    var init, op := ops[..|ops| - 1], ops[|ops| - 1];
    forall c | c in Added(init) ensures c in Added(ops) {
      var i :| 0 <= i < |init| && init[i].AddClient? && init[i].c == c;
      assert ops[i] == init[i];
    }
  }

  lemma StepSound<C>(g: string, r: Reg<C>, op: Op<C>, init: seq<Op<C>>)
    requires Sound(g, r) && r.clients.Values <= Added(init) && AddedOnce(init + [op])
    ensures var r' := Step(g, r, op);
            Sound(g, r') && r'.clients.Values <= Added(init) + if op.AddClient? then {op.c} else {}
  {
    hide Sound;
    match op
    case AddClient(id, c) =>
      forall d | d in Added(init) ensures d != c {
        var i :| 0 <= i < |init| && init[i].AddClient? && init[i].c == d;
        assert (init + [op])[i] == init[i] && (init + [op])[|init|] == op;
      }
      AddSound(g, r, id, c);
    case SetClientID(o, n) =>
      RenameSound(g, r, o, n);
      RenameValues(g, r, o, n);
    case ExitClient(id) =>
      ExitSound(g, r, id);
    case Authenticate(id, uid, temp) =>
      LogInSound(g, r, id, uid, temp);
      LogInValues(g, r, id, uid, temp);
  }

  // Logging in.

  /** The keys met when a client known as user x of gateway g logs in as uid, t being the temporary name. */
  lemma LogInKeys(g: string, x: string, uid: string, t: string)
    requires Plain(g) && g != "" && Plain(x) && Plain(uid) && Plain(t)
    ensures Key(g, NewID(g, x, "")) == NewID(g, x, "")
    ensures Key(g, NewID2(uid)) == NewID(g, uid, "") && Key(g, NewID2(t)) == NewID(g, t, "")
    ensures NewID(g, x, "") == NewID(g, uid, "") <==> x == uid
    ensures NewID(g, uid, "") == NewID(g, t, "") <==> uid == t
    ensures Equals(NewID2(uid), NewID(g, x, "")) <==> x == uid
  {
    QualifyUser(g, x);
    QualifyUser(g, uid);
    QualifyUser(g, t);
    NewIDParts(g, x, "");
    NewIDParts(g, uid, "");
    NewIDParts(g, t, "");
    assert uid + "" == uid && x + "" == x;
  }

  /** A login under any id and for any user id, with any temporary id, succeeds if and only if the client is registered
      and the user's key is free, or the two ids compare equal, or the key is another one and its holder can move to
      the temporary key. */
  lemma LogInSucceeds<C>(g: string, r: Reg<C>, oldID: ID, uid: string, temp: ID)
    ensures var o, n, k := Key(g, oldID), Key(g, NewID2(uid)), Key(g, temp);
            LogIn(g, r, oldID, uid, temp).outcome == Done
            <==> o in r.clients
                 && (n !in r.clients || Equals(NewID2(uid), oldID) || (o != n && k !in r.clients))
  {
    hide NewID2, Key, Equals;
  }

  /** The user's key belongs to another client, but the two ids compare equal. */
  predicate Confused<C>(g: string, r: Reg<C>, oldID: ID, uid: string) {
    var o, n := Key(g, oldID), Key(g, NewID2(uid));
    n in r.clients && n != o && Equals(NewID2(uid), oldID)
  }

  /** After a login reported as successful the client is the sole holder of the user's key if and only if the ids were
      not confused; otherwise nothing has changed and the key is somebody else's. A different former holder sits under
      the temporary key and is the one the kick-out message goes to; nobody else moved. */
  lemma KickOut<C>(g: string, r: Reg<C>, oldID: ID, uid: string, temp: ID)
    requires Sound(g, r) && LogIn(g, r, oldID, uid, temp).outcome == Done
    ensures var o, n, k := Key(g, oldID), Key(g, NewID2(uid)), Key(g, temp);
            var out := LogIn(g, r, oldID, uid, temp);
            var m := out.reg.clients;
            && out.id == NewID2(uid) && o in r.clients && n in m
            && (m[n] == r.clients[o] <==> !Confused(g, r, oldID, uid))
            && (Confused(g, r, oldID, uid) ==> out.reg == r)
            && (forall l <- m :: m[l] == m[n] ==> l == n)
            && (if n in r.clients && n != o && !Confused(g, r, oldID, uid)
                then out.kicked == [temp] && k in m && m[k] == r.clients[n]
                else out.kicked == [])
            && (forall l :: l != o && l != n && l != k ==>
                  (l in m <==> l in r.clients) && (l in m ==> m[l] == r.clients[l]))
            && (n != o && !Confused(g, r, oldID, uid) ==> o !in m)
            && m.Values == r.clients.Values
  {
    hide NewID2, Key, Equals, Present;
    var o, n, k := Key(g, oldID), Key(g, NewID2(uid)), Key(g, temp);
    var m := LogIn(g, r, oldID, uid, temp).reg.clients;
    LogInSucceeds(g, r, oldID, uid, temp);
    LogInSound(g, r, oldID, uid, temp);
    LogInValues(g, r, oldID, uid, temp);
    assert forall l <- m :: m[l] == m[n] ==> l == n;
    forall c | c in r.clients.Values ensures c in m.Values {
      var l :| l in r.clients && r.clients[l] == c;
      var l' := if n == o || Confused(g, r, oldID, uid) then l else if l == o then n else if l == n then k else l;
      assert l' in m && m[l'] == c;
    }
  }

  /** Ids of plain users on a plain, named gateway are never confused. */
  lemma PlainNotConfused<C>(g: string, r: Reg<C>, x: string, uid: string)
    requires Plain(g) && g != "" && Plain(x) && Plain(uid)
    ensures !Confused(g, r, NewID(g, x, ""), uid)
  {
    hide NewID, NewID2, Key, Equals;
    LogInKeys(g, x, uid, x);
  }

  /** A user id with the separator in it: with user "ab" and a client logged in as "a_b" registered, the former logs in
      as "a_b" with success, without getting the key and without anybody being told. */
  lemma SeparatorConfuses<C>(g: string, r: Reg<C>, a: string, b: string, temp: ID)
    requires Plain(g) && g != "" && Plain(a) && Plain(b)
    requires NewID(g, a + b, "") in r.clients && NewID2(a + "_" + b) in r.clients
    ensures LogIn(g, r, NewID(g, a + b, ""), a + "_" + b, temp) == Login(Done, NewID2(a + "_" + b), r, [])
  {
    hide NewID, NewID2;
    SeparatorInUser(g, a, b);
    QualifyUser(g, a + b);
    NewIDParts(g, a + b, "");
    assert a + b + "" == a + b;
  }
}
