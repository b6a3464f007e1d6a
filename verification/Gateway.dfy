/** The gateway and its clients as objects. A client's stop channels, message channel and connection are represented
    by how often each has been closed; writing to the connection and encoding may fail at any time. */
module Gateways {
  import opened Ids
  import opened Registry

  datatype Message = Hello(tempID: string) | KickOutNotify(deviceName: string, deviceId: string) | Other(tag: nat)

  datatype ClientState = Created | Running | Closed

  datatype Delivery = Submitted | NoClient | ClientClosed | PoolFull

  const QUEUE_CAPACITY := 100

  /** A message taken from the queue to be written, and whether it could be encoded and so reached the connection. */
  datatype Sent = Sent(msg: Message, encoded: bool)

  function Taken(sent: seq<Sent>): (ms: seq<Message>)
    ensures |ms| == |sent|
  {
    seq(|sent|, i requires 0 <= i < |sent| => sent[i].msg)
  }

  lemma RenameKeepsValues(g: string, r: Reg<UserClient>, oldID: ID, newID: ID)
    ensures Rename(g, r, oldID, newID).1.clients.Values == r.clients.Values
  {
    var m, m' := r.clients, Rename(g, r, oldID, newID).1.clients;
    var o, n := Key(g, oldID), Key(g, newID);
    forall c ensures c in m.Values <==> c in m'.Values {
      if c in m.Values {
        var k :| k in m && m[k] == c;
        var k' := if Rename(g, r, oldID, newID).0 == Done && k == o then n else k;
        assert k' in m' && m'[k'] == c;
      }
      if c in m'.Values {
        var k :| k in m' && m'[k] == c;
        var k' := if Rename(g, r, oldID, newID).0 == Done && k == n then o else k;
        assert k' in m && m[k'] == c;
      }
    }
  }

  lemma MovePresent(log: seq<Presence>, o: ID, n: ID)
    ensures Present(log + [Offline(o), Online(n)]) == Present(log) - {o} + {n}
  {
    hide Present;
    PresentSnoc(log, Offline(o));
    PresentSnoc(log + [Offline(o)], Online(n));
    assert log + [Offline(o)] + [Online(n)] == log + [Offline(o), Online(n)];
  }

  class UserClient {
    const closeImmediately: bool
    var state: ClientState
    var id: ID
    var mgr: Gateway?
    var messages: seq<Message>
    var queuedMessage: int
    var writeOnce: bool
    var readOnce: bool
    var writeStops: nat
    var readStops: nat
    var messagesClosed: nat
    var connClosed: nat

    /** What has been taken to be written, in order. */
    var sent: seq<Sent>

    /** The once-guards match what they guard, and only a closed client's message channel is closed. */
    ghost predicate Ok()
      reads this
    {
      && writeStops == (if writeOnce then 1 else 0)
      && readStops == (if readOnce then 1 else 0)
      && |messages| <= QUEUE_CAPACITY
      && (state != Closed ==> !readOnce && messagesClosed == 0 && connClosed == 0)
    }

    ghost predicate Stopped()
      reads this
    {
      && state == Closed && id == "" && mgr == null
      && writeStops == 1 && readStops == 1 && messagesClosed == 1 && connClosed == 1
    }

    constructor (manager: Gateway, immediately: bool)
      ensures Ok() && state == Created && id == "" && mgr == manager && messages == [] && sent == []
    {
      closeImmediately := immediately;
      state, id, mgr, messages, queuedMessage := Created, "", manager, [], 0;
      writeOnce, readOnce, writeStops, readStops, messagesClosed, connClosed, sent := false, false, 0, 0, 0, 0, [];
    }

    /** `EnqueueMessage`: false is its error on a closed client; a full queue drops the message without error. */
    method EnqueueMessage(msg: Message) returns (ok: bool)
      requires Ok()
      modifies this`messages, this`queuedMessage
      ensures Ok() && ok == (state != Closed)
      ensures messages == if ok && |old(messages)| < 100 then old(messages) + [msg] else old(messages)
    {
      if state == Closed {
        return false;
      }
      assert messagesClosed == 0;
      if |messages| < QUEUE_CAPACITY {
        messages := messages + [msg];
        queuedMessage := queuedMessage + 1;
      }
      ok := true;
    }

    method StopWrite()
      requires Ok()
      modifies this`writeOnce, this`writeStops
      ensures Ok() && writeOnce
    {
      if !writeOnce {
        writeOnce := true;
        writeStops := writeStops + 1;
      }
    }

    /** `write2Conn`: what can be encoded reaches the connection; a failed write, and nothing else, stops the write
        loop, through the once-guard. */
    method Write2Conn(m: Message, encodeFails: bool, writeFails: bool)
      requires Ok()
      modifies this`queuedMessage, this`writeOnce, this`writeStops, this`sent
      ensures Ok() && writeOnce == (old(writeOnce) || (!encodeFails && writeFails))
      ensures sent == old(sent) + [Sent(m, !encodeFails)]
      ensures queuedMessage == old(queuedMessage) - if encodeFails then 0 else 1
    {
      sent := sent + [Sent(m, !encodeFails)];
      if encodeFails {
        return;
      }
      queuedMessage := queuedMessage - 1;
      if writeFails {
        StopWrite();
      }
    }

    /** One turn of `runWrite`: the head of the queue goes to the connection, which may fail. */
    method WriteNext()
      requires Ok() && messages != []
      modifies this`messages, this`queuedMessage, this`writeOnce, this`writeStops, this`sent
      ensures Ok() && messages == old(messages)[1..] && (old(writeOnce) ==> writeOnce)
      ensures Taken(sent) == Taken(old(sent)) + [old(messages)[0]]
    {
      var m := messages[0];
      messages := messages[1..];
      var encodeFails: bool, writeFails: bool := *, *;
      Write2Conn(m, encodeFails, writeFails);
    }

    /** `stopReadWrite` */
    method StopReadWrite()
      requires Ok() && state == Closed
      modifies this`writeOnce, this`writeStops, this`readOnce, this`readStops
      ensures Ok() && writeStops == 1 && readStops == 1
    {
      StopWrite();
      if !readOnce {
        readOnce := true;
        readStops := readStops + 1;
      }
    }

    /** `close`, after the queue has been written out unless the client closes immediately. */
    method Finish()
      requires Ok() && state == Closed && writeOnce && messagesClosed == 0 && connClosed == 0
      modifies this`messages, this`queuedMessage, this`writeOnce, this`writeStops, this`messagesClosed, this`connClosed,
               this`sent
      ensures Ok() && writeOnce && messagesClosed == 1 && connClosed == 1
      ensures messages == if closeImmediately then old(messages) else []
      ensures Taken(sent) == Taken(old(sent)) + if closeImmediately then [] else old(messages)
    {
      if !closeImmediately {
        while messages != []
          invariant Ok() && writeOnce && messagesClosed == 0 && connClosed == 0
          invariant Taken(sent) + messages == Taken(old(sent)) + old(messages)
          decreases |messages|
        {
          WriteNext();
        }
      }
      messagesClosed := messagesClosed + 1;
      connClosed := connClosed + 1;
    }

    /** What `Exit` may touch: the client, and if it still has to unregister the gateway and whoever is filed there
        under the client's id. */
    ghost function Reach(): set<object>
      reads this, mgr
    {
      {this as object} +
      if state == Closed || mgr == null || id == "" then {}
      else {mgr as object} + if Key(mgr.gate, id) in mgr.clients then {mgr.clients[Key(mgr.gate, id)] as object} else {}
    }

    /** `Exit`. Called on its own it unregisters the client through the gateway, which calls back; called by the
        gateway, with the id already blank, it does not call again. The gateway goes by the id: if another client has
        since been filed under it, that other client is expelled too. */
    method Exit()
      requires Ok()
      requires state != Closed && mgr != null && id != "" ==> mgr.Valid() && !mgr.locked
      modifies Reach()
      ensures Ok() && state == Closed
      ensures old(state) == Closed ==> unchanged(this)
      ensures old(state) != Closed ==>
                Stopped() && Taken(sent) == Taken(old(sent)) + if closeImmediately then [] else old(messages)
      ensures var g := old(mgr);
              old(state) != Closed && g != null && old(id) != "" ==>
                && g.Valid() && !g.locked && g.Table() == Registry.Exit(g.gate, old(g.Table()), old(id)).1
                && this !in g.clients.Values
                && (Key(g.gate, old(id)) in old(g.clients) ==>
                      var c := old(g.clients)[Key(g.gate, old(id))];
                      c.Ok() && c.state == Closed && c.id == "" && (old(c.state) != Closed ==> c.Stopped()))
      decreases if state == Closed then 0 else if id == "" then 1 else 3, 0
    {
      hide Key, Present;
      if state == Closed {
        return;
      }
      state := Closed;
      var me := id;
      if mgr != null && me != "" {
        Unregister(me);
      }
      Shut();
    }

    /** The rest of `Exit`, which concerns the client alone. */
    method Shut()
      requires Ok() && state == Closed && messagesClosed == 0 && connClosed == 0
      modifies this
      ensures Ok() && Stopped()
      ensures Taken(sent) == Taken(old(sent)) + if closeImmediately then [] else old(messages)
    {
      id := "";
      mgr := null;
      StopReadWrite();
      Finish();
    }

    /** The call from `Exit` to the gateway; on the way back the gateway finds the client closed already. */
    method Unregister(me: ID)
      requires state == Closed && mgr != null && me == id != "" && Ok() && messagesClosed == 0 && connClosed == 0
      requires mgr.Valid() && !mgr.locked
      modifies this, mgr, if Key(mgr.gate, id) in mgr.clients then {mgr.clients[Key(mgr.gate, id)]} else {}
      ensures state == Closed && Ok() && messagesClosed == 0 && connClosed == 0 && mgr == old(mgr)
      ensures messages == old(messages) && sent == old(sent)
      ensures mgr.Valid() && !mgr.locked && this !in mgr.clients.Values
      ensures mgr.Table() == Registry.Exit(mgr.gate, old(mgr.Table()), me).1
      ensures Key(mgr.gate, me) in old(mgr.clients) ==>
                var c := old(mgr.clients)[Key(mgr.gate, me)];
                c.Ok() && c.state == Closed && c.id == "" && (old(c.state) != Closed ==> c.Stopped())
      decreases 2, 1
    {
      assert this in mgr.clients.Values ==> Key(mgr.gate, me) in mgr.clients && mgr.clients[Key(mgr.gate, me)] == this;
      var _ := mgr.ExitClient(me);
    }
  }

  class Gateway {
    const gate: string
    var clients: map<ID, UserClient>
    var log: seq<Presence>
    var locked: bool

    ghost function Table(): Reg<UserClient>
      reads this
    {
      Reg(clients, log)
    }

    /** Every registered client carries its own key, so none is under two keys, and the log tells who is here. */
    ghost predicate Valid()
      reads this, clients.Values
    {
      && Present(log) == clients.Keys
      && (forall k <- clients :: Filed(k, clients[k]))
    }

    /** A client that has not exited still knows its gateway. */
    ghost predicate Filed(k: ID, c: UserClient)
      reads c
    {
      Key(gate, k) == k && c.id == k && c.Ok() && (c.state != Closed ==> c.mgr == this)
    }

    method Lock()
      requires !locked
      modifies this`locked
      ensures locked
    {
      locked := true;
    }

    method Unlock()
      requires locked
      modifies this`locked
      ensures !locked
    {
      locked := false;
    }

    /** `ExitClient` */
    method ExitClient(clientID: ID) returns (r: Outcome)
      requires Valid() && !locked
      modifies this, if Key(gate, clientID) in clients then {clients[Key(gate, clientID)] as object} else {}
      ensures Valid() && !locked
      ensures (r, Table()) == Registry.Exit(gate, old(Table()), clientID)
      ensures r == Done ==>
                var c := old(clients[Key(gate, clientID)]);
                && c.Ok() && c.state == Closed && c.id == ""
                && (old(c.state) != Closed ==> c.Stopped())
                && (old(c.state) == Closed ==> && c.mgr == old(c.mgr) && c.messagesClosed == old(c.messagesClosed)
                                               && c.connClosed == old(c.connClosed)
                                               && c.messages == old(c.messages) && c.sent == old(c.sent))
                && c !in clients.Values
      decreases 2, 0
    {
      hide Key, Present;
      Lock();
      var k := Key(gate, clientID);
      if k !in clients {
        Unlock();
        return NotExist;
      }
      var cli := clients[k];
      ghost var before := clients;
      assert forall j <- clients :: j != k ==> clients[j] != cli;
      cli.id := "";
      clients := clients - {k};
      PresentSnoc(log, Offline(k));
      log := log + [Offline(k)];
      cli.Exit();
      Unlock();
      forall j | j in clients ensures Filed(j, clients[j]) {
        assert j in before && clients[j] != cli;
      }
      r := Done;
    }

    constructor (name: string)
      ensures gate == name && Valid() && !locked && Table() == Reg(map[], [])
    {
      gate, clients, log, locked := name, map[], [], false;
    }

    /** `AddClient`, for any client: the table stays valid exactly when the client is in order, belongs here and its
        own id already names this gateway. Whoever was filed under that id is dropped from the table. */
    method AddClient(cs: UserClient)
      requires Valid() && !locked
      modifies this
      ensures !locked && Table() == Registry.Add(gate, old(Table()), cs.id, cs)
      ensures clients == old(clients)[Key(gate, cs.id) := cs] && log == old(log) + [Online(Key(gate, cs.id))]
      ensures Valid() <==> Filed(cs.id, cs)
    {
      hide Present;
      Lock();
      var k := Key(gate, cs.id);
      SetGatewayIdempotent(cs.id, gate);
      PresentSnoc(log, Online(k));
      clients := clients[k := cs];
      log := log + [Online(k)];
      Unlock();
      assert clients[k] == cs;
    }

    /** `SetClientID` */
    method SetClientID(oldID: ID, newID: ID) returns (r: Outcome)
      requires Valid() && !locked
      modifies this, clients.Values`id
      ensures Valid() && !locked
      ensures (r, Table()) == Registry.Rename(gate, old(Table()), oldID, newID)
      ensures var o, n := Key(gate, oldID), Key(gate, newID);
              && (r == NotExist <==> o !in old(clients)) && (r == Done <==> o in old(clients) && n !in old(clients))
              && (r == Done ==> && n in clients && o !in clients && clients[n] == old(clients)[o] && clients[n].id == n
                                && clients == (old(clients) - {o})[n := clients[n]]
                                && log == old(log) + [Offline(o), Online(n)])
              && (r != Done ==> Table() == old(Table()))
      ensures clients.Values == old(clients.Values)
      ensures r != Done ==> forall c <- clients.Values :: c.id == old(c.id)
    {
      Lock();
      var o, n := Key(gate, oldID), Key(gate, newID);
      if o !in clients {
        Unlock();
        return NotExist;
      }
      if n in clients {
        Unlock();
        return AlreadyExist;
      }
      SetGatewayIdempotent(newID, gate);
      RenameKeepsValues(gate, Table(), oldID, newID);
      Move(o, n);
      Unlock();
      r := Done;
    }

    /** The change `SetClientID` makes once both ids have been checked. */
    method Move(o: ID, n: ID)
      requires Valid() && locked && o in clients && n !in clients && Key(gate, n) == n
      modifies this`clients, this`log, {clients[o]}`id
      ensures Valid() && clients == (old(clients) - {o})[n := old(clients[o])]
      ensures log == old(log) + [Offline(o), Online(n)]
    {
      hide Key, Present;
      var cli := clients[o];
      assert forall j <- clients :: j != o ==> clients[j] != cli;
      MovePresent(log, o, n);
      cli.id := n;
      clients := clients - {o};
      log := log + [Offline(o)];
      log := log + [Online(n)];
      clients := clients[n := cli];
      assert log == old(log) + [Offline(o), Online(n)];
      assert Present(log) == clients.Keys;
      forall k | k in clients ensures Filed(k, clients[k]) {
        if k != n {
          assert k in old(clients) && clients[k] != cli;
        }
      }
    }

    /** `EnqueueMessage`; `free` says whether the worker pool takes the task. */
    method EnqueueMessage(clientID: ID, msg: Message, free: bool) returns (d: Delivery)
      requires Valid() && !locked
      modifies if Key(gate, clientID) in clients then {clients[Key(gate, clientID)]} else {}
      ensures Valid() && Table() == old(Table())
      ensures d == Submitted <==>
                Key(gate, clientID) in clients && clients[Key(gate, clientID)].state == Running && free
      ensures d == NoClient <==> Key(gate, clientID) !in clients
      ensures d == ClientClosed <==>
                Key(gate, clientID) in clients && clients[Key(gate, clientID)].state != Running
      ensures Key(gate, clientID) in clients ==>
                var c := clients[Key(gate, clientID)];
                && c.state == old(c.state)
                && c.messages == if d == Submitted && |old(c.messages)| < QUEUE_CAPACITY
                                 then old(c.messages) + [msg] else old(c.messages)
    {
      var k := Key(gate, clientID);
      if k !in clients {
        return NoClient;
      }
      var cli := clients[k];
      if cli.state != Running {
        return ClientClosed;
      }
      if !free {
        return PoolFull;
      }
      assert forall j <- clients :: j != k ==> clients[j] != cli;
      var _ := cli.EnqueueMessage(msg);
      d := Submitted;
    }

    /** `Authenticator.updateClient` on this gateway: the table becomes what `LogIn` says, and a client moved out of
        the way is sent the kick-out message, which reaches its queue if it runs, has room and the pool is free. */
    method UpdateClient(dc: UserClient, uid: string, deviceName: string, deviceId: string, random: seq<Byte>,
                        free: bool)
      returns (r: Outcome, newID: ID)
      requires Valid() && !locked && |random| == 16
      modifies this, clients.Values
      ensures Valid() && !locked
      ensures var out := LogIn(gate, old(Table()), old(dc.id), uid, TempID("", random));
              && r == out.outcome && newID == out.id && Table() == out.reg
              && (out.kicked != [] ==>
                    && Key(gate, NewID2(uid)) in old(clients)
                    && Key(gate, TempID("", random)) !in old(clients)
                    && var holder := old(clients[Key(gate, NewID2(uid))]);
                       holder.messages == old(holder.messages)
                         + if old(holder.state) == Running && free && |old(holder.messages)| < QUEUE_CAPACITY
                           then [KickOutNotify(deviceName, deviceId)] else [])
      ensures clients.Values == old(clients.Values)
      ensures forall c <- old(clients.Values) ::
                c.state == old(c.state) &&
                (c.messages != old(c.messages) ==>
                   Key(gate, NewID2(uid)) in old(clients) && c == old(clients[Key(gate, NewID2(uid))]))
    {
      hide Key, NewID2, TempID, Equals, Valid;
      var oldID := dc.id;
      newID := NewID2(uid);
      r := SetClientID(oldID, newID);
      if r == AlreadyExist {
        if Equals(newID, oldID) {
          return Done, newID;
        }
        var tempID := GenTempID("", random);
        r := Displace(newID, tempID, KickOutNotify(deviceName, deviceId), free);
        if r != Done {
          return r, "";
        }
        r := SetClientID(oldID, newID);
        if r != Done {
          return r, "";
        }
      }
    }

    /** The holder of newID moves to tempID and is sent a message there. */
    method Displace(newID: ID, tempID: ID, msg: Message, free: bool) returns (r: Outcome)
      requires Valid() && !locked && Key(gate, newID) in clients
      modifies this, clients.Values
      ensures Valid() && !locked
      ensures (r, Table()) == Registry.Rename(gate, old(Table()), newID, tempID)
      ensures clients.Values == old(clients.Values)
      ensures forall c <- clients.Values :: c.state == old(c.state)
      ensures forall c <- clients.Values :: c != old(clients[Key(gate, newID)]) ==> c.messages == old(c.messages)
      ensures var holder := old(clients[Key(gate, newID)]);
              holder.messages == old(holder.messages)
                + if r == Done && old(holder.state) == Running && free && |old(holder.messages)| < QUEUE_CAPACITY
                  then [msg] else []
    {
      hide Key, Valid;
      r := SetClientID(newID, tempID);
      if r == Done {
        assert clients[Key(gate, tempID)] == old(clients[Key(gate, newID)]);
        var _ := EnqueueMessage(tempID, msg, free);
      }
    }

    /** `HandleConnection`: the new client is registered under its temporary id before it runs. */
    method HandleConnection(random: seq<Byte>) returns (clientID: ID)
      requires Valid() && !locked && |random| == 16
      modifies this
      ensures Valid() && !locked && clientID == TempID(gate, random)
      ensures clientID in clients && fresh(clients[clientID]) && clients[clientID].state == Running
      ensures clients[clientID].messages == [Hello(UID(clientID))]
      ensures Table() == Registry.Add(gate, old(Table()), clientID, clients[clientID])
    {
      hide Present, UID, TempID;
      clientID := GenTempID(gate, random);
      TempIDKey(gate, random);
      var ret := new UserClient(this, false);
      ret.id := clientID;
      AddClient(ret);
      Greet(clientID);
    }

    /** The client runs and gets its hello message. */
    method Greet(k: ID)
      requires Valid() && k in clients && clients[k].state == Created && clients[k].messages == []
      modifies clients[k]
      ensures Valid() && clients[k].state == Running && clients[k].messages == [Hello(UID(k))]
    {
      hide Key, Present, UID;
      assert forall j <- clients :: j != k ==> clients[j] != clients[k];
      clients[k].state := Running;
      var _ := clients[k].EnqueueMessage(Hello(UID(k)));
    }
  }

  lemma TempIDKey(g: string, random: seq<Byte>)
    requires |random| == 16
    ensures Key(g, TempID(g, random)) == TempID(g, random)
  {
    Join3(g, TEMP_PREFIX + Dashed(Version4(random)), "");
  }

  /** A registered client leaving on its own unregisters, with exactly one offline event, if and only if its id is not
      blank; either way it ends closed, its stop channels, queue and connection closed once. */
  method Leave(g: Gateway, k: ID)
    requires g.Valid() && !g.locked && k in g.clients && g.clients[k].state != Closed
    modifies g, g.clients[k]
    ensures g.Valid() && !g.locked && old(g.clients[k]).Stopped()
    ensures k !in g.clients <==> k != ""
    ensures g.log == old(g.log) + if k != "" then [Offline(k)] else []
    ensures g.clients == if k != "" then old(g.clients) - {k} else old(g.clients)
  {
    hide Present;
    ghost var c := g.clients[k];
    assert forall j <- g.clients :: j != k ==> g.clients[j] != c;
    g.clients[k].Exit();
    forall j | j in g.clients ensures g.Filed(j, g.clients[j]) {
      assert j != k ==> g.clients[j] != c;
    }
  }

  /** Any client of the gateway leaving on its own, registered or overtaken: another client loses its registration if
      and only if it is the one filed under the leaver's id by then; nobody else is touched. */
  method Depart(g: Gateway, c: UserClient)
    requires g.Valid() && !g.locked && c.Ok() && c.mgr == g && c.state != Closed && c.id != ""
    modifies c.Reach()
    ensures g.Valid() && !g.locked && c.Stopped() && c !in g.clients.Values
    ensures forall d <- old(g.clients.Values) :: d != c ==>
              (d !in g.clients.Values
               <==> Key(g.gate, old(c.id)) in old(g.clients) && d == old(g.clients)[Key(g.gate, old(c.id))])
    ensures forall d <- g.clients.Values :: d in old(g.clients.Values) && unchanged(d)
  {
    hide Key, Present;
    ghost var k, before := Key(g.gate, c.id), g.clients;
    assert forall i, j :: i in before && j in before && before[i] == before[j] ==> i == j by {
      assert forall i <- before :: g.Filed(i, before[i]);
    }
    c.Exit();
    forall d | d in before.Values ensures d in g.clients.Values <==> !(k in before && d == before[k]) {
      var j :| j in before && before[j] == d;
      assert j != k ==> j in g.clients && g.clients[j] == d;
    }
  }

  lemma ValidSound(g: Gateway)
    requires g.Valid()
    ensures Sound(g.gate, g.Table())
  {
    assert forall k <- g.clients :: g.Filed(k, g.clients[k]);
  }

  /** A registered client logs in as any user: it succeeds under the exact condition, and then has the user's key, under
      that key alone, if and only if the ids were not confused; a different former holder is under the temporary key,
      told if it can be. */
  method Authenticate(g: Gateway, dc: UserClient, uid: string, deviceName: string, deviceId: string,
                      random: seq<Byte>, free: bool)
    returns (r: Outcome)
    requires g.Valid() && !g.locked && |random| == 16
    requires dc.id in g.clients && g.clients[dc.id] == dc
    modifies g, g.clients.Values
    ensures g.Valid() && !g.locked
    ensures var o, n, k := old(dc.id), Key(g.gate, NewID2(uid)), Key(g.gate, TempID("", random));
            var confused := n in old(g.clients) && n != o && Equals(NewID2(uid), o);
            && (r == Done <==>
                  n !in old(g.clients) || Equals(NewID2(uid), o) || (o != n && k !in old(g.clients)))
            && (r == Done ==> && n in g.clients && (g.clients[n] == dc <==> !confused)
                              && (dc.id == n <==> !confused)
                              && forall j <- g.clients :: g.clients[j] == dc ==> j == dc.id)
            && (confused ==> g.Table() == old(g.Table()))
            && (r == Done && n in old(g.clients) && n != o && !confused ==>
                  var holder := old(g.clients)[n];
                  && k in g.clients && g.clients[k] == holder && holder.id == k && holder != dc
                  && holder.messages == old(holder.messages)
                       + if old(holder.state) == Running && free && |old(holder.messages)| < QUEUE_CAPACITY
                         then [KickOutNotify(deviceName, deviceId)] else [])
  {
    hide LogIn, NewID2, Key, Present, TempID, Equals;
    ghost var o, temp, table := dc.id, TempID("", random), g.Table();
    ValidSound(g);
    assert g.Filed(o, dc);
    LogInSucceeds(g.gate, table, o, uid, temp);
    if LogIn(g.gate, table, o, uid, temp).outcome == Done {
      KickOut(g.gate, table, o, uid, temp);
    }
    var newID;
    r, newID := g.UpdateClient(dc, uid, deviceName, deviceId, random, free);
    assert forall j <- g.clients :: g.Filed(j, g.clients[j]);
    ValidSound(g);
  }
}
