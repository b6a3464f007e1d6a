/** The publish/subscribe channel as a state machine: subscribing, publishing into a bounded queue, and the pump that
    takes the queue's head and pushes it to the subscribers. */
module ChannelSpec {
  import opened Digits
  import opened Options
  import opened SeqAlloc

  type SubId = string

  const QUEUE_CAPACITY := 100

  const TYPE_UNKNOWN := 0
  const TYPE_NOTIFY := 1
  const TYPE_MESSAGE := 2
  const TYPE_SYSTEM := 3

  const MASK_READ := 1
  const MASK_WRITE := 2
  const MASK_ADMIN := 4
  const MASK_SYSTEM := 8

  /** `Permission.allows` for one mask: the bit at that position, in two's complement. */
  predicate Allows(perm: int, mask: nat) {
    perm / Pow(2, mask) % 2 == 1
  }

  /** What a message carries: a chat message that decodes; one that `enqueue` has numbered, which is a pointer to a
      pointer and does not decode again; anything else; or no message at all. */
  datatype Body = Chat(text: string) | Boxed(text: string, seqNo: int) | Notice(text: string, members: set<SubId>)
                | Undecodable | Missing

  datatype Message = Message(from: SubId, to: seq<SubId>, seqNo: int, kind: int, body: Body)

  datatype Info = Info(muted: bool, blocked: bool, closed: bool, secret: string)

  datatype SubscriberOptions = SubscriberOptions(perm: int, ticket: string)

  /** An argument of interface type where a pointer is expected: the pointer, nil of that type, nil, or another type. */
  datatype Arg<T> = Given(value: T) | NilPointer | Nil | Foreign

  /** One message handed to the gateway for a set of subscribers. */
  datatype Push = Push(msg: Message, to: set<SubId>)

  datatype Result = Ok | BadOptions | BadMessage | ChannelClosed | ChannelBlocked | InvalidTicket | NotSubscribed
                  | UnknownType | NotMember | NoWrite | Muted | BadBody | NoSequence | StoreError | QueueFull | Panic

  /** `stored` and `pushes` record what the message store and the gateway were handed; `accepted` what entered the
      queue; `frontier` is where the sequence store stands for this channel. */
  datatype Chan = Chan(alloc: Alloc, queue: seq<Message>, queueClosed: bool, subs: map<SubId, int>, info: Info,
                       stored: seq<Message>, pushes: seq<Push>, accepted: seq<Message>, frontier: int)

  /** The ticket of a subscription under a channel secret. */
  type TicketFn = (int, SubId, string) -> string

  datatype Op =
    | Subscribe(id: SubId, options: Arg<SubscriberOptions>)
    | Unsubscribe(id: SubId)
    | Update(info: Option<Info>)
    | Publish(msg: Arg<Message>, grant: Grant, storeOk: bool)
    | Pump
    | Close

  /** A non-blocking send: it panics on a closed queue and fails on a full one. */
  function Enqueue(c: Chan, m: Message): (Chan, Result) {
    if c.queueClosed then (c, Panic)
    else if |c.queue| >= QUEUE_CAPACITY then (c, QueueFull)
    else (c.(queue := c.queue + [m], accepted := c.accepted + [m]), Ok)
  }

  function Announce(id: SubId, what: string): Message {
    Message("", [], 0, TYPE_UNKNOWN, Notice(what + id, {}))
  }

  function Roster(id: SubId, members: set<SubId>): Message {
    Message("", [id], 0, TYPE_UNKNOWN, Notice("members", members))
  }

  function DoSubscribe(t: TicketFn, c: Chan, id: SubId, options: Arg<SubscriberOptions>): (Chan, Result) {
    if options.Nil? then (c, Panic)
    else if options.Foreign? then (c, BadOptions)
    else if c.info.closed then (c, ChannelClosed)
    else if c.info.blocked then (c, ChannelBlocked)
    else if options.NilPointer? then (c, Panic)
    else
      var so := options.value;
      if id in c.subs then (c.(subs := c.subs[id := so.perm]), Ok)
      else if c.info.secret != "" && (so.ticket == "" || so.ticket != t(so.perm, id, c.info.secret)) then
        (c, InvalidTicket)
      else
        var c := c.(subs := c.subs[id := so.perm]);
        var (c, r) := Enqueue(c, Announce(id, "online "));
        if r == Panic then (c, Panic)
        else
          var (c, r) := Enqueue(c, Roster(id, c.subs.Keys));
          (c, if r == Panic then Panic else Ok)
  }

  function DoUnsubscribe(c: Chan, id: SubId): (Chan, Result) {
    if id !in c.subs then (c, NotSubscribed)
    else
      var (c, r) := Enqueue(c.(subs := c.subs - {id}), Announce(id, "offline "));
      (c, if r == Panic then Panic else Ok)
  }

  /** The checks of `Publish` on the sender. */
  function Refusal(c: Chan, m: Message): Result {
    if c.info.closed then ChannelClosed
    else if !(TYPE_UNKNOWN < m.kind <= TYPE_SYSTEM) then UnknownType
    else if m.from !in c.subs then NotMember
    else
      var perm := c.subs[m.from];
      if !Allows(perm, MASK_WRITE) then NoWrite
      else if c.info.muted && (!Allows(perm, MASK_SYSTEM) || !Allows(perm, MASK_ADMIN)) then Muted
      else if c.info.blocked && !Allows(perm, MASK_SYSTEM) then ChannelBlocked
      else Ok
  }

  /** A chat message is numbered and stored before it is queued; a number once taken is not given back, and the
      message does not decode any more. */
  function DoEnqueue(c: Chan, m: Message, grant: Grant, storeOk: bool): (Chan, Result) {
    if m.body.Missing? then (c, Panic)
    else if !m.body.Chat? then (c, BadBody)
    else
      var (a, n) := Next(c.alloc, grant);
      var c := c.(alloc := a, frontier := Frontier(c, grant));
      if n.None? then (c, NoSequence)
      else
        var m := m.(seqNo := n.value, body := Boxed(m.body.text, n.value));
        if !storeOk then (c, StoreError) else Enqueue(c.(stored := c.stored + [m]), m)
  }

  function Frontier(c: Chan, grant: Grant): int {
    if NeedsSegment(c.alloc) && grant.Granted? then grant.start + grant.length else c.frontier
  }

  function DoPublish(c: Chan, msg: Arg<Message>, grant: Grant, storeOk: bool): (Chan, Result) {
    if c.info.closed then (c, ChannelClosed)
    else if msg.Foreign? then (c, BadMessage)
    else if !msg.Given? then (c, Panic)
    else
      var m := msg.value;
      if Refusal(c, m) != Ok then (c, Refusal(c, m))
      else if m.kind == TYPE_NOTIFY then Enqueue(c, m)
      else if m.kind == TYPE_MESSAGE then DoEnqueue(c, m, grant, storeOk)
      else (c, UnknownType)
  }

  /** Who gets a message: subscribers that may read and, if the message names recipients, are among them. */
  function Audience(subs: map<SubId, int>, m: Message): set<SubId> {
    set id | id in subs && Allows(subs[id], MASK_READ) && (m.to == [] || id in m.to)
  }

  function DoPump(c: Chan): (Chan, Result) {
    if c.queue == [] then (c, Ok)
    else (c.(queue := c.queue[1..], pushes := c.pushes + [Push(c.queue[0], Audience(c.subs, c.queue[0]))]), Ok)
  }

  function DoClose(c: Chan): (Chan, Result) {
    if c.queueClosed then (c.(info := c.info.(closed := true)), Panic)
    else (c.(info := c.info.(closed := true), queueClosed := true, subs := map[]), Ok)
  }

  function Step(t: TicketFn, c: Chan, op: Op): (Chan, Result) {
    match op
    case Subscribe(id, options) => DoSubscribe(t, c, id, options)
    case Unsubscribe(id) => DoUnsubscribe(c, id)
    case Update(ci) => if ci.None? then (c, Panic) else (c.(info := ci.value.(closed := c.info.closed)), Ok)
    case Publish(m, grant, storeOk) => DoPublish(c, m, grant, storeOk)
    case Pump => DoPump(c)
    case Close => DoClose(c)
  }

  function New(start: int, length: int): Chan {
    Chan(Alloc(start, length), [], false, map[], Info(false, false, false, ""), [], [], [], start + length)
  }

  function Run(t: TicketFn, c: Chan, ops: seq<Op>): Chan {
    if ops == [] then c else Step(t, Run(t, c, ops[..|ops| - 1]), ops[|ops| - 1]).0
  }

  /** The sequence store only moves forward. */
  ghost predicate LegalOp(c: Chan, op: Op) {
    op.Publish? && NeedsSegment(c.alloc) && op.grant.Granted? ==> op.grant.start >= c.frontier && op.grant.length >= 1
  }

  ghost predicate LegalRun(t: TicketFn, c: Chan, ops: seq<Op>) {
    forall k :: 0 <= k < |ops| ==> LegalOp(Run(t, c, ops[..k]), ops[k])
  }

  // What every step keeps.

  predicate IsChat(m: Message) {
    m.kind == TYPE_MESSAGE
  }

  ghost predicate ChatIncreasing(ms: seq<Message>) {
    forall i, j :: 0 <= i < j < |ms| && IsChat(ms[i]) && IsChat(ms[j]) ==> ms[i].seqNo < ms[j].seqNo
  }

  function Pushed(pushes: seq<Push>): seq<Message> {
    seq(|pushes|, i requires 0 <= i < |pushes| => pushes[i].msg)
  }

  /** What one subscriber was handed, in order. */
  function ReceivedBy(pushes: seq<Push>, id: SubId): seq<Message> {
    if pushes == [] then []
    else
      var last := pushes[|pushes| - 1];
      ReceivedBy(pushes[..|pushes| - 1], id) + if id in last.to then [last.msg] else []
  }

  /** The queue is the part of what was accepted that has not been pushed; chat messages were stored and numbered
      before, in increasing order; and a closed queue means a closed channel without subscribers. */
  ghost predicate Inv(c: Chan) {
    && c.accepted == Pushed(c.pushes) + c.queue
    && |c.queue| <= QUEUE_CAPACITY
    && ChatIncreasing(c.accepted) && ChatIncreasing(c.stored)
    && (forall m <- c.accepted :: IsChat(m) ==> m in c.stored && m.body.Boxed? && m.body.seqNo == m.seqNo)
    && (forall m <- c.stored :: IsChat(m) && m.seqNo <= c.alloc.seqNo)
    && c.alloc.seqNo < c.frontier && (c.alloc.remain >= 1 ==> c.alloc.seqNo + c.alloc.remain <= c.frontier)
    && (c.queueClosed <==> c.info.closed)
    && (c.info.closed ==> c.subs == map[])
  }

  lemma NewInv(start: int, length: int)
    requires length >= 1
    ensures Inv(New(start, length))
  {}

  /** The number taken is above all numbers taken before, and the allocator stays below the store's frontier. */
  lemma NextAbove(c: Chan, grant: Grant)
    requires c.alloc.seqNo < c.frontier && (c.alloc.remain >= 1 ==> c.alloc.seqNo + c.alloc.remain <= c.frontier)
    requires NeedsSegment(c.alloc) && grant.Granted? ==> grant.start >= c.frontier && grant.length >= 1
    ensures var (a, n) := Next(c.alloc, grant);
            var f := Frontier(c, grant);
            && a.seqNo < f && (a.remain >= 1 ==> a.seqNo + a.remain <= f)
            && a.seqNo >= c.alloc.seqNo
            && (n.Some? ==> c.alloc.seqNo < n.value == a.seqNo)
  {}

  lemma EnqueueInv(c: Chan, m: Message)
    requires Inv(c) && !c.queueClosed
    requires IsChat(m) ==> && m in c.stored && m.body.Boxed? && m.body.seqNo == m.seqNo
                           && forall x <- c.accepted :: IsChat(x) ==> x.seqNo < m.seqNo
    ensures Inv(Enqueue(c, m).0) && Enqueue(c, m).1 != Panic
    ensures Enqueue(c, m).0 == c.(queue := Enqueue(c, m).0.queue, accepted := Enqueue(c, m).0.accepted)
  {
    var c' := Enqueue(c, m).0;
    assert Pushed(c.pushes) + (c.queue + [m]) == Pushed(c.pushes) + c.queue + [m];
  }

  lemma DoEnqueueInv(c: Chan, m: Message, grant: Grant, storeOk: bool)
    requires Inv(c) && !c.queueClosed && m.kind == TYPE_MESSAGE
    requires NeedsSegment(c.alloc) && grant.Granted? ==> grant.start >= c.frontier && grant.length >= 1
    ensures Inv(DoEnqueue(c, m, grant, storeOk).0)
    ensures DoEnqueue(c, m, grant, storeOk).1 == Panic <==> m.body.Missing?
  {
    NextAbove(c, grant);
    var (a, n) := Next(c.alloc, grant);
    var c1 := c.(alloc := a, frontier := Frontier(c, grant));
    assert Inv(c1);
    if m.body.Chat? && n.Some? && storeOk {
      var m' := m.(seqNo := n.value, body := Boxed(m.body.text, n.value));
      var c2 := c1.(stored := c1.stored + [m']);
      assert Inv(c2);
      EnqueueInv(c2, m');
    }
  }

  lemma SubscribeInv(t: TicketFn, c: Chan, id: SubId, options: Arg<SubscriberOptions>)
    requires Inv(c)
    ensures Inv(DoSubscribe(t, c, id, options).0)
    ensures DoSubscribe(t, c, id, options).1 == Panic <==>
              options.Nil? || (options.NilPointer? && !c.info.closed && !c.info.blocked)
  {
    hide Inv;
    InvClosed(c);
    if options.Given? && !c.info.closed {
      var c1 := c.(subs := c.subs[id := options.value.perm]);
      InvSubs(c, c1);
      EnqueueInv(c1, Announce(id, "online "));
      EnqueueInv(Enqueue(c1, Announce(id, "online ")).0, Roster(id, c1.subs.Keys));
    }
  }

  lemma InvClosed(c: Chan)
    requires Inv(c)
    ensures c.queueClosed <==> c.info.closed
    ensures c.info.closed ==> c.subs == map[]
  {}

  lemma InvSubs(c: Chan, c': Chan)
    requires Inv(c) && !c.info.closed && c' == c.(subs := c'.subs)
    ensures Inv(c')
  {}

  lemma PumpInv(c: Chan)
    requires Inv(c)
    ensures Inv(DoPump(c).0)
  {
    if c.queue != [] {
      var c' := DoPump(c).0;
      assert Pushed(c'.pushes) == Pushed(c.pushes) + [c.queue[0]];
      assert c.queue == [c.queue[0]] + c.queue[1..];
    }
  }

  /** The calls that panic: closing twice; nil where something is read from, unless a check before it answers; and a
      chat message by somebody who may publish, without the message. */
  predicate Panics(c: Chan, op: Op) {
    match op
    case Subscribe(_, options) => options.Nil? || (options.NilPointer? && !c.info.closed && !c.info.blocked)
    case Unsubscribe(_) => false
    case Update(ci) => ci.None?
    case Publish(msg, _, _) =>
      && !c.info.closed
      && (msg.Nil? || msg.NilPointer?
          || (msg.Given? && IsChat(msg.value) && msg.value.body.Missing? && Refusal(c, msg.value) == Ok))
    case Pump => false
    case Close => c.info.closed
  }

  /** Every step keeps the invariant, and exactly those calls panic; they change nothing. */
  lemma StepInv(t: TicketFn, c: Chan, op: Op)
    requires Inv(c) && LegalOp(c, op)
    ensures Inv(Step(t, c, op).0)
    ensures Step(t, c, op).1 == Panic <==> Panics(c, op)
    ensures Panics(c, op) ==> Step(t, c, op).0 == c
  {
    hide Inv;
    InvClosed(c);
    match op
    case Subscribe(id, options) => SubscribeInv(t, c, id, options);
    case Unsubscribe(id) =>
      if id in c.subs {
        var c1 := c.(subs := c.subs - {id});
        InvSubs(c, c1);
        EnqueueInv(c1, Announce(id, "offline "));
      }
    case Update(ci) => InvInfo(c, Step(t, c, op).0);
    case Publish(msg, grant, storeOk) =>
      if msg.Given? && Refusal(c, msg.value) == Ok {
        var m := msg.value;
        if m.kind == TYPE_NOTIFY {
          EnqueueInv(c, m);
        } else if m.kind == TYPE_MESSAGE {
          DoEnqueueInv(c, m, grant, storeOk);
        }
      }
    case Pump => PumpInv(c);
    case Close => InvClose(c);
  }

  lemma InvInfo(c: Chan, c': Chan)
    requires Inv(c) && c' == c.(info := c'.info) && c'.info.closed == c.info.closed
    ensures Inv(c')
  {}

  lemma InvClose(c: Chan)
    requires Inv(c)
    ensures Inv(DoClose(c).0)
  {}

  lemma {:induction false} RunInv(t: TicketFn, c: Chan, ops: seq<Op>)
    requires Inv(c) && LegalRun(t, c, ops)
    ensures Inv(Run(t, c, ops))
  {
    if ops != [] {
      var init := ops[..|ops| - 1];
      assert forall k :: 0 <= k < |init| ==> init[..k] == ops[..k] && init[k] == ops[k];
      RunInv(t, c, init);
      assert LegalOp(Run(t, c, ops[..|ops| - 1]), ops[|ops| - 1]);
      StepInv(t, Run(t, c, init), ops[|ops| - 1]);
    }
  }

  lemma ChatPrefix(a: seq<Message>, b: seq<Message>)
    requires ChatIncreasing(a + b)
    ensures ChatIncreasing(a)
  {
    assert forall i :: 0 <= i < |a| ==> (a + b)[i] == a[i];
  }

  /** What a subscriber received is part of what was pushed, in the same order. */
  lemma {:induction false} ReceivedIncreasing(pushes: seq<Push>, id: SubId)
    requires ChatIncreasing(Pushed(pushes))
    ensures ChatIncreasing(ReceivedBy(pushes, id))
    ensures forall m <- ReceivedBy(pushes, id) :: m in Pushed(pushes)
  {
    if pushes != [] {
      var init, last := pushes[..|pushes| - 1], pushes[|pushes| - 1];
      assert Pushed(pushes) == Pushed(init) + [last.msg];
      ChatPrefix(Pushed(init), [last.msg]);
      ReceivedIncreasing(init, id);
      var got := ReceivedBy(init, id);
      forall m | m in got && IsChat(m) && IsChat(last.msg) ensures m.seqNo < last.msg.seqNo {
        var k :| 0 <= k < |init| && Pushed(init)[k] == m;
        assert Pushed(pushes)[k] == m && Pushed(pushes)[|init|] == last.msg;
      }
    }
  }

  /** Over every run: each subscriber receives chat messages with strictly increasing numbers, all of them stored
      before; what was queued is exactly what was pushed, in that order, and what still waits. */
  lemma Ordering(t: TicketFn, start: int, length: int, ops: seq<Op>, id: SubId)
    requires length >= 1 && LegalRun(t, New(start, length), ops)
    ensures var c := Run(t, New(start, length), ops);
            && c.accepted == Pushed(c.pushes) + c.queue
            && ChatIncreasing(ReceivedBy(c.pushes, id))
            && (forall m <- ReceivedBy(c.pushes, id) :: IsChat(m) ==>
                  m in c.stored && m.body.Boxed? && m.body.seqNo == m.seqNo)
            && ChatIncreasing(c.stored)
  {
    var c := Run(t, New(start, length), ops);
    NewInv(start, length);
    RunInv(t, New(start, length), ops);
    ChatPrefix(Pushed(c.pushes), c.queue);
    ReceivedIncreasing(c.pushes, id);
    forall m | m in ReceivedBy(c.pushes, id) ensures m in c.accepted {
      assert m in Pushed(c.pushes);
    }
  }

  /** Deliveries happen in pump steps only, one message at a time, to exactly the current subscribers that may read
      it and, if it names recipients, are named. */
  lemma DeliverySafety(t: TicketFn, c: Chan, op: Op)
    ensures var c' := Step(t, c, op).0;
            if op == Pump && c.queue != [] then
              var p := Push(c.queue[0], c'.pushes[|c'.pushes| - 1].to);
              && c'.pushes == c.pushes + [p] && c'.queue == c.queue[1..]
              && forall id :: id in p.to <==>
                   id in c.subs && Allows(c.subs[id], MASK_READ) && (p.msg.to == [] || id in p.msg.to)
            else c'.pushes == c.pushes && c.queue <= c'.queue
    ensures op == Pump ==>
              Step(t, c, op).1 == Ok
              && Step(t, c, op).0 == c.(queue := Step(t, c, op).0.queue, pushes := Step(t, c, op).0.pushes)
  {}

  /** Over every run: each delivery was made by one pump step i, of the message then at the head, to exactly those who
      at that moment were subscribed, could read, and were named if anybody was. */
  lemma {:induction false} EveryDelivery(t: TicketFn, start: int, length: int, ops: seq<Op>, k: nat) returns (i: nat)
    requires k < |Run(t, New(start, length), ops).pushes|
    ensures i < |ops| && ops[i] == Pump
    ensures var at := Run(t, New(start, length), ops[..i]);
            var p := Run(t, New(start, length), ops).pushes[k];
            && at.queue != [] && |at.pushes| == k && p.msg == at.queue[0]
            && forall id :: id in p.to <==>
                 id in at.subs && Allows(at.subs[id], MASK_READ) && (p.msg.to == [] || id in p.msg.to)
    decreases |ops|
  {
    hide Step, Allows;
    var init, op := ops[..|ops| - 1], ops[|ops| - 1];
    var c := Run(t, New(start, length), init);
    DeliverySafety(t, c, op);
    if k < |c.pushes| {
      i := EveryDelivery(t, start, length, init, k);
      assert ops[..i] == init[..i];
    } else {
      i := |ops| - 1;
    }
  }

  /** Who gets in: nobody on a closed or blocked channel; a member always, to change its permissions; a newcomer
      with the right ticket, if the channel has a secret. */
  ghost predicate Admitted(t: TicketFn, c: Chan, id: SubId, so: SubscriberOptions) {
    && !c.info.closed && !c.info.blocked
    && (id in c.subs || c.info.secret == "" || (so.ticket != "" && so.ticket == t(so.perm, id, c.info.secret)))
  }

  /** Subscribing succeeds exactly for the admitted and then sets that one permission; a newcomer is announced to
      everybody and told the members, itself included, if the queue has room for both. */
  lemma Admission(t: TicketFn, c: Chan, id: SubId, so: SubscriberOptions)
    requires Inv(c)
    ensures var (c', r) := Step(t, c, Subscribe(id, Given(so)));
            && (r == Ok <==> Admitted(t, c, id, so))
            && (r != Ok ==> c' == c && r == if c.info.closed then ChannelClosed
                                           else if c.info.blocked then ChannelBlocked else InvalidTicket)
            && (r == Ok ==> c'.subs == c.subs[id := so.perm])
            && (r == Ok && id in c.subs ==> c'.queue == c.queue)
            && (r == Ok && id !in c.subs && |c.queue| + 2 <= QUEUE_CAPACITY ==>
                  |c'.queue| == |c.queue| + 2 && c.queue <= c'.queue
                  && c'.queue[|c.queue|].to == [] && c'.queue[|c.queue|].body.Notice?
                  && c'.queue[|c.queue| + 1].to == [id]
                  && c'.queue[|c.queue| + 1].body.Notice? && c'.queue[|c.queue| + 1].body.members == c.subs.Keys + {id})
            && (c'.stored, c'.pushes, c'.alloc, c'.info) == (c.stored, c.pushes, c.alloc, c.info)
  {
    hide Inv;
    InvClosed(c);
  }

  /** Who may publish: a member with the write bit; on a muted channel an administrator that is also system, on a
      blocked one system only. */
  ghost predicate MayPublish(c: Chan, from: SubId) {
    && !c.info.closed && from in c.subs && Allows(c.subs[from], MASK_WRITE)
    && (c.info.muted ==> Allows(c.subs[from], MASK_ADMIN) && Allows(c.subs[from], MASK_SYSTEM))
    && (c.info.blocked ==> Allows(c.subs[from], MASK_SYSTEM))
  }

  /** A message enters the queue, last, if and only if its sender may publish, there is room, and it is a notification
      or a chat message that could be numbered and stored; the number is above every number stored before. */
  lemma PublishExact(t: TicketFn, c: Chan, m: Message, grant: Grant, storeOk: bool)
    requires Inv(c) && LegalOp(c, Publish(Given(m), grant, storeOk))
    ensures var (c', r) := Step(t, c, Publish(Given(m), grant, storeOk));
            var notify := m.kind == 1;
            var chat := m.kind == 2 && m.body.Chat? && Next(c.alloc, grant).1.Some? && storeOk;
            && (c'.queue != c.queue <==> MayPublish(c, m.from) && |c.queue| < 100 && (notify || chat))
            && (r == Ok <==> c'.queue != c.queue)
            && (c'.queue != c.queue ==> var last := c'.queue[|c.queue|];
                  && c'.queue == c.queue + [last] && last.from == m.from && last.to == m.to
                  && (notify ==> last == m)
                  && (chat ==> last in c'.stored && last.body == Boxed(m.body.text, last.seqNo)
                               && forall x <- c.stored :: x.seqNo < last.seqNo))
            && c.stored <= c'.stored
            && |c'.stored| == |c.stored| + (if MayPublish(c, m.from) && chat then 1 else 0)
            && (c'.subs, c'.info, c'.pushes, c'.queueClosed) == (c.subs, c.info, c.pushes, c.queueClosed)
  {
    hide Allows, ChatIncreasing;
    NextAbove(c, grant);
    if MayPublish(c, m.from) && m.kind == TYPE_MESSAGE && m.body.Chat? && Next(c.alloc, grant).1.Some? && storeOk {
      var c' := Step(t, c, Publish(Given(m), grant, storeOk)).0;
      assert c'.stored[|c.stored|] in c'.stored;
    }
  }
}
