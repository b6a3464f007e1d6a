/** What the calls on a channel do to its members and its life, one by one and over whole runs. */
module ChannelLaws {
  import opened Digits
  import opened Options
  import SeqAlloc
  import opened ChannelSpec

  /** A permission is a number whose bits 1, 2, 4 and 8 are to read, to write, to administer and to be the system. */
  lemma PermissionBits(perm: int)
    ensures Allows(perm, MASK_READ) <==> perm % 4 >= 2
    ensures Allows(perm, MASK_WRITE) <==> perm % 8 >= 4
    ensures Allows(perm, MASK_ADMIN) <==> perm % 32 >= 16
    ensures Allows(perm, MASK_SYSTEM) <==> perm % 512 >= 256
  {
    hide Pow;
    SmallPowers();
    BitIn(perm, 2);
    BitIn(perm, 4);
    BitIn(perm, 16);
    BitIn(perm, 256);
  }

  lemma SmallPowers()
    ensures Pow(2, 1) == 2 && Pow(2, 2) == 4 && Pow(2, 4) == 16 && Pow(2, 8) == 256
  {
    assert Pow(2, 4) == 16;
  }

  lemma BitIn(x: int, p: nat)
    requires p >= 1
    ensures x / p % 2 == 1 <==> x % (2 * p) >= p
  {
    var q, r, b := x / p / 2, x % p, x / p % 2;
    DivStep(x, p);
    assert x == q * (2 * p) + (b * p + r) by { MulSplit(q, 2, b, p); }
    DivStep(x, 2 * p);
    var d := x / (2 * p) - q;
    assert d * (2 * p) == x / (2 * p) * (2 * p) - q * (2 * p);
    FactorZero(d, 2 * p);
  }

  /** The queue and the channel close together, and nobody is left. */
  ghost predicate Shut(c: Chan) {
    && (c.queueClosed <==> c.info.closed)
    && (c.info.closed ==> c.subs == map[])
  }

  lemma StepShut(t: TicketFn, c: Chan, op: Op)
    requires Shut(c)
    ensures Shut(Step(t, c, op).0)
    ensures c.info.closed ==> Step(t, c, op).0.info.closed
  {
    hide Allows, Refusal;
  }

  lemma {:induction false} RunShut(t: TicketFn, c: Chan, ops: seq<Op>)
    requires Shut(c)
    ensures Shut(Run(t, c, ops))
    ensures c.info.closed ==> Run(t, c, ops).info.closed
    decreases |ops|
  {
    if ops != [] {
      RunShut(t, c, ops[..|ops| - 1]);
      StepShut(t, Run(t, c, ops[..|ops| - 1]), ops[|ops| - 1]);
    }
  }

  lemma {:induction false} RunConcat(t: TicketFn, c: Chan, ops: seq<Op>, more: seq<Op>)
    ensures Run(t, c, ops + more) == Run(t, Run(t, c, ops), more)
    decreases |more|
  {
    hide Step;
    if more == [] {
      assert ops + more == ops;
    } else {
      RunConcat(t, c, ops, more[..|more| - 1]);
      assert (ops + more)[..|ops + more| - 1] == ops + more[..|more| - 1];
    }
  }

  lemma RunThen(t: TicketFn, c: Chan, pre: seq<Op>, op: Op, post: seq<Op>)
    ensures Run(t, c, pre + [op] + post) == Run(t, Step(t, Run(t, c, pre), op).0, post)
  {
    hide Step;
    RunConcat(t, c, pre + [op], post);
    assert (pre + [op])[..|pre|] == pre;
  }

  /** `Update` sets blocked, muted and secret, and nothing else; it does not reopen. */
  lemma UpdateExact(t: TicketFn, c: Chan, ci: Info)
    ensures var (c', r) := Step(t, c, Update(Some(ci)));
            && r == Ok && c' == c.(info := c'.info) && c'.info.closed == c.info.closed
            && c'.info.blocked == ci.blocked && c'.info.muted == ci.muted && c'.info.secret == ci.secret
  {}

  /** What a publication is answered, and what it costs: a number is used up by every chat message that asks for one
      and is given one, stored and queued or not. */
  lemma PublishAnswers(t: TicketFn, c: Chan, m: Message, grant: SeqAlloc.Grant, storeOk: bool)
    requires Shut(c)
    ensures var (c', r) := Step(t, c, Publish(Given(m), grant, storeOk));
            var (a, n) := SeqAlloc.Next(c.alloc, grant);
            var member := m.from in c.subs;
            var perm := if member then c.subs[m.from] else 0;
            var asks := MayPublish(c, m.from) && m.kind == 2 && m.body.Chat?;
            && (r == ChannelClosed <==> c.info.closed)
            && (r == UnknownType <==> !c.info.closed && (m.kind < 1 || m.kind > 3
                                                         || (m.kind == 3 && MayPublish(c, m.from))))
            && (r == NotMember <==> !c.info.closed && 1 <= m.kind <= 3 && !member)
            && (r == NoWrite <==> !c.info.closed && 1 <= m.kind <= 3 && member && perm % 8 < 4)
            && (r == Muted <==> && !c.info.closed && 1 <= m.kind <= 3 && member && perm % 8 >= 4 && c.info.muted
                                && (perm % 512 < 256 || perm % 32 < 16))
            && (r == Panic <==> MayPublish(c, m.from) && m.kind == 2 && m.body.Missing?)
            && (r == BadBody <==> MayPublish(c, m.from) && m.kind == 2 && !m.body.Missing? && !m.body.Chat?)
            && (r == NoSequence <==> asks && n.None?)
            && (r == StoreError <==> asks && n.Some? && !storeOk)
            && (r == QueueFull <==> && |c.queue| >= 100
                                    && ((asks && n.Some? && storeOk) || (MayPublish(c, m.from) && m.kind == 1)))
            && c'.alloc == (if asks then a else c.alloc)
  {
    hide Allows;
    if m.from in c.subs {
      PermissionBits(c.subs[m.from]);
    }
  }

  // Closing.

  /** `Close` succeeds exactly on an open channel, and closes it: nobody is a member any more. What waits, what was
      stored and pushed, and the numbers stay. */
  lemma CloseExact(t: TicketFn, c: Chan)
    requires Shut(c)
    ensures var (c', r) := Step(t, c, Close);
            && (r == Ok <==> !c.info.closed) && (r == Panic <==> c.info.closed)
            && c'.info == c.info.(closed := true) && c'.queueClosed && c'.subs == map[]
            && (c'.queue, c'.stored, c'.pushes, c'.accepted) == (c.queue, c.stored, c.pushes, c.accepted)
            && (c'.alloc, c'.frontier) == (c.alloc, c.frontier)
  {}

  predicate PanicsClosed(op: Op) {
    op.Close? || (op.Subscribe? && op.options.Nil?) || (op.Update? && op.info.None?)
  }

  lemma ClosedStep(t: TicketFn, c: Chan, op: Op)
    requires Shut(c) && c.info.closed
    ensures var (c', r) := Step(t, c, op);
            && (r == Panic <==> PanicsClosed(op))
            && (op.Publish? ==> (c', r) == (c, ChannelClosed))
            && (op.Subscribe? && op.options.Given? ==> (c', r) == (c, ChannelClosed))
  {
    hide Enqueue, DoEnqueue, Refusal;
  }

  /** Over every run: once `Close` has been called nobody receives anything more, whatever is called; every publication
      and every subscription is refused; and only another Close, nil options and nil info panic: nothing is sent on the
      closed queue. */
  lemma ClosedForGood(t: TicketFn, start: int, length: int, pre: seq<Op>, post: seq<Op>, id: SubId)
    ensures var before := Run(t, New(start, length), pre);
            var c := Run(t, New(start, length), pre + [Close] + post);
            && c.info.closed && c.queueClosed && c.subs == map[]
            && ReceivedBy(c.pushes, id) == ReceivedBy(before.pushes, id)
            && forall op ::
                 && (Step(t, c, op).1 == Panic <==> PanicsClosed(op))
                 && (op.Publish? ==> Step(t, c, op) == (c, ChannelClosed))
                 && (op.Subscribe? && op.options.Given? ==> Step(t, c, op) == (c, ChannelClosed))
  {
    hide Step, ReceivedBy, Run;
    RunThen(t, New(start, length), pre, Close, post);
    var before := Run(t, New(start, length), pre);
    RunShut(t, New(start, length), pre);
    CloseExact(t, before);
    var closed := Step(t, before, Close).0;
    StepShut(t, before, Close);
    RunShut(t, closed, post);
    ClosedNobody(t, closed, post, id);
    var c := Run(t, closed, post);
    forall op
      ensures Step(t, c, op).1 == Panic <==> PanicsClosed(op)
      ensures op.Publish? ==> Step(t, c, op) == (c, ChannelClosed)
      ensures op.Subscribe? && op.options.Given? ==> Step(t, c, op) == (c, ChannelClosed)
    {
      ClosedStep(t, c, op);
    }
  }

  lemma {:induction false} ClosedNobody(t: TicketFn, c: Chan, ops: seq<Op>, id: SubId)
    requires Shut(c) && c.info.closed
    ensures ReceivedBy(Run(t, c, ops).pushes, id) == ReceivedBy(c.pushes, id)
    decreases |ops|
  {
    hide Step, ReceivedBy;
    if ops != [] {
      var init := ops[..|ops| - 1];
      ClosedNobody(t, c, init, id);
      RunShut(t, c, init);
      NotReceiving(t, Run(t, c, init), ops[|ops| - 1], id);
    }
  }

  /** Whoever is not a member receives nothing. */
  lemma NotReceiving(t: TicketFn, c: Chan, op: Op, id: SubId)
    requires id !in c.subs
    ensures ReceivedBy(Step(t, c, op).0.pushes, id) == ReceivedBy(c.pushes, id)
  {
    hide Step, Allows;
    DeliverySafety(t, c, op);
    var c' := Step(t, c, op).0;
    if op == Pump && c.queue != [] {
      assert c'.pushes[..|c.pushes|] == c.pushes;
    }
  }

  // Leaving.

  /** `Unsubscribe` succeeds exactly for members, and takes out that one; the others are told if there is room. */
  lemma UnsubscribeExact(t: TicketFn, c: Chan, id: SubId)
    requires Shut(c)
    ensures var (c', r) := Step(t, c, Unsubscribe(id));
            && r == (if id in c.subs then Ok else NotSubscribed)
            && (r != Ok ==> c' == c)
            && (r == Ok ==> && id !in c'.subs && c'.subs == c.subs - {id}
                            && (if |c.queue| < 100
                                then |c'.queue| == |c.queue| + 1 && c.queue <= c'.queue
                                     && c'.accepted == c.accepted + c'.queue[|c.queue|..]
                                     && c'.queue[|c.queue|].to == [] && c'.queue[|c.queue|].body.Notice?
                                     && !IsChat(c'.queue[|c.queue|])
                                else c'.queue == c.queue && c'.accepted == c.accepted))
            && (c'.stored, c'.pushes, c'.alloc, c'.info, c'.queueClosed)
               == (c.stored, c.pushes, c.alloc, c.info, c.queueClosed)
  {}

  /** No subscription of id in `ops` succeeds. */
  ghost predicate Away(t: TicketFn, c: Chan, ops: seq<Op>, id: SubId) {
    forall k :: 0 <= k < |ops| && ops[k].Subscribe? && ops[k].id == id ==> Step(t, Run(t, c, ops[..k]), ops[k]).1 != Ok
  }

  lemma AwayStep(t: TicketFn, c: Chan, op: Op, id: SubId)
    requires id !in c.subs && !(op.Subscribe? && op.id == id && Step(t, c, op).1 == Ok)
    requires Shut(c)
    ensures id !in Step(t, c, op).0.subs
  {
    hide Allows, Refusal;
  }

  lemma {:induction false} AwayRun(t: TicketFn, c: Chan, ops: seq<Op>, id: SubId)
    requires id !in c.subs && Shut(c) && Away(t, c, ops, id)
    ensures var c' := Run(t, c, ops);
            id !in c'.subs && Shut(c') && ReceivedBy(c'.pushes, id) == ReceivedBy(c.pushes, id)
    decreases |ops|
  {
    hide Step, ReceivedBy;
    if ops != [] {
      var init := ops[..|ops| - 1];
      assert forall k :: 0 <= k < |init| ==> init[..k] == ops[..k] && init[k] == ops[k];
      AwayRun(t, c, init, id);
      AwayStep(t, Run(t, c, init), ops[|ops| - 1], id);
      StepShut(t, Run(t, c, init), ops[|ops| - 1]);
      NotReceiving(t, Run(t, c, init), ops[|ops| - 1], id);
    }
  }

  /** Over every run: after `Unsubscribe` and until a subscription of the same id succeeds, it receives nothing, and on
      an open channel whatever it publishes is refused because it is not a member. */
  lemma Gone(t: TicketFn, start: int, length: int, pre: seq<Op>, post: seq<Op>, id: SubId, m: Message,
             grant: SeqAlloc.Grant, storeOk: bool)
    requires Away(t, Run(t, New(start, length), pre + [Unsubscribe(id)]), post, id)
    ensures var before := Run(t, New(start, length), pre);
            var c := Run(t, New(start, length), pre + [Unsubscribe(id)] + post);
            && id !in c.subs && ReceivedBy(c.pushes, id) == ReceivedBy(before.pushes, id)
            && (!c.info.closed && m.from == id && 1 <= m.kind <= 3 ==>
                  Step(t, c, Publish(Given(m), grant, storeOk)) == (c, NotMember))
            && (Step(t, c, Unsubscribe(id)) == (c, NotSubscribed))
  {
    hide ReceivedBy, Run, Away, Step;
    var before := Run(t, New(start, length), pre);
    RunShut(t, New(start, length), pre);
    UnsubscribeExact(t, before, id);
    RunThen(t, New(start, length), pre, Unsubscribe(id), []);
    assert pre + [Unsubscribe(id)] + [] == pre + [Unsubscribe(id)];
    RunNothing(t, Step(t, before, Unsubscribe(id)).0);
    RunThen(t, New(start, length), pre, Unsubscribe(id), post);
    AwayRun(t, Step(t, before, Unsubscribe(id)).0, post, id);
    var c := Run(t, New(start, length), pre + [Unsubscribe(id)] + post);
    UnsubscribeExact(t, c, id);
    if m.from == id {
      Stranger(t, c, m, grant, storeOk);
    }
  }

  lemma RunNothing(t: TicketFn, c: Chan)
    ensures Run(t, c, []) == c
  {}

  lemma Stranger(t: TicketFn, c: Chan, m: Message, grant: SeqAlloc.Grant, storeOk: bool)
    requires m.from !in c.subs
    ensures !c.info.closed && 1 <= m.kind <= 3 ==> Step(t, c, Publish(Given(m), grant, storeOk)) == (c, NotMember)
  {}
}
