/** The channel with messages as the objects they are: a publication is a pointer to an envelope, which points to a
    message. The queue holds pointers, and numbering a chat message writes into both objects, whoever else has them. */
module SharedMessages {
  import opened Options
  import SeqAlloc
  import opened ChannelSpec

  /** A `PublishMessage`; `data` names the message object it points to. */
  datatype Envelope = Envelope(from: SubId, to: seq<SubId>, seqNo: int, kind: int, data: nat)

  datatype Heap = Heap(envelopes: nat -> Envelope, bodies: nat -> Body) {
    /** What the channel sees when it follows the pointers. */
    function Read(ref: nat): Message {
      var e := envelopes(ref);
      Message(e.from, e.to, e.seqNo, e.kind, bodies(e.data))
    }

    function Data(ref: nat): nat {
      envelopes(ref).data
    }
  }

  /** A call; a publication names the envelope, unless it is one that nobody has but the channel. */
  datatype Call =
    | PublishRef(ref: nat, grant: SeqAlloc.Grant, storeOk: bool)
    | Other(op: Op)

  /** The channel, its queue showing what the queued objects hold now, and which envelope each queue entry is; the
      channel's own notices are objects nobody else has. */
  datatype Shared = Shared(c: Chan, refs: seq<Option<nat>>, heap: Heap)

  ghost predicate Paired(s: Shared) {
    |s.refs| == |s.c.queue|
  }

  /** Whether `Publish` gets as far as asking for a number. */
  predicate Asks(c: Chan, m: Message) {
    Refusal(c, m) == Ok && m.kind == TYPE_MESSAGE && m.body.Chat?
  }

  /** Whether the call takes a number. */
  predicate Takes(s: Shared, call: Call) {
    && call.PublishRef? && Asks(s.c, s.heap.Read(call.ref))
    && SeqAlloc.Next(s.c.alloc, call.grant).1.Some?
  }

  /** What `enqueue` writes: the number, 0 for a failed request, into the envelope; the numbered chat message, which no
      longer decodes, into the message. */
  function Written(s: Shared, call: Call): Heap {
    if !(call.PublishRef? && Asks(s.c, s.heap.Read(call.ref))) then s.heap
    else
      var e := s.heap.envelopes(call.ref);
      var n := SeqAlloc.Next(s.c.alloc, call.grant).1;
      var envelopes := (r: nat) => if r == call.ref then e.(seqNo := if n.Some? then n.value else 0)
                                   else s.heap.envelopes(r);
      var text := s.heap.bodies(e.data).text;
      Heap(envelopes, if n.None? then s.heap.bodies
                      else (d: nat) => if d == e.data then Boxed(text, n.value) else s.heap.bodies(d))
  }

  /** The queue as it reads now. */
  function Reread(queue: seq<Message>, refs: seq<Option<nat>>, heap: Heap): (r: seq<Message>)
    requires |queue| == |refs|
    ensures |r| == |queue|
    ensures forall i :: 0 <= i < |r| ==> r[i] == if refs[i].Some? then heap.Read(refs[i].value) else queue[i]
  {
    seq(|queue|, i requires 0 <= i < |queue| => if refs[i].Some? then heap.Read(refs[i].value) else queue[i])
  }

  /** The call as one on values. */
  function AsOp(s: Shared, call: Call): Op {
    if call.PublishRef? then Publish(Given(s.heap.Read(call.ref)), call.grant, call.storeOk) else call.op
  }

  function RefsAfter(refs: seq<Option<nat>>, call: Call, queue: seq<Message>): (r: seq<Option<nat>>)
    requires if call == Other(Pump) then |queue| == (if refs == [] then 0 else |refs| - 1) else |queue| >= |refs|
    ensures |r| == |queue|
  {
    if call == Other(Pump) then
      if refs == [] then [] else refs[1..]
    else
      refs + seq(|queue| - |refs|, _ => if call.PublishRef? then Some(call.ref) else None)
  }

  function SharedStep(t: TicketFn, s: Shared, call: Call): (s': Shared)
    requires Paired(s)
    ensures Paired(s')
  {
    DeliverySafety(t, s.c, AsOp(s, call));
    var c := Step(t, s.c, AsOp(s, call)).0;
    var refs, heap := RefsAfter(s.refs, call, c.queue), Written(s, call);
    Shared(c.(queue := Reread(c.queue, refs, heap)), refs, heap)
  }

  function SharedRun(t: TicketFn, s: Shared, calls: seq<Call>): (s': Shared)
    requires Paired(s)
    ensures Paired(s')
  {
    if calls == [] then s else SharedStep(t, SharedRun(t, s, calls[..|calls| - 1]), calls[|calls| - 1])
  }

  function Fresh(start: int, length: int, heap: Heap): (s: Shared)
    ensures Paired(s)
  {
    Shared(New(start, length), [], heap)
  }

  /** The calls as calls on values. */
  function AsOps(t: TicketFn, s: Shared, calls: seq<Call>): seq<Op>
    requires Paired(s)
  {
    if calls == [] then []
    else
      var init := calls[..|calls| - 1];
      AsOps(t, s, init) + [AsOp(SharedRun(t, s, init), calls[|calls| - 1])]
  }

  ghost predicate Legal(s: Shared, call: Call) {
    LegalOp(s.c, AsOp(s, call))
  }

  /** The sequence store only moves forward. */
  ghost predicate LegalCalls(t: TicketFn, s: Shared, calls: seq<Call>)
    requires Paired(s)
  {
    forall k :: 0 <= k < |calls| ==> Legal(SharedRun(t, s, calls[..k]), calls[k])
  }

  // The channel of objects follows the channel of values.

  /** The same message, but for what a notification says. */
  ghost predicate Alike(m: Message, m0: Message) {
    m == m0.(body := m.body) && (IsChat(m) ==> m == m0)
  }

  ghost predicate AllAlike(ms: seq<Message>, ms0: seq<Message>) {
    |ms| == |ms0| && forall i :: 0 <= i < |ms| ==> Alike(ms[i], ms0[i])
  }

  ghost predicate PushesAlike(ps: seq<Push>, ps0: seq<Push>) {
    |ps| == |ps0| && forall i :: 0 <= i < |ps| ==> ps[i].to == ps0[i].to && Alike(ps[i].msg, ps0[i].msg)
  }

  ghost predicate Similar(c: Chan, c0: Chan) {
    && c0 == c.(queue := c0.queue, pushes := c0.pushes)
    && AllAlike(c.queue, c0.queue) && PushesAlike(c.pushes, c0.pushes)
  }

  /** Every step does the same to similar channels. */
  lemma StepSimilar(t: TicketFn, c: Chan, c0: Chan, op: Op)
    requires Similar(c, c0)
    ensures Step(t, c, op).1 == Step(t, c0, op).1
    ensures Similar(Step(t, c, op).0, Step(t, c0, op).0)
  {
    hide Similar, Refusal, DoEnqueue, Enqueue;
    SimilarFields(c, c0);
    match op
    case Subscribe(id, options) =>
      if options.Given? {
        var d, d0 := c.(subs := c.subs[id := options.value.perm]), c0.(subs := c0.subs[id := options.value.perm]);
        SimilarRest(c, c0, d, d0);
        EnqueueSimilar(d, d0, Announce(id, "online "));
        var e, e0 := Enqueue(d, Announce(id, "online ")).0, Enqueue(d0, Announce(id, "online ")).0;
        SimilarFields(e, e0);
        EnqueueSimilar(e, e0, Roster(id, e.subs.Keys));
      }
    case Unsubscribe(id) =>
      var d, d0 := c.(subs := c.subs - {id}), c0.(subs := c0.subs - {id});
      SimilarRest(c, c0, d, d0);
      EnqueueSimilar(d, d0, Announce(id, "offline "));
    case Update(ci) => SimilarRest(c, c0, Step(t, c, op).0, Step(t, c0, op).0);
    case Publish(msg, grant, storeOk) =>
      if msg.Given? {
        RefusalSimilar(c, c0, msg.value);
        EnqueueSimilar(c, c0, msg.value);
        DoEnqueueSimilar(c, c0, msg.value, grant, storeOk);
      }
    case Pump => PumpSimilar(c, c0);
    case Close => SimilarRest(c, c0, Step(t, c, op).0, Step(t, c0, op).0);
  }

  lemma SimilarFields(c: Chan, c0: Chan)
    requires Similar(c, c0)
    ensures c0 == c.(queue := c0.queue, pushes := c0.pushes) && |c.queue| == |c0.queue| && |c.pushes| == |c0.pushes|
  {}

  lemma SimilarRest(c: Chan, c0: Chan, d: Chan, d0: Chan)
    requires Similar(c, c0) && d0 == d.(queue := d0.queue, pushes := d0.pushes)
    requires (d.queue, d.pushes, d0.queue, d0.pushes) == (c.queue, c.pushes, c0.queue, c0.pushes)
    ensures Similar(d, d0)
  {}

  lemma EnqueueSimilar(c: Chan, c0: Chan, m: Message)
    requires Similar(c, c0)
    ensures Enqueue(c, m).1 == Enqueue(c0, m).1 && Similar(Enqueue(c, m).0, Enqueue(c0, m).0)
  {}

  lemma RefusalSimilar(c: Chan, c0: Chan, m: Message)
    requires Similar(c, c0)
    ensures Refusal(c, m) == Refusal(c0, m)
  {
    hide Allows;
  }

  lemma DoEnqueueSimilar(c: Chan, c0: Chan, m: Message, grant: SeqAlloc.Grant, storeOk: bool)
    requires Similar(c, c0)
    ensures DoEnqueue(c, m, grant, storeOk).1 == DoEnqueue(c0, m, grant, storeOk).1
    ensures Similar(DoEnqueue(c, m, grant, storeOk).0, DoEnqueue(c0, m, grant, storeOk).0)
  {
    hide Similar, Enqueue;
    SimilarFields(c, c0);
    var (a, n) := SeqAlloc.Next(c.alloc, grant);
    var d := c.(alloc := a, frontier := Frontier(c, grant));
    var d0 := c0.(alloc := a, frontier := Frontier(c0, grant));
    SimilarRest(c, c0, d, d0);
    if m.body.Chat? && n.Some? {
      var m := m.(seqNo := n.value, body := Boxed(m.body.text, n.value));
      SimilarRest(c, c0, d.(stored := d.stored + [m]), d0.(stored := d0.stored + [m]));
      EnqueueSimilar(d.(stored := d.stored + [m]), d0.(stored := d0.stored + [m]), m);
    }
  }

  lemma PumpSimilar(c: Chan, c0: Chan)
    requires Similar(c, c0)
    ensures Similar(DoPump(c).0, DoPump(c0).0)
  {
    hide Allows;
    if c.queue != [] {
      assert Alike(c.queue[0], c0.queue[0]);
    }
  }

  ghost predicate Consistent(s: Shared) {
    Paired(s) && forall i :: 0 <= i < |s.refs| && s.refs[i].Some? ==> s.c.queue[i] == s.heap.Read(s.refs[i].value)
  }

  /** `c0` is the channel of values that goes along. */
  ghost predicate SInv(s: Shared, c0: Chan) {
    Consistent(s) && Inv(c0) && Similar(s.c, c0)
  }

  /** A waiting chat message does not decode any more. */
  lemma WaitingBoxed(s: Shared, c0: Chan, i: nat)
    requires SInv(s, c0) && i < |s.refs| && s.refs[i].Some? && IsChat(s.c.queue[i])
    ensures s.heap.Read(s.refs[i].value).body.Boxed?
  {
    assert Alike(s.c.queue[i], c0.queue[i]);
    assert c0.queue[i] in c0.accepted;
  }

  /** What `Publish` appends is what its objects then hold. */
  lemma Appended(t: TicketFn, s: Shared, call: Call)
    requires call.PublishRef?
    ensures var q := Step(t, s.c, AsOp(s, call)).0.queue;
            q == s.c.queue || q == s.c.queue + [Written(s, call).Read(call.ref)]
  {
    hide Allows;
  }

  lemma WrittenShape(s: Shared, call: Call, r: nat)
    ensures var m, m' := s.heap.Read(r), Written(s, call).Read(r);
            && Written(s, call).Data(r) == s.heap.Data(r)
            && (m != m' ==> call.PublishRef? && s.heap.Read(call.ref).body.Chat?
                            && IsChat(s.heap.Read(call.ref)))
            && (m != m' ==> r == call.ref || (m' == m.(body := m'.body) && m.body.Chat?))
            && (Takes(s, call) && s.heap.Data(r) == s.heap.Data(call.ref) ==> m.body.Chat? && m'.body.Boxed?)
            && (m != m' && r != call.ref ==> Takes(s, call) && s.heap.Data(r) == s.heap.Data(call.ref))
  {
    hide Refusal;
  }

  /** What waits is the same after the call, but for what notifications say. */
  lemma RereadAlike(s: Shared, c0: Chan, call: Call, i: nat)
    requires SInv(s, c0) && i < |s.refs| && s.refs[i].Some?
    ensures var m' := Written(s, call).Read(s.refs[i].value);
            Alike(m', s.c.queue[i]) && (m' != s.c.queue[i] ==> s.refs[i] != Some(call.ref))
  {
    hide Inv, Written, Similar;
    var r := s.refs[i].value;
    WrittenShape(s, call, r);
    if IsChat(s.c.queue[i]) {
      WaitingBoxed(s, c0, i);
    }
  }

  lemma ConsistentStep(t: TicketFn, s: Shared, call: Call)
    requires Consistent(s)
    ensures Consistent(SharedStep(t, s, call))
  {}

  /** The channel before the objects are read again. */
  lemma QueueAlike(t: TicketFn, s: Shared, c0: Chan, call: Call)
    requires SInv(s, c0)
    ensures var c := Step(t, s.c, AsOp(s, call)).0;
            AllAlike(SharedStep(t, s, call).c.queue, c.queue)
  {
    hide Inv, Written, Similar, Step;
    var s', c := SharedStep(t, s, call), Step(t, s.c, AsOp(s, call)).0;
    DeliverySafety(t, s.c, AsOp(s, call));
    if call.PublishRef? {
      Appended(t, s, call);
    }
    forall i | 0 <= i < |c.queue| ensures Alike(s'.c.queue[i], c.queue[i]) {
      var k := if call == Other(Pump) && s.refs != [] then i + 1 else i;
      if k < |s.refs| && s.refs[k].Some? {
        RereadAlike(s, c0, call, k);
      }
    }
  }

  lemma AlikeTrans(a: seq<Message>, b: seq<Message>, c: seq<Message>)
    requires AllAlike(a, b) && AllAlike(b, c)
    ensures AllAlike(a, c)
  {
    forall i | 0 <= i < |a| ensures Alike(a[i], c[i]) {
      assert Alike(a[i], b[i]) && Alike(b[i], c[i]);
    }
  }

  lemma SimilarTrans(c: Chan, q: seq<Message>, c0: Chan)
    requires Similar(c, c0) && AllAlike(q, c.queue)
    ensures Similar(c.(queue := q), c0)
  {
    AlikeTrans(q, c.queue, c0.queue);
  }

  /** Any call, by anybody, on any objects. */
  lemma SimStep(t: TicketFn, s: Shared, c0: Chan, call: Call)
    requires SInv(s, c0) && Legal(s, call)
    ensures SInv(SharedStep(t, s, call), Step(t, c0, AsOp(s, call)).0)
    ensures LegalOp(c0, AsOp(s, call))
  {
    hide Inv, Written, Similar, Step, Reread;
    var op := AsOp(s, call);
    SimilarFields(s.c, c0);
    StepInv(t, c0, op);
    StepSimilar(t, s.c, c0, op);
    ConsistentStep(t, s, call);
    QueueAlike(t, s, c0, call);
    SimilarTrans(Step(t, s.c, op).0, SharedStep(t, s, call).c.queue, Step(t, c0, op).0);
  }

  // Whole histories.

  lemma LegalInit(t: TicketFn, s: Shared, calls: seq<Call>)
    requires Paired(s) && calls != [] && LegalCalls(t, s, calls)
    ensures var init := calls[..|calls| - 1];
            LegalCalls(t, s, init) && Legal(SharedRun(t, s, init), calls[|calls| - 1])
  {
    hide Legal, SharedRun;
    var init := calls[..|calls| - 1];
    forall k | 0 <= k < |init| ensures Legal(SharedRun(t, s, init[..k]), init[k]) {
      assert init[..k] == calls[..k];
    }
  }

  lemma LegalRunSnoc(t: TicketFn, c: Chan, ops: seq<Op>, op: Op)
    requires LegalRun(t, c, ops) && LegalOp(Run(t, c, ops), op)
    ensures LegalRun(t, c, ops + [op]) && Run(t, c, ops + [op]) == Step(t, Run(t, c, ops), op).0
  {
    hide LegalOp, Step;
    var all := ops + [op];
    assert all[..|ops|] == ops;
    forall k | 0 <= k < |all| ensures LegalOp(Run(t, c, all[..k]), all[k]) {
      assert all[..k] == if k < |ops| then ops[..k] else ops;
    }
  }

  /** Over every history the channel of objects is the channel of values, but for what notifications say. */
  lemma {:induction false} Simulates(t: TicketFn, s: Shared, c0: Chan, calls: seq<Call>)
    requires SInv(s, c0) && LegalCalls(t, s, calls)
    ensures var ops := AsOps(t, s, calls);
            SInv(SharedRun(t, s, calls), Run(t, c0, ops)) && LegalRun(t, c0, ops)
    decreases |calls|
  {
    hide LegalCalls, Step, SharedStep, Inv, LegalOp, LegalRun, Similar;
    if calls == [] {
      LegalNothing(t, c0);
    } else {
      var init, call := calls[..|calls| - 1], calls[|calls| - 1];
      LegalInit(t, s, calls);
      Simulates(t, s, c0, init);
      SimStep(t, SharedRun(t, s, init), Run(t, c0, AsOps(t, s, init)), call);
      LegalRunSnoc(t, c0, AsOps(t, s, init), AsOp(SharedRun(t, s, init), call));
    }
  }

  lemma LegalNothing(t: TicketFn, c: Chan)
    ensures LegalRun(t, c, [])
  {}

  lemma FreshSInv(start: int, length: int, heap: Heap)
    requires length >= 1
    ensures SInv(Fresh(start, length, heap), New(start, length))
  {}

  lemma {:induction false} ReceivedAlike(ps: seq<Push>, ps0: seq<Push>, id: SubId)
    requires PushesAlike(ps, ps0)
    ensures AllAlike(ReceivedBy(ps, id), ReceivedBy(ps0, id))
    decreases |ps|
  {
    if ps != [] {
      ReceivedAlike(ps[..|ps| - 1], ps0[..|ps| - 1], id);
      assert ps[|ps| - 1].to == ps0[|ps| - 1].to && Alike(ps[|ps| - 1].msg, ps0[|ps| - 1].msg);
    }
  }

  lemma ChatAlike(ms: seq<Message>, ms0: seq<Message>)
    requires AllAlike(ms, ms0) && ChatIncreasing(ms0)
    ensures ChatIncreasing(ms)
    ensures forall m <- ms :: IsChat(m) ==> m in ms0
  {
    forall i, j | 0 <= i < j < |ms| && IsChat(ms[i]) && IsChat(ms[j]) ensures ms[i].seqNo < ms[j].seqNo {
      assert Alike(ms[i], ms0[i]) && Alike(ms[j], ms0[j]);
    }
    forall m | m in ms && IsChat(m) ensures m in ms0 {
      var i :| 0 <= i < |ms| && ms[i] == m;
      assert Alike(ms[i], ms0[i]);
    }
  }

  /** Whatever objects are published, however often and whoever shares them: each subscriber receives chat messages
      with strictly increasing numbers, all stored before; and what was accepted goes out in that order, chat messages
      as they were accepted. */
  lemma SharedOrdering(t: TicketFn, start: int, length: int, heap: Heap, calls: seq<Call>, id: SubId)
    requires length >= 1 && LegalCalls(t, Fresh(start, length, heap), calls)
    ensures var c := SharedRun(t, Fresh(start, length, heap), calls).c;
            && ChatIncreasing(ReceivedBy(c.pushes, id))
            && (forall m <- ReceivedBy(c.pushes, id) :: IsChat(m) ==> m in c.stored)
            && AllAlike(Pushed(c.pushes) + c.queue, c.accepted)
  {
    hide LegalCalls, ChatIncreasing, LegalRun, Run, Inv, AllAlike;
    var s := Fresh(start, length, heap);
    FreshSInv(start, length, heap);
    Simulates(t, s, s.c, calls);
    var c, c0 := SharedRun(t, s, calls).c, Run(t, s.c, AsOps(t, s, calls));
    Ordering(t, start, length, AsOps(t, s, calls), id);
    ReceivedAlike(c.pushes, c0.pushes, id);
    ChatAlike(ReceivedBy(c.pushes, id), ReceivedBy(c0.pushes, id));
    AcceptedAlike(c, c0);
  }

  lemma AcceptedAlike(c: Chan, c0: Chan)
    requires Inv(c0) && Similar(c, c0)
    ensures AllAlike(Pushed(c.pushes) + c.queue, c.accepted)
  {
    hide Alike;
    InvIntact(c0);
    var all, all0 := Pushed(c.pushes) + c.queue, Pushed(c0.pushes) + c0.queue;
    forall i | 0 <= i < |all| ensures Alike(all[i], all0[i]) {
      assert i < |c.pushes| ==> Alike(c.pushes[i].msg, c0.pushes[i].msg);
    }
  }

  // When notifications are rewritten.

  /** What was accepted is what was pushed and what still waits, each message as it was when it was accepted. */
  ghost predicate Intact(c: Chan) {
    c.accepted == Pushed(c.pushes) + c.queue
  }

  /** The call numbers a message that somebody else's waiting envelope, too, points to. */
  ghost predicate Rewrites(s: Shared, call: Call) {
    Takes(s, call)
    && exists i :: 0 <= i < |s.refs| && s.refs[i].Some? && s.heap.Data(s.refs[i].value) == s.heap.Data(call.ref)
  }

  ghost predicate Careful(t: TicketFn, s: Shared, calls: seq<Call>)
    requires Paired(s)
  {
    forall k :: 0 <= k < |calls| ==> !Rewrites(SharedRun(t, s, calls[..k]), calls[k])
  }

  lemma CarefulStep(t: TicketFn, s: Shared, call: Call)
    requires SInv(s, s.c) && Legal(s, call) && !Rewrites(s, call)
    ensures SharedStep(t, s, call).c == Step(t, s.c, AsOp(s, call)).0
  {
    hide Inv, Written, Step, Takes;
    var s', c := SharedStep(t, s, call), Step(t, s.c, AsOp(s, call)).0;
    DeliverySafety(t, s.c, AsOp(s, call));
    if call.PublishRef? {
      Appended(t, s, call);
    }
    forall i | 0 <= i < |c.queue| ensures s'.c.queue[i] == c.queue[i] {
      var k := if call == Other(Pump) && s.refs != [] then i + 1 else i;
      if k < |s.refs| && s.refs[k].Some? {
        RereadAlike(s, s.c, call, k);
        WrittenShape(s, call, s.refs[k].value);
      }
    }
    assert s'.c.queue == c.queue;
  }

  lemma RewritingStep(t: TicketFn, s: Shared, call: Call)
    requires SInv(s, s.c) && Legal(s, call) && Rewrites(s, call)
    ensures !Intact(SharedStep(t, s, call).c)
  {
    hide Inv, Written, Step, Takes, Intact;
    var s', c := SharedStep(t, s, call), Step(t, s.c, AsOp(s, call)).0;
    TakesPublishes(s, call);
    var i :| 0 <= i < |s.refs| && s.refs[i].Some? && s.heap.Data(s.refs[i].value) == s.heap.Data(call.ref);
    WrittenShape(s, call, s.refs[i].value);
    StepInv(t, s.c, AsOp(s, call));
    DeliverySafety(t, s.c, AsOp(s, call));
    InvIntact(c);
    assert c.queue[i] == s.c.queue[i] != s'.c.queue[i];
    OtherQueue(c, s'.c, i);
  }

  lemma OtherQueue(c: Chan, d: Chan, i: nat)
    requires Intact(c) && d == c.(queue := d.queue)
    requires i < |c.queue| && i < |d.queue| && c.queue[i] != d.queue[i]
    ensures !Intact(d)
  {
    assert (Pushed(c.pushes) + c.queue)[|c.pushes| + i] == c.queue[i];
    assert (Pushed(c.pushes) + d.queue)[|c.pushes| + i] == d.queue[i];
  }

  lemma TakesPublishes(s: Shared, call: Call)
    requires Takes(s, call)
    ensures call.PublishRef?
  {}

  lemma InvIntact(c: Chan)
    requires Inv(c)
    ensures Intact(c)
  {}

  lemma CarefulInit(t: TicketFn, s: Shared, calls: seq<Call>)
    requires Paired(s) && calls != [] && Careful(t, s, calls)
    ensures var init := calls[..|calls| - 1];
            Careful(t, s, init) && !Rewrites(SharedRun(t, s, init), calls[|calls| - 1])
  {
    hide Rewrites, SharedRun;
    var init := calls[..|calls| - 1];
    forall k | 0 <= k < |init| ensures !Rewrites(SharedRun(t, s, init[..k]), init[k]) {
      assert init[..k] == calls[..k];
    }
  }

  lemma CarefulLast(t: TicketFn, s: Shared, calls: seq<Call>, init: seq<Call>, call: Call)
    requires Paired(s) && calls == init + [call]
    requires Careful(t, s, init) && !Rewrites(SharedRun(t, s, init), call)
    ensures Careful(t, s, calls)
  {
    hide Rewrites, SharedRun;
    forall k | 0 <= k < |calls| ensures !Rewrites(SharedRun(t, s, calls[..k]), calls[k]) {
      if k < |init| {
        assert calls[..k] == init[..k] && calls[k] == init[k];
        assert !Rewrites(SharedRun(t, s, init[..k]), init[k]);
      } else {
        assert calls[..k] == init;
      }
    }
  }

  /** Over every history, whatever objects are published: every message goes out as it was accepted if and only if no
      chat message is numbered that a waiting notification points to as well. */
  lemma {:induction false} IntactExact(t: TicketFn, s: Shared, calls: seq<Call>)
    requires SInv(s, s.c) && LegalCalls(t, s, calls)
    ensures (forall k :: 0 <= k <= |calls| ==> Intact(SharedRun(t, s, calls[..k]).c)) <==> Careful(t, s, calls)
    ensures Careful(t, s, calls) ==> SInv(SharedRun(t, s, calls), SharedRun(t, s, calls).c)
    decreases |calls|
  {
    hide LegalCalls, Careful, Rewrites, Step, SharedStep, Inv, LegalOp, Intact, SharedRun, Similar;
    if calls == [] {
      CarefulNothing(t, s);
      InvIntact(s.c);
    } else {
      var init, call := calls[..|calls| - 1], calls[|calls| - 1];
      LegalInit(t, s, calls);
      IntactExact(t, s, init);
      var at := SharedRun(t, s, init);
      assert forall k :: 0 <= k <= |init| ==> init[..k] == calls[..k];
      assert calls[..|calls|] == calls;
      SharedRunSnoc(t, s, calls);
      if Careful(t, s, calls) {
        CarefulInit(t, s, calls);
      }
      if Careful(t, s, init) {
        if Rewrites(at, call) {
          RewritingStep(t, at, call);
        } else {
          CarefulLast(t, s, calls, init, call);
          CarefulStep(t, at, call);
          SimStep(t, at, at.c, call);
          InvIntact(SharedStep(t, at, call).c);
        }
      }
    }
  }

  lemma SharedRunSnoc(t: TicketFn, s: Shared, calls: seq<Call>)
    requires Paired(s) && calls != []
    ensures SharedRun(t, s, calls) == SharedStep(t, SharedRun(t, s, calls[..|calls| - 1]), calls[|calls| - 1])
  {}

  lemma CarefulNothing(t: TicketFn, s: Shared)
    requires Paired(s)
    ensures Careful(t, s, []) && SharedRun(t, s, []) == s
  {}

  /** In particular when no two envelopes point to the same message, however often each is published. */
  lemma {:induction false} OwnMessages(t: TicketFn, s: Shared, calls: seq<Call>)
    requires SInv(s, s.c) && LegalCalls(t, s, calls)
    requires forall r: nat, q: nat :: s.heap.Data(r) == s.heap.Data(q) ==> r == q
    ensures Careful(t, s, calls) && Intact(SharedRun(t, s, calls).c)
    decreases |calls|
  {
    hide LegalCalls, Careful, Rewrites, Step, SharedStep, Inv, LegalOp, Intact, SharedRun, Similar;
    if calls == [] {
      CarefulNothing(t, s);
    } else {
      var init, call := calls[..|calls| - 1], calls[|calls| - 1];
      LegalInit(t, s, calls);
      OwnMessages(t, s, init);
      IntactExact(t, s, init);
      forall r: nat ensures SharedRun(t, s, init).heap.Data(r) == s.heap.Data(r) {
        BoxedStays(t, s, init, r);
      }
      OwnStep(SharedRun(t, s, init), call);
      CarefulLast(t, s, calls, init, call);
    }
    IntactExact(t, s, calls);
    assert calls[..|calls|] == calls;
  }

  lemma OwnStep(s: Shared, call: Call)
    requires SInv(s, s.c) && forall r: nat, q: nat :: s.heap.Data(r) == s.heap.Data(q) ==> r == q
    ensures !Rewrites(s, call)
  {
    hide Inv, Similar;
    if Rewrites(s, call) {
      var i :| 0 <= i < |s.refs| && s.refs[i].Some? && s.heap.Data(s.refs[i].value) == s.heap.Data(call.ref);
      WaitingBoxed(s, s.c, i);
    }
  }

  // A chat message has one chance.

  lemma {:induction false} BoxedStays(t: TicketFn, s: Shared, calls: seq<Call>, ref: nat)
    requires Consistent(s)
    ensures var s' := SharedRun(t, s, calls);
            && Consistent(s') && s'.heap.Data(ref) == s.heap.Data(ref)
            && s'.heap.Read(ref).kind == s.heap.Read(ref).kind
            && (s.heap.bodies(s.heap.Data(ref)).Boxed? ==> s'.heap.bodies(s.heap.Data(ref)).Boxed?)
    decreases |calls|
  {
    hide Step, Reread;
    if calls != [] {
      var init, call := calls[..|calls| - 1], calls[|calls| - 1];
      BoxedStays(t, s, init, ref);
      ConsistentStep(t, SharedRun(t, s, init), call);
    }
  }

  lemma {:induction false} SharedRunConcat(t: TicketFn, s: Shared, calls: seq<Call>, more: seq<Call>)
    requires Paired(s)
    ensures SharedRun(t, s, calls + more) == SharedRun(t, SharedRun(t, s, calls), more)
    decreases |more|
  {
    hide SharedStep;
    if more == [] {
      assert calls + more == calls;
    } else {
      SharedRunConcat(t, s, calls, more[..|more| - 1]);
      assert (calls + more)[..|calls + more| - 1] == calls + more[..|more| - 1];
    }
  }

  /** Once a message has been given a number, stored and queued or not, every later publication of it as a chat message,
      in whatever envelope, is refused and changes nothing. */
  lemma OneChance(t: TicketFn, s: Shared, first: Call, calls: seq<Call>, again: Call)
    requires Consistent(s) && Takes(s, first) && again.PublishRef?
    requires s.heap.Data(again.ref) == s.heap.Data(first.ref) && s.heap.Read(again.ref).kind == TYPE_MESSAGE
    ensures var at := SharedRun(t, SharedStep(t, s, first), calls);
            && !Takes(at, again) && Step(t, at.c, AsOp(at, again)).1 != Ok
            && SharedStep(t, at, again) == at
  {
    hide Step, Reread, Refusal;
    ConsistentStep(t, s, first);
    var s1 := SharedStep(t, s, first);
    BoxedStays(t, s1, calls, again.ref);
    BoxedRefused(t, SharedRun(t, s1, calls), again);
  }

  lemma BoxedRefused(t: TicketFn, s: Shared, call: Call)
    requires Consistent(s) && call.PublishRef?
    requires s.heap.Read(call.ref).body.Boxed? && s.heap.Read(call.ref).kind == TYPE_MESSAGE
    ensures !Takes(s, call) && Step(t, s.c, AsOp(s, call)).1 != Ok && SharedStep(t, s, call) == s
  {
    hide Refusal;
    assert Step(t, s.c, AsOp(s, call)).0 == s.c;
    assert SharedStep(t, s, call).c.queue == s.c.queue;
  }

  /** So over every history no message takes two numbers. */
  lemma NumberedOnce(t: TicketFn, s: Shared, calls: seq<Call>, i: nat, j: nat)
    requires Consistent(s) && i < j < |calls| && calls[i].PublishRef? && calls[j].PublishRef?
    requires Takes(SharedRun(t, s, calls[..i]), calls[i]) && Takes(SharedRun(t, s, calls[..j]), calls[j])
    ensures s.heap.Data(calls[i].ref) != s.heap.Data(calls[j].ref)
  {
    hide Step, SharedStep, Reread, SharedRun, Takes;
    var at := SharedRun(t, s, calls[..i]);
    BoxedStays(t, s, calls[..i], calls[i].ref);
    BoxedStays(t, s, calls[..i], calls[j].ref);
    var mid := calls[i + 1..j];
    assert calls[..j] == calls[..i + 1] + mid && calls[..i + 1][..i] == calls[..i];
    SharedRunConcat(t, s, calls[..i + 1], mid);
    SharedRunSnoc(t, s, calls[..i + 1]);
    BoxedStays(t, s, calls[..j], calls[j].ref);
    TakesChat(SharedRun(t, s, calls[..j]), calls[j]);
    if s.heap.Data(calls[i].ref) == s.heap.Data(calls[j].ref) {
      OneChance(t, at, calls[i], mid, calls[j]);
    }
  }

  lemma TakesChat(s: Shared, call: Call)
    requires Takes(s, call)
    ensures s.heap.Read(call.ref).kind == TYPE_MESSAGE
  {}
}
