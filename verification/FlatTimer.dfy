/** The timer a caller of the timing wheel sees: a flat table "task -> deadline tick". */
module FlatTimer {
  import opened Digits

  type TaskId = nat

  datatype Firing = Firing(task: TaskId, tick: nat)

  datatype Op = Insert(offset: nat) | Cancel(task: TaskId) | Tick

  /** `due` holds the pending tasks, `fired` the tick each fired task fired on, `nextId` the next unused id. */
  datatype Flat = Flat(now: nat, due: map<TaskId, nat>, fired: map<TaskId, nat>, nextId: TaskId)

  const Start := Flat(0, map[], map[], 0)

  /** A task inserted before the first tick counts from tick 1, every other one from the current tick. */
  function Deadline(wheels: nat, now: nat, offset: nat): nat {
    if now == 0 && wheels > 1 then offset + 1 else now + offset
  }

  /** Exactly the offsets that `wheels` wheels of `slots` slots can hold after `now` ticks. */
  predicate Fits(wheels: nat, slots: nat, now: nat, offset: nat)
    requires wheels >= 1 && slots >= 1
  {
    if now == 0 && wheels > 1 then
      offset < Pow(slots, wheels) - Pow(slots, wheels - 1)
    else
      offset + (now - 1) % Pow(slots, wheels - 1) < Pow(slots, wheels)
  }

  function Due(due: map<TaskId, nat>, tick: nat): map<TaskId, nat> {
    map v | v in due && due[v] == tick :: tick
  }

  function Pending(due: map<TaskId, nat>, tick: nat): map<TaskId, nat> {
    map v | v in due && due[v] != tick :: due[v]
  }

  /** A task that does not fit gets an id and is forgotten; one due at once fires at once. */
  function Schedule(f: Flat, fits: bool, deadline: nat): Flat {
    var f' := f.(nextId := f.nextId + 1);
    if !fits then f'
    else if deadline == f.now then f'.(fired := f.fired[f.nextId := f.now])
    else f'.(due := f.due[f.nextId := deadline])
  }

  function Step(wheels: nat, slots: nat, f: Flat, op: Op): Flat
    requires wheels >= 1 && slots >= 1
  {
    match op
    case Insert(d) => Schedule(f, Fits(wheels, slots, f.now, d), Deadline(wheels, f.now, d))
    case Cancel(v) => f.(due := f.due - {v})
    case Tick => Flat(f.now + 1, Pending(f.due, f.now + 1), f.fired + Due(f.due, f.now + 1), f.nextId)
  }

  function Run(wheels: nat, slots: nat, f: Flat, ops: seq<Op>): Flat
    requires wheels >= 1 && slots >= 1
    decreases |ops|
  {
    if ops == [] then f
    else Step(wheels, slots, Run(wheels, slots, f, ops[..|ops| - 1]), ops[|ops| - 1])
  }

  lemma RunSnoc(wheels: nat, slots: nat, f: Flat, ops: seq<Op>, op: Op)
    requires wheels >= 1 && slots >= 1
    ensures Run(wheels, slots, f, ops + [op]) == Step(wheels, slots, Run(wheels, slots, f, ops), op)
  {
    assert (ops + [op])[..|ops|] == ops;
  }

  /** Ids below `nextId` are the ones handed out; pending deadlines lie ahead; nothing is pending and fired. */
  ghost predicate Sane(f: Flat) {
    && (forall v <- f.due :: v < f.nextId && f.due[v] > f.now && v !in f.fired)
    && (forall v <- f.fired :: v < f.nextId && f.fired[v] <= f.now)
  }

  lemma StartSane()
    ensures Sane(Start)
  {}

  lemma StepSane(wheels: nat, slots: nat, f: Flat, op: Op)
    requires wheels >= 1 && slots >= 1 && Sane(f)
    ensures Sane(Step(wheels, slots, f, op))
  {}

  lemma {:induction false} RunSane(wheels: nat, slots: nat, ops: seq<Op>)
    requires wheels >= 1 && slots >= 1
    ensures Sane(Run(wheels, slots, Start, ops))
    decreases |ops|
  {
    hide Sane, Step;
    if ops == [] {
      StartSane();
    } else {
      RunSane(wheels, slots, ops[..|ops| - 1]);
      StepSane(wheels, slots, Run(wheels, slots, Start, ops[..|ops| - 1]), ops[|ops| - 1]);
    }
  }

  function Ticks(ops: seq<Op>): nat
    decreases |ops|
  {
    if ops == [] then 0 else Ticks(ops[..|ops| - 1]) + if ops[|ops| - 1] == Tick then 1 else 0
  }

  /** Some `Cancel(v)` of `ops` comes while the clock, started at `now`, is still before `deadline`. */
  ghost predicate CancelledBefore(ops: seq<Op>, v: TaskId, now: nat, deadline: nat) {
    exists i :: 0 <= i < |ops| && ops[i] == Cancel(v) && now + Ticks(ops[..i]) < deadline
  }

  lemma CancelledBeforeSnoc(ops: seq<Op>, op: Op, v: TaskId, now: nat, deadline: nat)
    ensures CancelledBefore(ops + [op], v, now, deadline)
            <==> CancelledBefore(ops, v, now, deadline) || (op == Cancel(v) && now + Ticks(ops) < deadline)
  {
    var all := ops + [op];
    assert all[..|ops|] == ops;
    if CancelledBefore(ops, v, now, deadline) {
      var i :| 0 <= i < |ops| && ops[i] == Cancel(v) && now + Ticks(ops[..i]) < deadline;
      assert all[..i] == ops[..i] && all[i] == Cancel(v);
    }
    if CancelledBefore(all, v, now, deadline) {
      var i :| 0 <= i < |all| && all[i] == Cancel(v) && now + Ticks(all[..i]) < deadline;
      if i < |ops| {
        assert all[..i] == ops[..i] && ops[i] == Cancel(v);
      }
    }
    if op == Cancel(v) && now + Ticks(ops) < deadline {
      assert all[|ops|] == Cancel(v);
    }
  }

  lemma NeverCancelled(v: TaskId, now: nat, deadline: nat)
    ensures !CancelledBefore([], v, now, deadline)
  {}

  /** Where a task inserted with `offset` after the run `pre` is, once `post` has run too. */
  ghost predicate Fate(f: Flat, v: TaskId, fits: bool, deadline: nat, cancelled: bool) {
    && (v in f.fired <==> fits && deadline <= f.now && !cancelled)
    && (v in f.fired ==> f.fired[v] == deadline)
    && (v in f.due <==> fits && deadline > f.now && !cancelled)
    && (v in f.due ==> f.due[v] == deadline)
  }

  lemma FateStep(wheels: nat, slots: nat, f: Flat, op: Op, v: TaskId, fits: bool, deadline: nat, cancelled: bool)
    requires wheels >= 1 && slots >= 1
    requires v < f.nextId && Fate(f, v, fits, deadline, cancelled)
    ensures var f' := Step(wheels, slots, f, op);
            && f'.nextId >= f.nextId
            && f'.now == f.now + if op == Tick then 1 else 0
    ensures Fate(Step(wheels, slots, f, op), v, fits, deadline, cancelled || (op == Cancel(v) && f.now < deadline))
  {}

  lemma FateStart(wheels: nat, slots: nat, f: Flat, offset: nat)
    requires wheels >= 1 && slots >= 1 && Sane(f)
    ensures var f' := Step(wheels, slots, f, Insert(offset)); f'.nextId == f.nextId + 1 && f'.now == f.now
    ensures Fate(Step(wheels, slots, f, Insert(offset)), f.nextId, Fits(wheels, slots, f.now, offset),
                 Deadline(wheels, f.now, offset), false)
  {}

  /** Over every run: a task fires if and only if its offset fits the wheels, its deadline has come and it was
      not cancelled before; and then it fires on its deadline. */
  lemma {:induction false} ExactFiring(wheels: nat, slots: nat, pre: seq<Op>, offset: nat, post: seq<Op>)
    requires wheels >= 1 && slots >= 1
    ensures var at := Run(wheels, slots, Start, pre);
            var deadline := Deadline(wheels, at.now, offset);
            var end := Run(wheels, slots, Start, pre + [Insert(offset)] + post);
            && end.now == at.now + Ticks(post)
            && at.nextId < end.nextId
            && Fate(end, at.nextId, Fits(wheels, slots, at.now, offset), deadline,
                    CancelledBefore(post, at.nextId, at.now, deadline))
    decreases |post|
  {
    hide Fate, Fits, Deadline, Step, Sane, CancelledBefore, Run;
    var at := Run(wheels, slots, Start, pre);
    var deadline := Deadline(wheels, at.now, offset);
    var v := at.nextId;
    if post == [] {
      RunSane(wheels, slots, pre);
      RunSnoc(wheels, slots, Start, pre, Insert(offset));
      assert pre + [Insert(offset)] + post == pre + [Insert(offset)];
      FateStart(wheels, slots, at, offset);
      NeverCancelled(v, at.now, deadline);
    } else {
      var init, op := post[..|post| - 1], post[|post| - 1];
      var mid := Run(wheels, slots, Start, pre + [Insert(offset)] + init);
      ExactFiring(wheels, slots, pre, offset, init);
      assert init + [op] == post;
      assert pre + [Insert(offset)] + post == pre + [Insert(offset)] + init + [op];
      RunSnoc(wheels, slots, Start, pre + [Insert(offset)] + init, op);
      CancelledBeforeSnoc(init, op, v, at.now, deadline);
      FateStep(wheels, slots, mid, op, v, Fits(wheels, slots, at.now, offset), deadline,
               CancelledBefore(init, v, at.now, deadline));
    }
  }
}
