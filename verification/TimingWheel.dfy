/** The hierarchical timing wheel: wheel k has `slots` slots of slots^k ticks each and cascades into wheel k-1.
    A wheel's circular slot list is a sequence walked modulo its length, a slot is named by wheel and index, a
    task is an id whose mutable fields (`offset`, `s`) are kept in maps. */
module TimingWheels {
  import opened Digits
  import opened FlatTimer
  import opened Options

  datatype Loc = Loc(wheel: nat, slot: nat)

  datatype Wheel = Wheel(slotCap: nat, remain: int, hand: nat, slots: seq<set<TaskId>>)

  /** The hand of a wheel standing at clock position p (ticks so far minus one) is base-B digit k of p. */
  ghost predicate WheelShape(B: nat, k: nat, w: Wheel, p: int) {
    B >= 1 && w.slotCap == Pow(B, k) && |w.slots| == B && w.hand == Quot(B, k, p) % B
  }

  ghost predicate Shape(B: nat, wheels: seq<Wheel>, pos: seq<int>) {
    && B >= 1
    && 1 <= |wheels| == |pos|
    && (forall k :: 0 <= k < |wheels| ==> WheelShape(B, k, wheels[k], pos[k]))
  }

  /** What is left of the current turn of a wheel below the top; before the first tick the counter is 0. */
  function RemainAt(B: nat, k: nat, now: nat): int
    requires B >= 1
  {
    if now == 0 then 0 else Pow(B, k + 1) - Rem(B, k + 1, now - 1)
  }

  ghost predicate Remains(B: nat, wheels: seq<Wheel>, now: nat, from: nat)
    requires B >= 1
  {
    forall k :: from <= k < |wheels| - 1 ==> wheels[k].remain == RemainAt(B, k, now)
  }

  predicate Holds(wheels: seq<Wheel>, l: Loc, v: TaskId) {
    l.wheel < |wheels| && l.slot < |wheels[l.wheel].slots| && v in wheels[l.wheel].slots[l.slot]
  }

  /** Every pending task sits in exactly the one slot its `s` field names; tasks in `flight` are in no slot. */
  ghost predicate Linked(wheels: seq<Wheel>, s: map<TaskId, Loc>, due: map<TaskId, nat>, flight: set<TaskId>) {
    && s.Keys == due.Keys
    && (forall v <- s :: s[v].wheel < |wheels| && s[v].slot < |wheels[s[v].wheel].slots|)
    && (forall v, l :: Holds(wheels, l, v) ==> v in due && v !in flight && s[v] == l)
    && (forall v :: v in due && v !in flight ==> Holds(wheels, s[v], v))
  }

  /** Where a task with the given deadline may stand while its wheel is at clock position p. */
  ghost predicate Spot(B: nat, p: int, l: Loc, offset: int, deadline: nat)
    requires B >= 1
  {
    && l.slot == Quot(B, l.wheel, deadline - 1) % B
    && 0 <= Quot(B, l.wheel, deadline - 1) - Quot(B, l.wheel, p) < B
    && (l.wheel > 0 ==> offset == Rem(B, l.wheel, deadline - 1))
  }

  /** The wheels, the tasks' fields, and the ghost clock position of each wheel and deadline of each task. */
  datatype View = View(wheels: seq<Wheel>, pos: seq<int>, s: map<TaskId, Loc>, offset: map<TaskId, int>,
                       due: map<TaskId, nat>)

  ghost predicate Placed(B: nat, g: View, flight: set<TaskId>)
    requires B >= 1
  {
    forall v :: v in g.due && v !in flight ==>
      && v in g.s && v in g.offset && g.s[v].wheel < |g.pos|
      && Spot(B, g.pos[g.s[v].wheel], g.s[v], g.offset[v], g.due[v])
  }

  ghost predicate Sound(B: nat, g: View, flight: set<TaskId>) {
    Shape(B, g.wheels, g.pos) && Linked(g.wheels, g.s, g.due, flight) && Placed(B, g, flight)
  }

  ghost predicate Clear(w: Wheel) {
    w.hand < |w.slots| && w.slots[w.hand] == {}
  }

  /** The log lists every fired task once, with the tick it fired on. */
  ghost predicate LogOf(log: seq<Firing>, fired: map<TaskId, nat>) {
    && (forall i, j :: 0 <= i < j < |log| ==> log[i].task != log[j].task)
    && (forall i :: 0 <= i < |log| ==> log[i].task in fired && fired[log[i].task] == log[i].tick)
    && (forall v <- fired :: Firing(v, fired[v]) in log)
  }

  ghost predicate Books(due: map<TaskId, nat>, fired: map<TaskId, nat>, log: seq<Firing>, nextId: TaskId, now: nat) {
    && due.Keys !! fired.Keys
    && LogOf(log, fired)
    && (forall v <- due :: v < nextId)
    && (forall v <- fired :: v < nextId && fired[v] <= now)
  }

  /** Between two states of one tick: tasks only leave the pending table by firing, on their deadline. */
  ghost predicate Settled(due: map<TaskId, nat>, fired: map<TaskId, nat>,
                          due': map<TaskId, nat>, fired': map<TaskId, nat>, now: nat) {
    && due'.Keys <= due.Keys
    && (forall v <- due' :: due'[v] == due[v])
    && (forall v :: v in due && v !in due' ==> due[v] == now)
    && fired' == fired + map v | v in due && v !in due' :: now
  }

  lemma SettledTrans(d0: map<TaskId, nat>, f0: map<TaskId, nat>, d1: map<TaskId, nat>, f1: map<TaskId, nat>,
                     d2: map<TaskId, nat>, f2: map<TaskId, nat>, now: nat)
    requires Settled(d0, f0, d1, f1, now) && Settled(d1, f1, d2, f2, now)
    ensures Settled(d0, f0, d2, f2, now)
  {}

  /** Between calls every wheel stands at the same clock position and every current slot is empty. */
  ghost predicate Steady(B: nat, g: View, now: nat) {
    && Sound(B, g, {})
    && Remains(B, g.wheels, now, 0)
    && (forall k :: 0 <= k < |g.wheels| ==> g.pos[k] == now - 1)
    && (forall k :: 0 <= k < |g.wheels| ==> Clear(g.wheels[k]))
  }

  lemma SteadyForget(B: nat, g: View, v: TaskId, now: nat)
    requires Steady(B, g, now)
    ensures g.s.Keys == g.due.Keys
    ensures v in g.due ==> Holds(g.wheels, g.s[v], v) && Steady(B, Forget(TakeOut(g, v), v), now)
  {
    if v in g.due {
      SoundTakeOut(B, g, v);
    }
  }

  /** Only the top wheel starts with a full counter; every hand starts on the last slot. */
  function NewWheel(B: nat, k: nat, wheels: nat): Wheel
    requires B >= 1
  {
    Wheel(Pow(B, k), if k == wheels - 1 then Pow(B, k) * B else 0, B - 1, seq(B, _ => {}))
  }

  function WithTask(wheels: seq<Wheel>, l: Loc, v: TaskId): seq<Wheel>
    requires l.wheel < |wheels| && l.slot < |wheels[l.wheel].slots|
  {
    var w := wheels[l.wheel];
    wheels[l.wheel := w.(slots := w.slots[l.slot := w.slots[l.slot] + {v}])]
  }

  function WithoutTask(wheels: seq<Wheel>, l: Loc, v: TaskId): seq<Wheel>
    requires l.wheel < |wheels| && l.slot < |wheels[l.wheel].slots|
  {
    var w := wheels[l.wheel];
    wheels[l.wheel := w.(slots := w.slots[l.slot := w.slots[l.slot] - {v}])]
  }

  /** Putting a task that is in no slot into slot l links it. */
  lemma LinkedWithTask(wheels: seq<Wheel>, s: map<TaskId, Loc>, due: map<TaskId, nat>, v: TaskId, l: Loc, d: nat)
    requires l.wheel < |wheels| && l.slot < |wheels[l.wheel].slots|
    requires Linked(wheels, s, due, {v}) || (v !in due && Linked(wheels, s, due, {}))
    ensures Linked(WithTask(wheels, l, v), s[v := l], due[v := d], {})
  {
    forall u, m ensures Holds(WithTask(wheels, l, v), m, u) <==> Holds(wheels, m, u) || (u == v && m == l) {}
  }

  /** Taking a task out of its slot leaves it in flight, or gone if it leaves the pending table too. */
  lemma LinkedWithoutTask(wheels: seq<Wheel>, s: map<TaskId, Loc>, due: map<TaskId, nat>, v: TaskId)
    requires Linked(wheels, s, due, {}) && v in due
    ensures Linked(WithoutTask(wheels, s[v], v), s, due, {v})
    ensures Linked(WithoutTask(wheels, s[v], v), s - {v}, due - {v}, {})
  {
    forall u, m ensures Holds(WithoutTask(wheels, s[v], v), m, u) <==> Holds(wheels, m, u) && u != v {
      if Holds(wheels, m, u) && u == v {
        assert s[v] == m;
      }
    }
  }

  function PutIn(g: View, l: Loc, v: TaskId, offset: int, deadline: nat): View
    requires l.wheel < |g.wheels| && l.slot < |g.wheels[l.wheel].slots|
  {
    View(WithTask(g.wheels, l, v), g.pos, g.s[v := l], g.offset[v := offset], g.due[v := deadline])
  }

  lemma SoundPutIn(B: nat, g: View, l: Loc, v: TaskId, offset: int, deadline: nat)
    requires Sound(B, g, {v}) || (v !in g.due && Sound(B, g, {}))
    requires l.wheel < |g.wheels| && Spot(B, g.pos[l.wheel], l, offset, deadline)
    ensures l.slot < |g.wheels[l.wheel].slots| && Sound(B, PutIn(g, l, v, offset, deadline), {})
  {
    assert WheelShape(B, l.wheel, g.wheels[l.wheel], g.pos[l.wheel]);
    LinkedWithTask(g.wheels, g.s, g.due, v, l, deadline);
  }

  function TakeOut(g: View, v: TaskId): View
    requires v in g.s && g.s[v].wheel < |g.wheels| && g.s[v].slot < |g.wheels[g.s[v].wheel].slots|
  {
    g.(wheels := WithoutTask(g.wheels, g.s[v], v))
  }

  function Forget(g: View, v: TaskId): View {
    g.(s := g.s - {v}, due := g.due - {v})
  }

  lemma SoundTakeOut(B: nat, g: View, v: TaskId)
    requires Sound(B, g, {}) && v in g.due
    ensures v in g.s && Holds(g.wheels, g.s[v], v)
    ensures Sound(B, TakeOut(g, v), {v}) && Sound(B, Forget(TakeOut(g, v), v), {})
  {
    LinkedWithoutTask(g.wheels, g.s, g.due, v);
  }

  lemma WithoutAbsent(wheels: seq<Wheel>, l: Loc, v: TaskId)
    requires l.wheel < |wheels| && l.slot < |wheels[l.wheel].slots| && v !in wheels[l.wheel].slots[l.slot]
    ensures WithoutTask(wheels, l, v) == wheels
  {
    var w := wheels[l.wheel];
    assert w.slots[l.slot] - {v} == w.slots[l.slot];
    assert w.slots[l.slot := w.slots[l.slot]] == w.slots;
  }

  /** A task in flight is in no slot, so taking it out again changes nothing. */
  lemma SoundForget(B: nat, g: View, v: TaskId)
    requires Sound(B, g, {v}) && v in g.due
    ensures v in g.s && g.s[v].wheel < |g.wheels| && g.s[v].slot < |g.wheels[g.s[v].wheel].slots|
    ensures TakeOut(g, v) == g && Sound(B, Forget(g, v), {})
  {
    assert !Holds(g.wheels, g.s[v], v);
    WithoutAbsent(g.wheels, g.s[v], v);
    assert Linked(g.wheels, g.s - {v}, g.due - {v}, {}) by {
      hide Shape, Placed;
    }
    assert Placed(B, Forget(g, v), {}) by {
      hide Linked;
    }
  }

  function Advance(g: View, k: nat): View
    requires k < |g.wheels| == |g.pos| && |g.wheels[k].slots| >= 1
  {
    var w := g.wheels[k];
    g.(wheels := g.wheels[k := w.(hand := (w.hand + 1) % |w.slots|)], pos := g.pos[k := g.pos[k] + 1])
  }

  /** Wheel k enters the next clock position; its hand moves on exactly when the lower digits roll over. */
  lemma SoundNext(B: nat, g: View, k: nat)
    requires Sound(B, g, {}) && k < |g.wheels| && Clear(g.wheels[k])
    ensures |g.wheels[k].slots| == B
    ensures Rem(B, k, g.pos[k] + 1) == 0 ==> Sound(B, Advance(g, k), {})
    ensures Rem(B, k, g.pos[k] + 1) != 0 ==> Sound(B, g.(pos := g.pos[k := g.pos[k] + 1]), {})
  {
    hide Quot, Rem, Pow;
    var p, w := g.pos[k], g.wheels[k];
    assert WheelShape(B, k, w, p);
    QuotSucc(B, k, p);
    ModAdd(B, Quot(B, k, p), 1);
    forall v | v in g.due && g.s[v].wheel == k ensures Spot(B, p + 1, g.s[v], g.offset[v], g.due[v]) {
      assert Holds(g.wheels, g.s[v], v);
      SpotStep(B, p, g.s[v], g.offset[v], g.due[v]);
    }
    hide Spot, Linked;
    LinkedHand(g.wheels, g.s, g.due, k, (w.hand + 1) % |w.slots|);
  }

  /** Where the tasks are does not depend on where a hand points. */
  lemma LinkedHand(wheels: seq<Wheel>, s: map<TaskId, Loc>, due: map<TaskId, nat>, k: nat, hand: nat)
    requires Linked(wheels, s, due, {}) && k < |wheels|
    ensures Linked(wheels[k := wheels[k].(hand := hand)], s, due, {})
  {
    var wheels' := wheels[k := wheels[k].(hand := hand)];
    forall v, l ensures Holds(wheels', l, v) <==> Holds(wheels, l, v) {}
  }

  /** Counting a `remain` field down, with reload, keeps it at its closed form. */
  lemma RemainStep(B: nat, k: nat, now: nat)
    requires B >= 1
    ensures RemainAt(B, k, now + 1)
            == if RemainAt(B, k, now) - 1 <= 0 then Pow(B, k) * B else RemainAt(B, k, now) - 1
  {
    hide Rem, Quot;
    QuotSucc(B, k + 1, now - 1);
    RemBounds(B, k + 1, now - 1);
    RemBounds(B, k + 1, now);
    assert Pow(B, k + 1) == Pow(B, k) * B;
    if now == 0 {
      QuotUnique(B, k + 1, 0, 0, 0);
    }
  }

  lemma {:induction false} QuotMinusOne(B: nat, k: nat)
    requires B >= 1
    ensures Quot(B, k, -1) == -1 && -1 % B == B - 1
  {
    DivStep(-1, B);
    assert -1 / B == -1;
    if k > 0 {
      QuotMinusOne(B, k - 1);
    }
  }

  /** A task `left` ticks past the next turn of wheel k's hand belongs `s` slots ahead, with residue `o`. */
  lemma Landing(B: nat, k: nat, p: int, deadline: nat, s: int, o: int)
    requires B >= 1 && 0 <= o < Pow(B, k)
    requires deadline - 1 - p - (Pow(B, k) - Rem(B, k, p)) == (s - 1) * Pow(B, k) + o
    ensures Quot(B, k, deadline - 1) == Quot(B, k, p) + s && Rem(B, k, deadline - 1) == o
    ensures deadline - 1 - p + Rem(B, k, p) == s * Pow(B, k) + o
  {
    var q, P := Quot(B, k, p), Pow(B, k);
    MulPred(s, P);
    assert (q + s) * P == q * P + s * P;
    QuotUnique(B, k, deadline - 1, q + s, o);
  }

  /** A task in the current slot of a wheel whose lower digits are all zero has its residue left to run. */
  lemma InCurrentSlot(B: nat, p: int, l: Loc, offset: int, deadline: nat)
    requires B >= 1 && Spot(B, p, l, offset, deadline) && l.slot == Quot(B, l.wheel, p) % B
    ensures Quot(B, l.wheel, deadline - 1) == Quot(B, l.wheel, p)
    ensures Rem(B, l.wheel, p) == 0 ==> deadline - 1 - p == Rem(B, l.wheel, deadline - 1)
    ensures 0 <= Rem(B, l.wheel, deadline - 1) < Pow(B, l.wheel)
  {
    ModClose(B, Quot(B, l.wheel, deadline - 1), Quot(B, l.wheel, p));
    RemBounds(B, l.wheel, deadline - 1);
  }

  /** Away from the current slot, a deadline lies strictly ahead. */
  lemma AheadOfHand(B: nat, p: int, l: Loc, offset: int, deadline: nat)
    requires B >= 1 && Spot(B, p, l, offset, deadline) && l.slot != Quot(B, l.wheel, p) % B
    ensures deadline - 1 > p
  {
    if deadline - 1 <= p {
      QuotMonotone(B, l.wheel, deadline - 1, p);
    }
  }

  /** One clock step keeps a task's spot legal, unless it sat in the slot the hand is leaving. */
  lemma SpotStep(B: nat, p: int, l: Loc, offset: int, deadline: nat)
    requires B >= 1 && Spot(B, p, l, offset, deadline) && l.slot != Quot(B, l.wheel, p) % B
    ensures Spot(B, p + 1, l, offset, deadline)
  {
    QuotSucc(B, l.wheel, p);
  }

  /** What one tick's cascade has already reached: wheels below m stand at the new tick, cleared. */
  ghost predicate Low(B: nat, g: View, now: nat, m: nat) {
    && B >= 1 && m <= |g.wheels| == |g.pos|
    && Remains(B, g.wheels, now, 0)
    && (forall i :: 0 <= i < m ==> g.pos[i] == now - 1 && Clear(g.wheels[i]))
  }

  /** A cascading task whose remaining offset spans s > 0 slots of wheel k, at a time when wheel k-1 and
      everything below has just rolled over, lands s slots ahead with a residue below wheel k's slotCap. */
  lemma CascadeSpot(B: nat, k: nat, now: nat, off: int, deadline: nat)
    requires B >= 1 && now >= 1 && Rem(B, k, now - 1) == 0
    requires off == deadline - now && Pow(B, k) <= off < Pow(B, k + 1)
    ensures var s := off / Pow(B, k);
            && 1 <= s < B
            && Spot(B, now - 1, Loc(k, (Quot(B, k, now - 1) % B + s) % B), off - s * Pow(B, k), deadline)
            && (Quot(B, k, now - 1) % B + s) % B != Quot(B, k, now - 1) % B
  {
    var P, q := Pow(B, k), Quot(B, k, now - 1);
    var s := off / P;
    DivStep(off, P);
    MulBeyond(s, P);
    MulBeyond(s - B, P);
    assert (s - B) * P == s * P - B * P;
    MulPred(s, P);
    Landing(B, k, now - 1, deadline, s, off - s * P);
    ModAdd(B, q, s);
    if (q + s) % B == q % B {
      ModClose(B, q + s, q);
    }
  }

  /** Putting a task in flight into a slot other than the current one, with a legal residue. */
  lemma PutAhead(B: nat, g: View, g': View, now: nat, m: nat, l: Loc, v: TaskId)
    requires Sound(B, g, {v}) && v in g.due && Low(B, g, now, m) && l.wheel < m
    requires l.slot < |g.wheels[l.wheel].slots| && l.slot != g.wheels[l.wheel].hand
    requires v in g'.offset && Spot(B, g.pos[l.wheel], l, g'.offset[v], g.due[v])
    requires g' == View(WithTask(g.wheels, l, v), g.pos, g.s[v := l], g.offset[v := g'.offset[v]], g.due)
    ensures Sound(B, g', {}) && Low(B, g', now, m) && g'.wheels[m..] == g.wheels[m..]
  {
    hide Sound;
    SoundPutIn(B, g, l, v, g'.offset[v], g.due[v]);
    LowPutIn(B, g, now, m, l, v, g'.offset[v], g.due[v]);
    assert g.due[v := g.due[v]] == g.due;
  }

  lemma LowPutIn(B: nat, g: View, now: nat, m: nat, l: Loc, v: TaskId, offset: int, deadline: nat)
    requires Low(B, g, now, m) && l.wheel < |g.wheels| && l.slot < |g.wheels[l.wheel].slots|
    requires l.slot != g.wheels[l.wheel].hand
    ensures Low(B, PutIn(g, l, v, offset, deadline), now, m)
  {}

  lemma SettledRefl(due: map<TaskId, nat>, fired: map<TaskId, nat>, now: nat)
    ensures Settled(due, fired, due, fired, now)
  {}

  lemma SettledCall(d0: map<TaskId, nat>, f0: map<TaskId, nat>, d1: map<TaskId, nat>, f1: map<TaskId, nat>,
                    v: TaskId, now: nat)
    requires Settled(d0, f0, d1, f1, now) && v in d1 && d1[v] == now
    ensures Settled(d0, f0, d1 - {v}, f1[v := now], now)
  {}

  lemma SoundShape(B: nat, g: View, k: nat)
    requires Sound(B, g, {}) && k < |g.wheels|
    ensures |g.pos| == |g.wheels| && WheelShape(B, k, g.wheels[k], g.pos[k]) && g.wheels[k].hand < B
  {}

  lemma LowExtend(B: nat, g: View, now: nat, m: nat)
    requires Low(B, g, now, m) && m < |g.wheels| && g.pos[m] == now - 1 && Clear(g.wheels[m])
    ensures Low(B, g, now, m + 1)
  {}

  lemma LowRelease(B: nat, g: View, now: nat, m: nat, v: TaskId)
    requires Low(B, g, now, m)
    requires v in g.s && g.s[v].wheel < |g.wheels| && g.s[v].slot < |g.wheels[g.s[v].wheel].slots|
    ensures Low(B, TakeOut(g, v), now, m) && Low(B, Forget(TakeOut(g, v), v), now, m)
  {}

  lemma LowShape(B: nat, g: View, now: nat, k: nat, v: TaskId)
    requires k < |g.wheels| && Sound(B, g, {v}) && Low(B, g, now, k + 1)
    requires now >= 1 && Rem(B, k + 1, now - 1) == 0
    ensures |g.pos| == |g.wheels| && g.pos[k] == now - 1
    ensures WheelShape(B, k, g.wheels[k], now - 1) && g.wheels[k].hand < B
    ensures k > 0 ==> g.wheels[k - 1].remain == Pow(B, k)
  {
    if k > 0 {
      RemZeroUnfold(B, k, now - 1);
    }
  }

  lemma LowLess(B: nat, g: View, now: nat, m: nat)
    requires Low(B, g, now, m + 1)
    ensures Low(B, g, now, m)
  {}

  lemma LowHand(B: nat, g: View, now: nat, k: nat)
    requires k < |g.wheels| && Sound(B, g, {}) && Low(B, g, now, k + 1)
    ensures g.wheels[k].hand == Quot(B, k, now - 1) % B
  {
    assert WheelShape(B, k, g.wheels[k], g.pos[k]);
  }

  /** What the wheels below m do leaves wheel m as it was. */
  lemma LowBack(B: nat, g: View, g': View, now: nat, m: nat)
    requires Low(B, g, now, m + 1) && Low(B, g', now, m)
    requires |g.wheels| == |g'.wheels| && g'.wheels[m..] == g.wheels[m..] && g'.pos == g.pos
    ensures Low(B, g', now, m + 1) && g'.wheels[m + 1..] == g.wheels[m + 1..]
  {
    assert g'.wheels[m] == g'.wheels[m..][0] == g.wheels[m..][0] == g.wheels[m];
    assert g'.wheels[m + 1..] == g'.wheels[m..][1..];
    assert g.wheels[m + 1..] == g.wheels[m..][1..];
  }

  /** A task in the bottom wheel's current slot is due at the very tick the wheel stands at. */
  lemma DueInBottomSlot(B: nat, g: View, v: TaskId)
    requires Sound(B, g, {}) && g.wheels[0].hand < |g.wheels[0].slots| && v in g.wheels[0].slots[g.wheels[0].hand]
    ensures v in g.due && v in g.s && g.s[v] == Loc(0, g.wheels[0].hand) && g.due[v] == g.pos[0] + 1
  {
    assert Holds(g.wheels, Loc(0, g.wheels[0].hand), v);
    assert WheelShape(B, 0, g.wheels[0], g.pos[0]);
    InCurrentSlot(B, g.pos[0], g.s[v], g.offset[v], g.due[v]);
  }

  /** A task in the current slot of an upper wheel that has just turned has its residue left to wait. */
  lemma DueInUpperSlot(B: nat, g: View, k: nat, now: nat, v: TaskId)
    requires 1 <= k < |g.wheels| && Sound(B, g, {}) && g.pos[k] == now - 1 && Rem(B, k, now - 1) == 0
    requires g.wheels[k].hand < |g.wheels[k].slots| && v in g.wheels[k].slots[g.wheels[k].hand]
    ensures v in g.due && v in g.s && g.s[v] == Loc(k, g.wheels[k].hand)
    ensures v in g.offset && g.offset[v] == g.due[v] - now && 0 <= g.offset[v] < Pow(B, k)
  {
    assert Holds(g.wheels, Loc(k, g.wheels[k].hand), v);
    assert WheelShape(B, k, g.wheels[k], g.pos[k]);
    InCurrentSlot(B, g.pos[k], g.s[v], g.offset[v], g.due[v]);
  }

  lemma SteadyParts(B: nat, g: View, now: nat, k: nat)
    requires Steady(B, g, now) && k < |g.wheels|
    ensures Sound(B, g, {}) && Low(B, g, now, k) && |g.pos| == |g.wheels|
    ensures forall i :: 0 <= i < |g.wheels| ==> g.pos[i] == now - 1 && Clear(g.wheels[i])
    ensures forall i :: 0 <= i < |g.wheels| ==> g.wheels[i].slotCap == Pow(B, i) && |g.wheels[i].slots| == B
    ensures Remains(B, g.wheels, now, 0)
  {
    forall i | 0 <= i < |g.wheels| ensures g.wheels[i].slotCap == Pow(B, i) && |g.wheels[i].slots| == B {
      assert WheelShape(B, i, g.wheels[i], g.pos[i]);
    }
  }

  lemma LowAdvance(B: nat, g: View, now: nat, k: nat)
    requires Low(B, g, now, k) && k < |g.wheels| && |g.wheels[k].slots| >= 1
    ensures Low(B, Advance(g, k), now, k)
  {}

  lemma LowWait(B: nat, g: View, now: nat, k: nat)
    requires Low(B, g, now, k) && k < |g.wheels|
    ensures Low(B, g.(pos := g.pos[k := g.pos[k] + 1]), now, k)
  {}

  lemma BooksLater(due: map<TaskId, nat>, fired: map<TaskId, nat>, log: seq<Firing>, nextId: TaskId, now: nat)
    requires Books(due, fired, log, nextId, now)
    ensures Books(due, fired, log, nextId, now + 1)
  {}

  /** The bottom wheel's own turn: the counters are those of the next tick and hand 0 moved one on. */
  lemma FirstTurn(B: nat, g: View, g': View, now: nat)
    requires Steady(B, g, now)
    requires |g'.wheels| == |g.wheels| && Remains(B, g'.wheels, now + 1, 0)
    requires g' == g.(wheels := g'.wheels, pos := g.pos[0 := g.pos[0] + 1])
    requires g'.wheels[0] == g.wheels[0].(remain := g'.wheels[0].remain, hand := (g.wheels[0].hand + 1) % B)
    requires forall i :: 1 <= i < |g.wheels| ==> g'.wheels[i] == g.wheels[i].(remain := g'.wheels[i].remain)
    ensures Sound(B, g', {}) && Low(B, g', now + 1, 0)
  {
    SoundNext(B, g, 0);
    var h := Advance(g, 0);
    assert Sound(B, h, {});
    forall k | 0 <= k < |g.wheels| ensures WheelShape(B, k, g'.wheels[k], g'.pos[k]) {
      assert WheelShape(B, k, h.wheels[k], h.pos[k]);
    }
    forall v, l ensures Holds(g'.wheels, l, v) <==> Holds(h.wheels, l, v) {}
  }

  lemma LowIsSteady(B: nat, g: View, now: nat)
    requires Sound(B, g, {}) && Low(B, g, now, |g.wheels|)
    ensures Steady(B, g, now)
  {}

  /** Between ticks every pending deadline lies strictly ahead. */
  lemma SteadyAhead(B: nat, g: View, now: nat)
    requires Steady(B, g, now)
    ensures forall v <- g.due :: g.due[v] > now
  {
    forall v | v in g.due ensures g.due[v] > now {
      var k := g.s[v].wheel;
      assert Holds(g.wheels, g.s[v], v);
      assert WheelShape(B, k, g.wheels[k], g.pos[k]);
      assert Clear(g.wheels[k]);
      AheadOfHand(B, g.pos[k], g.s[v], g.offset[v], g.due[v]);
    }
  }

  /** Firing only on the deadline, and leaving only later deadlines behind, is the flat timer's tick. */
  lemma SettledIsTick(d0: map<TaskId, nat>, f0: map<TaskId, nat>, d1: map<TaskId, nat>, f1: map<TaskId, nat>, now: nat)
    requires Settled(d0, f0, d1, f1, now) && (forall v <- d1 :: d1[v] > now)
    ensures d1 == Pending(d0, now) && f1 == f0 + Due(d0, now)
  {
    assert forall v <- d0 :: v in d1 <==> d0[v] != now;
    assert Due(d0, now) == map v | v in d0 && v !in d1 :: now;
  }

  lemma BooksPut(due: map<TaskId, nat>, fired: map<TaskId, nat>, log: seq<Firing>, nextId: TaskId, now: nat,
                 v: TaskId, deadline: nat)
    requires Books(due, fired, log, nextId, now) && v !in fired && v < nextId
    ensures Books(due[v := deadline], fired, log, nextId, now)
  {}

  lemma SteadyPutIn(B: nat, g: View, now: nat, l: Loc, v: TaskId, offset: int, deadline: nat)
    requires Steady(B, g, now) && v !in g.due && l.wheel < |g.wheels| && l.slot != g.wheels[l.wheel].hand
    requires B >= 1 && Spot(B, now - 1, l, offset, deadline)
    ensures l.slot < |g.wheels[l.wheel].slots| && Steady(B, PutIn(g, l, v, offset, deadline), now)
  {
    SoundPutIn(B, g, l, v, offset, deadline);
    LowPutIn(B, g, now, |g.wheels|, l, v, offset, deadline);
  }

  /** n slots ahead with that residue is where the deadline belongs, if the wheel is long enough for it. */
  lemma PutAtSpot(B: nat, k: nat, n: nat, now: nat, offset: int, deadline: nat)
    requires B >= 1 && 0 <= offset < Pow(B, k) && n >= 1
    requires deadline - now - (Pow(B, k) - Rem(B, k, now - 1)) == (n - 1) * Pow(B, k) + offset
    ensures n < B <==> deadline - now + Rem(B, k, now - 1) < Pow(B, k + 1)
    ensures deadline > now
    ensures var hand := Quot(B, k, now - 1) % B;
            n < B ==> (hand + n) % B != hand && Spot(B, now - 1, Loc(k, (hand + n) % B), offset, deadline)
  {
    var q, P := Quot(B, k, now - 1), Pow(B, k);
    Landing(B, k, now - 1, deadline, n, offset);
    RemBounds(B, k, now - 1);
    MulBeyond(n - B, P);
    assert (n - B) * P == n * P - B * P;
    MulBeyond(n, P);
    ModAdd(B, q, n);
    if n < B && (q + n) % B == q % B {
      ModClose(B, q + n, q);
    }
  }

  /** What inserting task v amounts to on the pending and fired tables. */
  ghost predicate Scheduled(d0: map<TaskId, nat>, f0: map<TaskId, nat>, d1: map<TaskId, nat>, f1: map<TaskId, nat>,
                            v: TaskId, now: nat, deadline: nat, fits: bool) {
    && d1 == (if fits && deadline != now then d0[v := deadline] else d0)
    && f1 == (if fits && deadline == now then f0[v := now] else f0)
  }

  /** Whatever `remain` says, subtracting it from the offset measures the deadline from the next turn. */
  lemma RemainLeft(B: nat, k: nat, now: nat, wheels: nat, offset: nat, deadline: nat)
    requires B >= 1 && 1 <= k < wheels && deadline == Deadline(wheels, now, offset)
    ensures offset - RemainAt(B, k - 1, now) == deadline - now - (Pow(B, k) - Rem(B, k, now - 1))
    ensures 0 <= RemainAt(B, k - 1, now) <= Pow(B, k)
  {
    RemBounds(B, k, now - 1);
    if now == 0 {
      QuotMinusOne(B, k);
    }
  }

  /** A negative offset is a negative number of slots; the correction brings it to 0 only from within one slot. */
  lemma NegativeSlots(cap: nat, d: int, remain: nat)
    requires cap >= 1 && d < 0 && remain <= cap
    ensures var n := d / cap;
            var rest := d - ((n - 1) * cap + remain - 1) - 1;
            && n <= -1
            && (n == -1 && rest >= cap <==> d + cap >= remain)
            && (n == -1 ==> rest - cap == d + cap - remain)
  {
    var n := d / cap;
    DivStep(d, cap);
    MulPred(n, cap);
    MulBeyond(n, cap);
    MulBeyond(n + 1, cap);
    assert (n + 1) * cap == n * cap + cap;
  }

  lemma HandStays(hand: nat, b: nat)
    requires hand < b
    ensures (hand + 0) % b == hand
  {}

  lemma TaskHeld(wheels: seq<Wheel>, l: Loc, v: TaskId)
    requires l.wheel < |wheels| && l.slot < |wheels[l.wheel].slots|
    ensures var ws := WithTask(wheels, l, v);
            |ws| == |wheels| && Holds(ws, l, v) && ws[l.wheel].hand == wheels[l.wheel].hand
  {}

  lemma NotClear(B: nat, g: View, now: nat, k: nat)
    requires k < |g.wheels| && !Clear(g.wheels[k])
    ensures !Steady(B, g, now)
  {}

  /** An offset of n slots or more, measured from the next turn, is n-1 or n slots and a residue below one slot. */
  lemma UpperResidue(cap: nat, offset: nat, remain: nat)
    requires cap >= 1 && offset / cap >= 1 && remain <= cap
    ensures var n := offset / cap;
            var rest := offset - ((n - 1) * cap + remain - 1) - 1;
            && 0 <= rest < 2 * cap
            && (rest < cap ==> offset - remain == (n - 1) * cap + rest)
            && (rest >= cap ==> offset - remain == (n + 1 - 1) * cap + (rest - cap))
  {
    DivStep(offset, cap);
    MulPred(offset / cap, cap);
  }

  /** An offset inside wheel k-1's current turn fits both wheels. */
  lemma FitsBelow(B: nat, k: nat, now: nat, offset: nat)
    requires B >= 1 && k >= 1 && RemainAt(B, k - 1, now) > offset
    ensures now >= 1
    ensures offset + Rem(B, k - 1, now - 1) < Pow(B, k)
    ensures offset + Rem(B, k, now - 1) < Pow(B, k + 1)
  {
    hide Rem, Quot, Pow;
    RemUnfold(B, k - 1, now - 1);
    MulPos(Quot(B, k - 1, now - 1) % B, Pow(B, k - 1));
    PowGrows(B, k);
  }

  lemma PowGrows(B: nat, k: nat)
    requires B >= 1
    ensures Pow(B, k) <= Pow(B, k + 1)
  {
    MulPred(B, Pow(B, k));
    MulPos(B - 1, Pow(B, k));
  }

  lemma SteadyOffset(B: nat, g: View, g': View, now: nat, v: TaskId)
    requires Steady(B, g, now) && v !in g.due && v in g'.offset
    requires g' == g.(offset := g.offset[v := g'.offset[v]])
    ensures Steady(B, g', now)
  {}

  lemma BottomSpot(B: nat, now: nat, n: nat)
    requires B >= 1
    ensures var hand := Quot(B, 0, now - 1) % B;
            n < B ==> && Spot(B, now - 1, Loc(0, (hand + n) % B), n, now + n)
                      && ((hand + n) % B == hand <==> n == 0)
  {
    ModAdd(B, now - 1, n);
    if n < B && (now - 1 + n) % B == (now - 1) % B {
      ModClose(B, now - 1 + n, now - 1);
    }
  }

  /** Putting a new task into the bottom wheel's empty current slot and taking it out again. */
  lemma ClearPutTakeOut(B: nat, g: View, now: nat, v: TaskId, offset: int)
    requires Steady(B, g, now) && v !in g.due && v in g.offset && g.offset[v] == offset
    ensures g.wheels[0].hand < |g.wheels[0].slots|
    ensures var h := PutIn(g, Loc(0, g.wheels[0].hand), v, offset, now);
            h.s[v] == Loc(0, g.wheels[0].hand) && Forget(TakeOut(h, v), v) == g
  {
    assert Clear(g.wheels[0]);
    var w, l := g.wheels[0], Loc(0, g.wheels[0].hand);
    var h := PutIn(g, l, v, offset, now);
    assert h.offset == g.offset;
    assert h.s - {v} == g.s && h.due - {v} == g.due;
    assert h.wheels[0].slots[l.slot] - {v} == w.slots[l.slot];
    assert h.wheels[0].slots[l.slot := w.slots[l.slot]] == w.slots;
    assert h.wheels[0 := w] == g.wheels;
  }

  lemma BooksFire(due: map<TaskId, nat>, fired: map<TaskId, nat>, log: seq<Firing>, nextId: TaskId, now: nat,
                  v: TaskId)
    requires Books(due, fired, log, nextId, now) && v in due
    ensures Books(due - {v}, fired[v := now], log + [Firing(v, now)], nextId, now)
  {}

  lemma BooksNew(due: map<TaskId, nat>, fired: map<TaskId, nat>, log: seq<Firing>, nextId: TaskId, now: nat)
    requires Books(due, fired, log, nextId, now)
    ensures nextId !in due && nextId !in fired && Books(due, fired, log, nextId + 1, now)
  {}

  /** At the top wheel, being long enough for the deadline is exactly fitting. */
  lemma FitsTop(wheels: nat, B: nat, now: nat, offset: nat)
    requires wheels >= 1 && B >= 1
    ensures Fits(wheels, B, now, offset)
            <==> Deadline(wheels, now, offset) - now + Rem(B, wheels - 1, now - 1) < Pow(B, wheels)
  {
    hide Rem, Quot, Pow;
    var P := Pow(B, wheels - 1);
    if now == 0 && wheels > 1 {
      RemMinusOne(B, wheels - 1);
      assert Deadline(wheels, now, offset) - now + (P - 1) == offset + P;
    } else {
      QuotRemAreDivMod(B, wheels - 1, now - 1);
      assert Deadline(wheels, now, offset) - now == offset;
    }
  }

  lemma RemMinusOne(B: nat, k: nat)
    requires B >= 1
    ensures Rem(B, k, -1) == Pow(B, k) - 1
  {
    QuotMinusOne(B, k);
  }

  /** A millisecond in nanoseconds, the unit of the source's durations. */
  const MS: nat := 1_000_000

  /** `Duration.Milliseconds`, which truncates towards zero. */
  function Milliseconds(d: int): int {
    if d >= 0 then d / MS else -(-d / MS)
  }

  /** The guard of `After`: the timeout is below interval * wheels^slots. */
  predicate Admits(wheels: nat, slots: nat, interval: nat, timeout: int) {
    timeout < interval * Pow(wheels, slots)
  }

  /** floor(timeout / interval + 1/2), in milliseconds. */
  function Offset(timeout: int, interval: nat): int
    requires interval >= MS
  {
    (2 * Milliseconds(timeout) + Milliseconds(interval)) / (2 * Milliseconds(interval))
  }

  /** Milliseconds are cut off towards zero, and the offset is the nearest number of ticks, a tie going up. */
  lemma OffsetNearest(timeout: int, interval: nat)
    requires interval >= MS
    ensures timeout >= 0 ==> 0 <= timeout - 1_000_000 * Milliseconds(timeout) < 1_000_000
    ensures timeout <= 0 ==> -1_000_000 < timeout - 1_000_000 * Milliseconds(timeout) <= 0
    ensures var t, i, d := Milliseconds(timeout), Milliseconds(interval), Offset(timeout, interval);
            -i < 2 * (d * i - t) <= i
  {
    var t, i := Milliseconds(timeout), Milliseconds(interval);
    DivStep(2 * t + i, 2 * i);
    var d := Offset(timeout, interval);
    assert d * (2 * i) == 2 * (d * i);
  }

  lemma OffsetMonotone(timeout: int, longer: int, interval: nat)
    requires interval >= MS && timeout <= longer
    ensures Offset(timeout, interval) <= Offset(longer, interval)
    ensures timeout >= 0 ==> Offset(timeout, interval) >= 0
  {
    var t, u, i := Milliseconds(timeout), Milliseconds(longer), Milliseconds(interval);
    assert t <= u;
    QuotMonotone(2 * i, 1, 2 * t + i, 2 * u + i);
    assert Quot(2 * i, 0, 2 * t + i) == 2 * t + i && Quot(2 * i, 0, 2 * u + i) == 2 * u + i;
  }

  class TimingWheel {
    const W: nat
    const B: nat

    var wheels: seq<Wheel>
    var offset: map<TaskId, int>
    var s: map<TaskId, Loc>
    var nextId: TaskId

    /** What an observer of the ticker sees: how many ticks went by, and which task ran on which tick. */
    var now: nat
    var log: seq<Firing>

    ghost var pos: seq<int>
    ghost var due: map<TaskId, nat>
    ghost var fired: map<TaskId, nat>

    ghost function G(): View
      reads this
    {
      View(wheels, pos, s, offset, due)
    }

    ghost predicate Valid()
      reads this
    {
      B >= 1 && 1 <= |wheels| == W && Steady(B, G(), now) && Books(due, fired, log, nextId, now)
    }

    /** The placement invariant, spelt out with plain division: hands are the base-B digits of the tick count
        minus one, counters complete it to a full turn, no current slot holds a task, and every pending task is
        in the slot its `s` names and in no other, with a residue below that wheel's slotCap. */
    lemma Placement(k: nat)
      requires Valid() && k < W
      ensures wheels[k].slotCap == Pow(B, k) && |wheels[k].slots| == B
      ensures wheels[k].hand == (now - 1) / Pow(B, k) % B && wheels[k].slots[wheels[k].hand] == {}
      ensures now >= 1 && k < W - 1 ==> wheels[k].remain == Pow(B, k + 1) - (now - 1) % Pow(B, k + 1)
      ensures forall v, l :: Holds(wheels, l, v) <==> v in due && v in s && s[v] == l
      ensures forall v :: v in due ==> v in s && v in offset && due[v] > now
      ensures forall v :: v in due && s[v].wheel == k && k > 0 ==> 0 <= offset[v] < Pow(B, k)
    {
      hide Pow, Quot, Rem;
      assert WheelShape(B, k, wheels[k], pos[k]) && Clear(wheels[k]);
      QuotRemAreDivMod(B, k, now - 1);
      QuotRemAreDivMod(B, k + 1, now - 1);
      SteadyAhead(B, G(), now);
      forall v | v in due && s[v].wheel == k && k > 0 ensures 0 <= offset[v] < Pow(B, k) {
        RemBounds(B, k, due[v] - 1);
      }
    }

    /** The counter that decides about a negative offset, from the clock: after the first tick the offset may be as much
        below zero as the wheel under the top has turned. */
    lemma NegativeFits(d: int)
      requires Valid() && W > 1
      ensures d + Pow(B, W - 1) >= wheels[W - 2].remain
              <==> if now == 0 then d + Pow(B, W - 1) >= 0 else d + (now - 1) % Pow(B, W - 1) >= 0
    {
      hide Pow, Quot, Rem;
      SteadyParts(B, G(), now, W - 2);
      QuotRemAreDivMod(B, W - 1, now - 1);
    }

    ghost function Abs(): Flat
      reads this
    {
      Flat(now, due, fired, nextId)
    }

    constructor (wheelCount: nat, slotCount: nat)
      requires wheelCount >= 1 && slotCount >= 1
      ensures W == wheelCount && B == slotCount
      ensures Valid() && Abs() == Start && log == []
      ensures forall k :: 0 <= k < W ==> wheels[k].hand == B - 1
                                         && wheels[k].remain == (if k == W - 1 then Pow(B, W) else 0)
    {
      W, B := wheelCount, slotCount;
      var ws: seq<Wheel> := [];
      var i := 0;
      while i < wheelCount
        invariant 0 <= i <= wheelCount && |ws| == i
        invariant forall k :: 0 <= k < i ==> ws[k] == NewWheel(slotCount, k, wheelCount)
      {
        ws := ws + [NewWheel(slotCount, i, wheelCount)];
        i := i + 1;
      }
      wheels := ws;
      offset, s, nextId, log := map[], map[], 0, [];
      now, pos, due, fired := 0, seq(wheelCount, _ => -1), map[], map[];
      new;
      forall k | 0 <= k < W ensures WheelShape(B, k, wheels[k], pos[k]) {
        QuotMinusOne(B, k);
      }
    }

    /** `slot.put`: walks `off` slots on from slot l, or drops the task when that is a full turn or more. */
    method SlotPut(l: Loc, off: nat, v: TaskId)
      requires l.wheel < |wheels| && l.slot < |wheels[l.wheel].slots|
      modifies this`wheels, this`s
      ensures var len := |old(wheels)[l.wheel].slots|;
              if off < len then
                var l' := Loc(l.wheel, (l.slot + off) % len);
                wheels == WithTask(old(wheels), l', v) && s == old(s)[v := l']
              else
                wheels == old(wheels) && s == old(s)
      decreases off
    {
      var w := wheels[l.wheel];
      var len := |w.slots|;
      if off == 0 {
        wheels := WithTask(wheels, l, v);
        s := s[v := l];
      } else if off < len {
        ModAdd(len, l.slot + 1, off - 1);
        SlotPut(Loc(l.wheel, (l.slot + 1) % len), off - 1, v);
      }
    }

    /** `Task.Cancel` */
    method Cancel(v: TaskId)
      requires Valid()
      modifies this`wheels, this`s, this`due
      ensures Valid()
      ensures Abs() == Step(W, B, old(Abs()), FlatTimer.Cancel(v))
      ensures log == old(log)
    {
      hide Steady;
      SteadyForget(B, G(), v, now);
      if v in s {
        wheels := WithoutTask(wheels, s[v], v);
        s := s - {v};
        due := due - {v};
        assert G() == Forget(TakeOut(old(G()), v), v);
      } else {
        assert due - {v} == due;
      }
    }

    /** `Task.call`, with the executor run at once: the task leaves its slot and its firing is logged. */
    method Call(v: TaskId)
      requires Sound(B, G(), {}) || Sound(B, G(), {v})
      requires v in due && due[v] == now && Books(due, fired, log, nextId, now)
      requires v in s && s[v].wheel < |wheels| && s[v].slot < |wheels[s[v].wheel].slots|
      modifies this`wheels, this`s, this`log, this`due, this`fired
      ensures Sound(B, G(), {}) && Books(due, fired, log, nextId, now)
      ensures G() == Forget(TakeOut(old(G()), v), v) && fired == old(fired)[v := now]
      ensures old(Sound(B, G(), {v})) ==> wheels == old(wheels)
    {
      hide Sound, Books;
      if Sound(B, G(), {v}) {
        SoundForget(B, G(), v);
      }
      if Sound(B, G(), {}) {
        SoundTakeOut(B, G(), v);
      }
      BooksFire(due, fired, log, nextId, now, v);
      ghost var g := Forget(TakeOut(G(), v), v);
      if v in s {
        wheels := WithoutTask(wheels, s[v], v);
        s := s - {v};
        log := log + [Firing(v, now)];
        due := due - {v};
        fired := fired[v := now];
        assert G() == g;
      }
    }

    /** `wheel.tick`: counts down `remain` of wheel k and of every wheel above it but the top. */
    method TickRemains(k: nat)
      requires B >= 1 && k < |wheels| == W && Remains(B, wheels, now, k)
      requires forall i :: 0 <= i < W ==> wheels[i].slotCap == Pow(B, i) && |wheels[i].slots| == B
      modifies this`wheels
      ensures |wheels| == W && Remains(B, wheels, now + 1, k)
      ensures forall i :: 0 <= i < W ==> wheels[i] == old(wheels)[i].(remain := wheels[i].remain)
      ensures forall i :: 0 <= i < k ==> wheels[i] == old(wheels)[i]
      decreases W - k
    {
      if k < W - 1 {
        var w := wheels[k];
        RemainStep(B, k, now);
        w := w.(remain := w.remain - 1);
        if w.remain <= 0 {
          w := w.(remain := w.slotCap * |w.slots|);
        }
        wheels := wheels[k := w];
        TickRemains(k + 1);
      }
    }

    /** `slot.callAndRm` on the bottom wheel's current slot. */
    method CallAndRm()
      requires W >= 1 && |wheels| == W && Sound(B, G(), {}) && Books(due, fired, log, nextId, now) && pos[0] == now - 1
      requires Low(B, G(), now, 0)
      modifies this`wheels, this`s, this`log, this`due, this`fired
      ensures |wheels| == W && Sound(B, G(), {}) && Books(due, fired, log, nextId, now) && Low(B, G(), now, 1)
      ensures Settled(old(due), old(fired), due, fired, now)
      ensures wheels[1..] == old(wheels)[1..] && wheels[0].hand == old(wheels)[0].hand
    {
      hide Sound, Settled, Low, Books;
      SoundShape(B, G(), 0);
      SettledRefl(due, fired, now);
      var todo := wheels[0].slots[wheels[0].hand];
      while todo != {}
        invariant |wheels| == W && Sound(B, G(), {}) && Books(due, fired, log, nextId, now) && Low(B, G(), now, 0)
        invariant Settled(old(due), old(fired), due, fired, now)
        invariant wheels[1..] == old(wheels)[1..] && wheels[0].hand == old(wheels)[0].hand
        invariant |wheels[0].slots| == B && wheels[0].slots[wheels[0].hand] == todo
      {
        var v :| v in todo;
        DueInBottomSlot(B, G(), v);
        SettledCall(old(due), old(fired), due, fired, v, now);
        LowRelease(B, G(), now, 0, v);
        Call(v);
        todo := todo - {v};
      }
      LowExtend(B, G(), now, 0);
    }

    /** `wheel.put`: hands a cascading task to wheel k or below, firing it when nothing is left to wait for. */
    method Put(k: nat, v: TaskId)
      requires k < |wheels| == W && Sound(B, G(), {v}) && Books(due, fired, log, nextId, now) && Low(B, G(), now, k + 1)
      requires now >= 1 && Rem(B, k + 1, now - 1) == 0
      requires v in due && v in offset && offset[v] == due[v] - now && 0 <= offset[v] < Pow(B, k + 1)
      modifies this`wheels, this`s, this`offset, this`log, this`due, this`fired
      ensures |wheels| == W && Sound(B, G(), {}) && Books(due, fired, log, nextId, now) && Low(B, G(), now, k + 1)
      ensures Settled(old(due), old(fired), due, fired, now)
      ensures wheels[k + 1..] == old(wheels)[k + 1..]
      decreases k
    {
      hide Sound, Settled, Low, Books, Rem, Quot;
      ghost var g := G();
      LowShape(B, g, now, k, v);
      RemZeroUnfold(B, k, now - 1);
      SettledRefl(due, fired, now);
      var n := offset[v] / wheels[k].slotCap;
      DivStep(offset[v], wheels[k].slotCap);
      if n == 0 {
        if k == 0 {
          SettledCall(due, fired, due, fired, v, now);
          SoundForget(B, g, v);
          LowRelease(B, g, now, 1, v);
          Call(v);
        } else {
          LowLess(B, g, now, k);
          Put(k - 1, v);
          LowBack(B, g, G(), now, k);
        }
      } else {
        PutDown(k, n, v);
      }
    }

    /** `wheel.put` when the task stays at wheel k, n slots ahead. */
    method PutDown(k: nat, n: nat, v: TaskId)
      requires k < |wheels| == W && Sound(B, G(), {v}) && Low(B, G(), now, k + 1)
      requires now >= 1 && Rem(B, k + 1, now - 1) == 0
      requires v in due && v in offset && offset[v] == due[v] - now && 0 <= offset[v] < Pow(B, k + 1)
      requires wheels[k].slotCap == Pow(B, k) >= 1 && n == offset[v] / wheels[k].slotCap >= 1
      modifies this`wheels, this`s, this`offset
      ensures |wheels| == W && Sound(B, G(), {}) && Low(B, G(), now, k + 1)
      ensures wheels[k + 1..] == old(wheels)[k + 1..]
    {
      hide Sound, Low, Rem, Quot, Pow, Clear;
      ghost var g := G();
      LowShape(B, g, now, k, v);
      RemZeroUnfold(B, k, now - 1);
      var w := wheels[k];
      DivStep(offset[v], w.slotCap);
      MulBeyond(n, w.slotCap);
      CascadeSpot(B, k, now, offset[v], due[v]);
      if k > 0 {
        MulPred(n, w.slotCap);
        offset := offset[v := offset[v] - ((n - 1) * w.slotCap + wheels[k - 1].remain - 1) - 1];
      }
      SlotPut(Loc(k, w.hand), n, v);
      PutAhead(B, g, G(), now, k + 1, Loc(k, (w.hand + n) % B), v);
    }

    /** The drain loop of `wheel.move`: every task of wheel k's current slot moves down a wheel or fires. */
    method Drain(k: nat)
      requires 1 <= k < |wheels| == W && Sound(B, G(), {}) && Books(due, fired, log, nextId, now)
      requires Low(B, G(), now, k)
      requires Clear(wheels[k]) || (now >= 1 && pos[k] == now - 1 && Rem(B, k, now - 1) == 0)
      modifies this`wheels, this`s, this`offset, this`log, this`due, this`fired
      ensures |wheels| == W && Sound(B, G(), {}) && Books(due, fired, log, nextId, now)
      ensures Low(B, G(), now, k) && Clear(wheels[k])
      ensures Settled(old(due), old(fired), due, fired, now)
      ensures wheels[k + 1..] == old(wheels)[k + 1..]
      ensures old(Clear(wheels[k])) ==> G() == old(G()) && fired == old(fired)
    {
      hide Sound, Settled, Low, Books;
      SoundShape(B, G(), k);
      SettledRefl(due, fired, now);
      var hand := wheels[k].hand;
      var todo := wheels[k].slots[hand];
      while todo != {}
        invariant |wheels| == W && Sound(B, G(), {}) && Books(due, fired, log, nextId, now)
        invariant Low(B, G(), now, k)
        invariant Settled(old(due), old(fired), due, fired, now)
        invariant wheels[k + 1..] == old(wheels)[k + 1..]
        invariant |wheels[k].slots| == B && wheels[k].hand == hand && wheels[k].slots[hand] == todo
        invariant old(Clear(wheels[k])) ==> todo == {} && G() == old(G()) && fired == old(fired)
      {
        var v :| v in todo;
        ghost var g, f := G(), fired;
        DueInUpperSlot(B, g, k, now, v);
        SoundTakeOut(B, g, v);
        LowRelease(B, g, now, k, v);
        var w := wheels[k];
        wheels := wheels[k := w.(slots := w.slots[hand := w.slots[hand] - {v}])];
        assert G() == TakeOut(g, v);
        Put(k - 1, v);
        assert wheels[k] == wheels[k..][0] == TakeOut(g, v).wheels[k..][0];
        assert wheels[k + 1..] == wheels[k..][1..];
        SettledTrans(old(due), old(fired), g.due, f, due, fired, now);
        todo := todo - {v};
      }
    }

    /** The part of `wheel.move` after a lower wheel came round: wheel k's hand moves on and its slot drains. */
    method Turn(k: nat)
      requires 1 <= k < |wheels| == W == |pos| && Sound(B, G(), {}) && Books(due, fired, log, nextId, now)
      requires Low(B, G(), now, k) && now >= 1 && Rem(B, k, now - 1) == 0
      requires pos[k] == now - 2 && Clear(wheels[k])
      modifies this`wheels, this`s, this`offset, this`log, this`pos, this`due, this`fired
      ensures |wheels| == W == |pos| && Sound(B, G(), {}) && Books(due, fired, log, nextId, now)
      ensures Low(B, G(), now, k + 1)
      ensures Settled(old(due), old(fired), due, fired, now)
      ensures wheels[k + 1..] == old(wheels)[k + 1..] && pos == old(pos)[k := now - 1]
    {
      hide Sound, Settled, Low, Books;
      ghost var g := G();
      SoundShape(B, g, k);
      SoundNext(B, g, k);
      LowAdvance(B, g, now, k);
      var w := wheels[k];
      wheels := wheels[k := w.(hand := (w.hand + 1) % |w.slots|)];
      pos := pos[k := pos[k] + 1];
      assert G() == Advance(g, k);
      Drain(k);
      LowExtend(B, G(), now, k);
    }

    /** The part of `wheel.move` that is the bottom wheel's: count down, move the hand, run the due tasks. */
    method MoveBottom()
      requires 1 <= |wheels| == W && Steady(B, G(), now) && Books(due, fired, log, nextId, now)
      modifies this`wheels, this`s, this`log, this`now, this`pos, this`due, this`fired
      ensures now == old(now) + 1
      ensures |wheels| == W == |pos| && Sound(B, G(), {}) && Books(due, fired, log, nextId, now)
      ensures Low(B, G(), now, 1)
      ensures Settled(old(due), old(fired), due, fired, now)
      ensures forall i :: 1 <= i < W ==> pos[i] == now - 2 && Clear(wheels[i])
    {
      hide Sound, Settled, Low, Books, Steady, Clear;
      TurnBottom();
      ghost var ws := wheels;
      CallAndRm();
      assert forall i :: 1 <= i < W ==> wheels[i] == wheels[1..][i - 1] == ws[1..][i - 1] == ws[i];
    }

    method TurnBottom()
      requires 1 <= |wheels| == W && Steady(B, G(), now) && Books(due, fired, log, nextId, now)
      modifies this`wheels, this`now, this`pos
      ensures now == old(now) + 1
      ensures |wheels| == W == |pos| && Sound(B, G(), {}) && Books(due, fired, log, nextId, now)
      ensures Low(B, G(), now, 0) && pos[0] == now - 1
      ensures forall i :: 1 <= i < W ==> pos[i] == now - 2 && Clear(wheels[i])
    {
      hide Sound, Low, Books, Steady;
      ghost var g := G();
      SteadyParts(B, g, now, 0);
      SoundShape(B, g, 0);
      TickRemains(0);
      now := now + 1;
      var w := wheels[0];
      wheels := wheels[0 := w.(hand := (w.hand + 1) % |w.slots|)];
      pos := pos[0 := pos[0] + 1];
      FirstTurn(B, g, G(), now - 1);
      BooksLater(due, fired, log, nextId, now - 1);
    }

    /** `wheel.move`: advances the wheels 0..k by one tick and tells whether wheel k's hand came round to 0. */
    method Move(k: nat) returns (wrapped: bool)
      requires k < |wheels| == W && Steady(B, G(), now) && Books(due, fired, log, nextId, now)
      modifies this`wheels, this`s, this`offset, this`log, this`now, this`pos, this`due, this`fired
      ensures now == old(now) + 1 && wrapped == (Rem(B, k + 1, now - 1) == 0)
      ensures |wheels| == W == |pos| && Sound(B, G(), {}) && Books(due, fired, log, nextId, now)
      ensures Low(B, G(), now, k + 1)
      ensures Settled(old(due), old(fired), due, fired, now)
      ensures forall i :: k < i < W ==> pos[i] == now - 2 && Clear(wheels[i])
      decreases k
    {
      hide Sound, Settled, Low, Books, Steady, Clear, Remains, Rem, Quot, Pow;
      SteadyParts(B, G(), now, k);
      if k > 0 {
        Drain(k);
        var turn := Move(k - 1);
        ghost var g, f := G(), fired;
        RemZeroUnfold(B, k, now - 1);
        if turn {
          Turn(k);
          assert forall i :: k < i < W ==> wheels[i] == wheels[k + 1..][i - k - 1] == g.wheels[k + 1..][i - k - 1];
          SettledTrans(old(due), old(fired), g.due, f, due, fired, now);
          LowHand(B, G(), now, k);
          wrapped := wheels[k].hand == 0;
        } else {
          SoundNext(B, g, k);
          LowWait(B, g, now, k);
          pos := pos[k := pos[k] + 1];
          LowExtend(B, G(), now, k);
          wrapped := false;
        }
      } else {
        MoveBottom();
        LowHand(B, G(), now, 0);
        RemZero(B, now - 1);
        wrapped := wheels[0].hand == 0;
      }
    }

    /** `TimingWheel.onTicker`: exactly the tasks whose deadline is the new tick fire; the others keep theirs. */
    method OnTicker()
      requires Valid()
      modifies this`wheels, this`s, this`offset, this`log, this`now, this`pos, this`due, this`fired
      ensures Valid()
      ensures Abs() == Step(W, B, old(Abs()), Tick)
    {
      hide Sound, Settled, Low, Books, Steady;
      SteadyAhead(B, G(), now);
      var _ := Move(W - 1);
      LowIsSteady(B, G(), now);
      SteadyAhead(B, G(), now);
      SettledIsTick(old(due), old(fired), due, fired, now);
    }

    /** The last step of `put2`: the task, with residue `offset[v]`, goes n slots ahead of wheel k's hand. */
    method PutAt(k: nat, n: nat, v: TaskId, ghost deadline: nat)
      requires 1 <= k < |wheels| == W && Steady(B, G(), now) && Books(due, fired, log, nextId, now)
      requires v !in due && v !in fired && v < nextId
      requires v in offset && 0 <= offset[v] < Pow(B, k) && n >= 1
      requires deadline - now - (Pow(B, k) - Rem(B, k, now - 1)) == (n - 1) * Pow(B, k) + offset[v]
      modifies this`wheels, this`s, this`due
      ensures |wheels| == W && Steady(B, G(), now) && Books(due, fired, log, nextId, now)
      ensures Scheduled(old(due), old(fired), due, fired, v, now, deadline,
                        deadline - now + Rem(B, k, now - 1) < Pow(B, k + 1))
    {
      hide Sound, Low, Books, Steady, Rem, Quot, Pow;
      ghost var g := G();
      SteadyParts(B, g, now, k);
      SoundShape(B, g, k);
      PutAtSpot(B, k, n, now, offset[v], deadline);
      var hand := wheels[k].hand;
      SlotPut(Loc(k, hand), n, v);
      if n < B {
        ghost var l := Loc(k, (hand + n) % B);
        BooksPut(due, fired, log, nextId, now, v, deadline);
        due := due[v := deadline];
        SteadyPutIn(B, g, now, l, v, offset[v], deadline);
        assert offset[v := offset[v]] == offset;
        assert G() == PutIn(g, l, v, offset[v], deadline);
      }
    }

    /** `put2` at the bottom wheel, where an offset is a number of slots; offset 0 fires at once. */
    method PutBottom(v: TaskId, ghost deadline: nat)
      requires 1 <= |wheels| == W && Steady(B, G(), now) && Books(due, fired, log, nextId, now)
      requires v !in due && v !in fired && v < nextId
      requires v in offset && offset[v] >= 0 && deadline == now + offset[v]
      modifies this`wheels, this`s, this`log, this`due, this`fired
      ensures |wheels| == W && Steady(B, G(), now) && Books(due, fired, log, nextId, now)
      ensures Scheduled(old(due), old(fired), due, fired, v, now, deadline, deadline - now < B)
    {
      hide Sound, Low, Books, Steady, Quot, Spot, Clear;
      if offset[v] == 0 {
        PutNow(v);
        SteadyParts(B, G(), now, 0);
      } else {
        ghost var g := G();
        SteadyParts(B, g, now, 0);
        SoundShape(B, g, 0);
        var n, hand := offset[v], wheels[0].hand;
        BottomSpot(B, now, n);
        SlotPut(Loc(0, hand), n, v);
        if n < B {
          ghost var l := Loc(0, (hand + n) % B);
          BooksPut(due, fired, log, nextId, now, v, deadline);
          SteadyPutIn(B, g, now, l, v, n, deadline);
          due := due[v := deadline];
          assert offset[v := n] == offset;
        }
      }
    }

    /** The task is put into the current slot and called at once. */
    method PutNow(v: TaskId)
      requires 1 <= |wheels| == W && Steady(B, G(), now) && Books(due, fired, log, nextId, now)
      requires v !in due && v !in fired && v < nextId && v in offset && offset[v] == 0
      modifies this`wheels, this`s, this`log, this`due, this`fired
      ensures G() == old(G()) && fired == old(fired)[v := now] && Books(due, fired, log, nextId, now)
    {
      hide Sound, Low, Books, Steady, Quot, Spot, Clear;
      ghost var g := G();
      SteadyParts(B, g, now, 0);
      SoundShape(B, g, 0);
      var hand := wheels[0].hand;
      BottomSpot(B, now, 0);
      SoundPutIn(B, g, Loc(0, hand), v, 0, now);
      ClearPutTakeOut(B, g, now, v, 0);
      BooksPut(due, fired, log, nextId, now, v, now);
      SlotPut(Loc(0, hand), 0, v);
      due := due[v := now];
      assert offset[v := 0] == offset;
      assert G() == PutIn(g, Loc(0, hand), v, 0, now);
      Call(v);
    }

    /** `put2` at an upper wheel for an offset of one of its slots or more. */
    method PutFar(k: nat, v: TaskId, ghost deadline: nat)
      requires 1 <= k < |wheels| == W && Steady(B, G(), now) && Books(due, fired, log, nextId, now)
      requires v !in due && v !in fired && v < nextId
      requires v in offset && wheels[k].slotCap == Pow(B, k) >= 1 && offset[v] / wheels[k].slotCap >= 1
      requires 0 <= wheels[k - 1].remain <= Pow(B, k)
      requires offset[v] - wheels[k - 1].remain == deadline - now - (Pow(B, k) - Rem(B, k, now - 1))
      modifies this`wheels, this`s, this`offset, this`due
      ensures |wheels| == W && Steady(B, G(), now) && Books(due, fired, log, nextId, now)
      ensures Scheduled(old(due), old(fired), due, fired, v, now, deadline,
                        deadline - now + Rem(B, k, now - 1) < Pow(B, k + 1))
    {
      hide Books, Steady, Rem, Quot, Pow, Scheduled;
      ghost var g := G();
      var cap, remain := wheels[k].slotCap, wheels[k - 1].remain;
      var n := offset[v] / cap;
      DivStep(offset[v], cap);
      UpperResidue(cap, offset[v], remain);
      var rest := offset[v] - ((n - 1) * cap + remain - 1) - 1;
      if rest >= cap {
        n := n + 1;
        rest := rest - cap;
      }
      offset := offset[v := rest];
      SteadyOffset(B, g, G(), now, v);
      PutAt(k, n, v, deadline);
    }

    /** `wheel.put2`: inserts a new task at wheel k or below, or drops it when wheel k is too short for it. */
    method Put2(k: nat, v: TaskId, ghost deadline: nat)
      requires k < |wheels| == W && Steady(B, G(), now) && Books(due, fired, log, nextId, now)
      requires v !in due && v !in fired && v < nextId
      requires v in offset && offset[v] >= 0 && deadline == Deadline(W, now, offset[v])
      requires k == W - 1 || now >= 1
      modifies this`wheels, this`s, this`offset, this`log, this`due, this`fired
      ensures |wheels| == W && Steady(B, G(), now) && Books(due, fired, log, nextId, now)
      ensures Scheduled(old(due), old(fired), due, fired, v, now, deadline,
                        deadline - now + Rem(B, k, now - 1) < Pow(B, k + 1))
      decreases k
    {
      hide Sound, Low, Books, Steady, Rem, Quot, Pow, Scheduled, Clear;
      ghost var g := G();
      SteadyParts(B, g, now, k);
      var cap := wheels[k].slotCap;
      var n := offset[v] / cap;
      DivStep(offset[v], cap);
      if k == 0 {
        RemZero(B, now - 1);
        PowSmall(B);
        PutBottom(v, deadline);
      } else {
        var remain := wheels[k - 1].remain;
        RemainLeft(B, k, now, W, offset[v], deadline);
        if n == 0 {
          if remain > offset[v] {
            FitsBelow(B, k, now, offset[v]);
            Put2(k - 1, v, deadline);
          } else {
            offset := offset[v := offset[v] - remain];
            SteadyOffset(B, g, G(), now, v);
            PutAt(k, 1, v, deadline);
          }
        } else {
          PutFar(k, v, deadline);
        }
      }
    }

    /** What `After` does once the offset in ticks is known: a new task, due `d` ticks on, if the wheels can hold it. */
    method Insert(d: nat) returns (v: TaskId)
      requires Valid()
      modifies this`wheels, this`s, this`offset, this`nextId, this`log, this`due, this`fired
      ensures Valid()
      ensures Abs() == Step(W, B, old(Abs()), FlatTimer.Insert(d)) && v == old(nextId)
    {
      hide Sound, Books, Steady, Rem, Pow, Quot;
      v := nextId;
      ghost var g := G();
      BooksNew(due, fired, log, nextId, now);
      FitsTop(W, B, now, d);
      nextId := nextId + 1;
      offset := offset[v := d];
      SteadyOffset(B, g, G(), now, v);
      Put2(W - 1, v, Deadline(W, now, d));
    }

    /** `put2` on the top wheel for a task whose offset is negative: the number of slots is negative too, and `slot.put`
        panics (None), unless the correction by one slot brings it to 0. Then the task goes into the top wheel's
        current slot, which is empty between calls otherwise. */
    method PutNegative(d: int) returns (r: Option<TaskId>)
      requires Valid() && d < 0
      modifies this`wheels, this`s, this`offset, this`nextId
      ensures r.Some? <==> W > 1 && d + Pow(B, W - 1) >= old(wheels)[W - 2].remain
      ensures r.None? ==> Valid() && Abs() == old(Abs()) && log == old(log) && wheels == old(wheels)
      ensures r.Some? ==>
                var top := Loc(W - 1, old(wheels)[W - 1].hand);
                && r.value == old(nextId) && !Valid()
                && top.slot < |old(wheels)[W - 1].slots| && wheels == WithTask(old(wheels), top, r.value)
                && s == old(s)[r.value := top]
                && offset == old(offset)[r.value := d + Pow(B, W - 1) - old(wheels)[W - 2].remain]
    {
      hide Pow, Quot, Steady, Books, WithTask;
      SteadyParts(B, G(), now, W - 1);
      var w := wheels[W - 1];
      var n, rest := d / w.slotCap, d;
      DivStep(d, w.slotCap);
      MulBeyond(n, w.slotCap);
      if W > 1 {
        RemainLeft(B, W - 1, now, W, 0, Deadline(W, now, 0));
        NegativeSlots(w.slotCap, d, wheels[W - 2].remain);
        rest := d - ((n - 1) * w.slotCap + wheels[W - 2].remain - 1) - 1;
        if rest >= w.slotCap {
          n := n + 1;
          rest := rest - w.slotCap;
        }
      }
      if n < 0 {
        return None;
      }
      r := Some(nextId);
      nextId := nextId + 1;
      offset := offset[r.value := rest];
      assert n == 0;
      HandStays(w.hand, B);
      SlotPut(Loc(W - 1, w.hand), n, r.value);
      TaskHeld(old(wheels), Loc(W - 1, w.hand), r.value);
      NotClear(B, G(), now, W - 1);
    }

    /** `TimingWheel.After`: None is a panic, on a timeout at or above `maxTimeout` or on most negative ones; the others
        are filed where no task belongs. */
    method After(timeout: int, interval: nat) returns (r: Option<TaskId>)
      requires Valid() && interval >= MS
      modifies this`wheels, this`s, this`offset, this`nextId, this`log, this`due, this`fired
      ensures var d := Offset(timeout, interval);
              && (r.Some? <==> Admits(W, B, interval, timeout)
                               && (d >= 0 || (W > 1 && d + Pow(B, W - 1) >= old(wheels)[W - 2].remain)))
              && (Valid() <==> r.None? || d >= 0)
              && (r.None? ==> Abs() == old(Abs()) && log == old(log))
              && (r.Some? ==> r.value == old(nextId))
              && (r.Some? && d >= 0 ==> Abs() == Step(W, B, old(Abs()), FlatTimer.Insert(d)))
              && (r.Some? && d < 0 ==>
                    |wheels| == W && Holds(wheels, Loc(W - 1, wheels[W - 1].hand), r.value))
    {
      if !Admits(W, B, interval, timeout) {
        return None;
      }
      var d := Offset(timeout, interval);
      if d < 0 {
        ghost var ws := wheels;
        r := PutNegative(d);
        if r.Some? {
          TaskHeld(ws, Loc(W - 1, ws[W - 1].hand), r.value);
        }
      } else {
        var v := Insert(d);
        r := Some(v);
      }
    }
  }

  /** Runs a whole history on a fresh wheel: the log of firings is the flat timer's, each task at most once. */
  method RunAll(wheels: nat, slots: nat, ops: seq<Op>) returns (log: seq<Firing>)
    requires wheels >= 1 && slots >= 1
    ensures LogOf(log, Run(wheels, slots, Start, ops).fired)
  {
    var t := new TimingWheel(wheels, slots);
    for i := 0 to |ops|
      invariant t.Valid() && t.W == wheels && t.B == slots
      invariant t.Abs() == Run(wheels, slots, Start, ops[..i])
    {
      RunSnoc(wheels, slots, Start, ops[..i], ops[i]);
      assert ops[..i] + [ops[i]] == ops[..i + 1];
      match ops[i]
      case Insert(d) => var _ := t.Insert(d);
      case Cancel(v) => t.Cancel(v);
      case Tick => t.OnTicker();
    }
    assert ops[..|ops|] == ops;
    log := t.log;
  }

  function TicksOf(log: seq<Firing>, v: TaskId): seq<nat> {
    if log == [] then []
    else TicksOf(log[..|log| - 1], v) + if log[|log| - 1].task == v then [log[|log| - 1].tick] else []
  }

  lemma {:induction false} LogOfTicks(log: seq<Firing>, fired: map<TaskId, nat>, v: TaskId)
    requires LogOf(log, fired)
    ensures TicksOf(log, v) == if v in fired then [fired[v]] else []
  {
    if log != [] {
      var init, last := log[..|log| - 1], log[|log| - 1];
      assert log == init + [last];
      LogOfTicks(init, fired - {last.task}, v);
    }
  }

  /** The whole life of one task on the wheels: it fires exactly once, on its deadline, if its offset fits,
      the deadline comes and it was not cancelled before; otherwise it never fires. */
  method Observe(wheels: nat, slots: nat, pre: seq<Op>, offset: nat, post: seq<Op>) returns (ticks: seq<nat>)
    requires wheels >= 1 && slots >= 1
    ensures var at := Run(wheels, slots, Start, pre);
            var deadline := Deadline(wheels, at.now, offset);
            ticks == if && Fits(wheels, slots, at.now, offset)
                        && deadline <= at.now + Ticks(post)
                        && !CancelledBefore(post, at.nextId, at.now, deadline)
                     then [deadline] else []
  {
    var history := pre + [Op.Insert(offset)];
    var log := RunAll(wheels, slots, history + post);
    var v := Run(wheels, slots, Start, pre).nextId;
    ExactFiring(wheels, slots, pre, offset, post);
    LogOfTicks(log, Run(wheels, slots, Start, history + post).fired, v);
    ticks := TicksOf(log, v);
  }

  /** What the wheels hold at any time, a top wheel about to turn included. */
  function Room(wheels: nat, slots: nat): int
    requires wheels >= 1
  {
    if wheels == 1 then slots else Pow(slots, wheels) - Pow(slots, wheels - 1)
  }

  /** `After`'s guard looks at wheels^slots, not at what the wheels hold: the timeouts it admits all fit at every
      time if and only if the longest of them is below the room. */
  lemma GuardExact(wheels: nat, slots: nat, interval: nat)
    requires wheels >= 1 && slots >= 1 && interval >= MS
    ensures (forall timeout: int, now: nat
               :: Admits(wheels, slots, interval, timeout) && Offset(timeout, interval) >= 0
                  ==> Fits(wheels, slots, now, Offset(timeout, interval)))
            <==> Offset(interval * Pow(wheels, slots) - 1, interval) < Room(wheels, slots)
  {
    hide Offset;
    var worst := interval * Pow(wheels, slots) - 1;
    MulPos(interval, Pow(wheels, slots));
    OffsetMonotone(worst, worst, interval);
    PowSmall(slots);
    if Offset(worst, interval) < Room(wheels, slots) {
      forall timeout: int, now: nat
        | Admits(wheels, slots, interval, timeout) && Offset(timeout, interval) >= 0
        ensures Fits(wheels, slots, now, Offset(timeout, interval))
      {
        OffsetMonotone(timeout, worst, interval);
        DivStep(now - 1, Pow(slots, wheels - 1));
      }
    } else {
      assert Admits(wheels, slots, interval, worst) && !Fits(wheels, slots, 0, Offset(worst, interval));
    }
  }

  /** For an interval of whole milliseconds the longest admitted timeout rounds up to wheels^slots ticks; only an
      interval of one millisecond leaves nothing to round up. */
  lemma LongestAdmitted(interval: nat, max: nat)
    requires interval >= 1 && max >= 1
    ensures Offset(interval * MS * max - 1, interval * MS) == if interval == 1 then max - 1 else max
  {
    var t := interval * max;
    MulPos(interval, max);
    assert interval * MS * max - 1 == (t - 1) * MS + (MS - 1);
    assert Milliseconds(interval * MS * max - 1) == t - 1 && Milliseconds(interval * MS) == interval;
    assert 2 * (t - 1) + interval == max * (2 * interval) + (interval - 2);
    RoundsUp(interval, max);
  }

  lemma RoundsUp(interval: nat, max: nat)
    requires interval >= 1
    ensures (max * (2 * interval) + (interval - 2)) / (2 * interval) == if interval == 1 then max - 1 else max
  {
    var x, r := max * (2 * interval) + (interval - 2), if interval == 1 then max - 1 else max;
    DivStep(x, 2 * interval);
    MulPred(max, 2 * interval);
    var d := x / (2 * interval) - r;
    assert d * (2 * interval) == x / (2 * interval) * (2 * interval) - r * (2 * interval);
    FactorZero(d, 2 * interval);
  }

  /** The guard of the gateway's own wheel (3 wheels of 20 slots, pkg/gate/client_impl.go:15) admits an offset
      of 8000 ticks, which is dropped whenever it is inserted. */
  lemma GuardAdmitsDropped(now: nat)
    ensures Admits(3, 20, 500 * MS, 8000 * 500 * MS) && Offset(8000 * 500 * MS, 500 * MS) == 8000
    ensures !Fits(3, 20, now, 8000)
  {
    assert Pow(20, 1) == 20 && Pow(20, 2) == 400 && Pow(20, 3) == 8000;
    assert Pow(3, 4) == 81 && Pow(3, 8) == 6561 && Pow(3, 12) == 531441;
    assert Pow(3, 16) == 43046721 && Pow(3, 20) == 3486784401;
  }
}
