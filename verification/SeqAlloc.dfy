/** Sequence numbers handed out in segments: any number of channel instances share one store. */
module SeqAlloc {
  import opened Options

  /** The `seq` and `seqRemain` fields of a channel. */
  datatype Alloc = Alloc(seqNo: int, remain: int)

  /** The store's answer to a request for the next segment. */
  datatype Grant = Granted(start: int, length: int) | Failed

  /** `loadSeq` */
  function Load(a: Alloc, g: Grant): Alloc {
    if g.Granted? then Alloc(g.start, g.length) else a
  }

  predicate NeedsSegment(a: Alloc) {
    a.remain - 1 <= 0
  }

  /** `nextSeq`, given the answer the store would make; None is its error. */
  function Next(a: Alloc, g: Grant): (Alloc, Option<int>) {
    var a := a.(remain := a.remain - 1);
    if a.remain > 0 then (a.(seqNo := a.seqNo + 1), Some(a.seqNo + 1))
    else if g.Failed? then (a, None)
    else
      var a := Load(a, g);
      var a := a.(seqNo := a.seqNo - 1);
      (a.(seqNo := a.seqNo + 1), Some(a.seqNo + 1))
  }

  // Many instances, one store.

  datatype Event = Open(i: nat, grant: Grant) | Take(i: nat, grant: Grant)

  datatype Issue = Issue(i: nat, n: int)

  datatype Segment = Segment(i: nat, start: int, length: int)

  /** The instances, the numbers they returned in order, the segments granted, and where the store stands. */
  datatype System = System(chans: map<nat, Alloc>, issued: seq<Issue>, segments: seq<Segment>, frontier: int)

  predicate Consumes(s: System, e: Event) {
    e.Open? || (e.i in s.chans && NeedsSegment(s.chans[e.i]))
  }

  /** The store's promise: segments are disjoint, increasing and not empty. */
  predicate Legal(s: System, e: Event) {
    && (e.Open? <==> e.i !in s.chans)
    && (Consumes(s, e) && e.grant.Granted? ==> e.grant.start >= s.frontier && e.grant.length >= 1)
  }

  function Step(s: System, e: Event): System
    requires Legal(s, e)
  {
    var s' := if Consumes(s, e) && e.grant.Granted?
              then s.(segments := s.segments + [Segment(e.i, e.grant.start, e.grant.length)],
                      frontier := e.grant.start + e.grant.length)
              else s;
    if e.Open? then
      if e.grant.Failed? then s' else s'.(chans := s.chans[e.i := Alloc(e.grant.start, e.grant.length)])
    else
      var (a, r) := Next(s.chans[e.i], e.grant);
      var s'' := s'.(chans := s.chans[e.i := a]);
      if r.None? then s'' else s''.(issued := s.issued + [Issue(e.i, r.value)])
  }

  /** The system after a run; None if the store broke its promise somewhere. */
  function Run(start: int, events: seq<Event>): Option<System> {
    if events == [] then Some(System(map[], [], [], start))
    else
      var p, e := Run(start, events[..|events| - 1]), events[|events| - 1];
      if p.None? || !Legal(p.value, e) then None else Some(Step(p.value, e))
  }

  /** The numbers an instance may still return without asking the store. */
  predicate Reserved(a: Alloc, n: int) {
    a.seqNo < n < a.seqNo + a.remain
  }

  predicate Inside(g: Segment, n: int) {
    g.start <= n < g.start + g.length
  }

  ghost predicate Owned(s: System, i: nat, n: int) {
    exists k :: 0 <= k < |s.segments| && s.segments[k].i == i && Inside(s.segments[k], n)
  }

  ghost predicate ChansOk(s: System) {
    && (forall i <- s.chans :: s.chans[i].seqNo < s.frontier)
    && (forall i, n :: i in s.chans && Reserved(s.chans[i], n) ==> n < s.frontier && Owned(s, i, n))
    && (forall i, j, n :: i in s.chans && j in s.chans && i != j && Reserved(s.chans[i], n) ==>
          !Reserved(s.chans[j], n))
  }

  ghost predicate IssuedOk(s: System) {
    && (forall k :: 0 <= k < |s.issued| ==>
          var e := s.issued[k];
          && e.i in s.chans && e.n <= s.chans[e.i].seqNo && e.n < s.frontier && Owned(s, e.i, e.n))
    && (forall k, i :: 0 <= k < |s.issued| && i in s.chans ==> !Reserved(s.chans[i], s.issued[k].n))
  }

  /** All numbers are distinct, and each instance's increase. */
  ghost predicate Unique(issued: seq<Issue>) {
    forall k, l :: 0 <= k < l < |issued| ==>
      issued[k].n != issued[l].n && (issued[k].i == issued[l].i ==> issued[k].n < issued[l].n)
  }

  ghost predicate SegmentsOk(s: System) {
    && (forall k :: 0 <= k < |s.segments| ==> s.segments[k].start + s.segments[k].length <= s.frontier)
    && (forall k, l :: 0 <= k < l < |s.segments| ==> s.segments[k].start + s.segments[k].length <= s.segments[l].start)
  }

  ghost predicate Inv(s: System) {
    ChansOk(s) && IssuedOk(s) && Unique(s.issued) && SegmentsOk(s)
  }

  lemma OwnedGrows(s: System, s': System, i: nat, n: int)
    requires Owned(s, i, n) && s.segments <= s'.segments
    ensures Owned(s', i, n)
  {
    var k :| 0 <= k < |s.segments| && s.segments[k].i == i && Inside(s.segments[k], n);
    assert s'.segments[k] == s.segments[k];
  }

  lemma OwnedNew(s: System, g: Segment, n: int)
    requires Inside(g, n) && s.segments != [] && s.segments[|s.segments| - 1] == g
    ensures Owned(s, g.i, n)
  {}

  /** An instance with a new segment: its old reservation is gone and the new one lies at or past the frontier. */
  function Extended(s: System, e: Event, issue: bool): System
    requires e.grant.Granted?
  {
    System(s.chans[e.i := Alloc(e.grant.start, e.grant.length)],
           if issue then s.issued + [Issue(e.i, e.grant.start)] else s.issued,
           s.segments + [Segment(e.i, e.grant.start, e.grant.length)],
           e.grant.start + e.grant.length)
  }

  lemma ExtendedChans(s: System, e: Event, issue: bool)
    requires ChansOk(s) && e.grant.Granted? && e.grant.start >= s.frontier && e.grant.length >= 1
    ensures ChansOk(Extended(s, e, issue))
  {
    hide Owned;
    var s' := Extended(s, e, issue);
    forall i, n | i in s'.chans && Reserved(s'.chans[i], n) ensures n < s'.frontier && Owned(s', i, n) {
      if i == e.i {
        OwnedNew(s', Segment(e.i, e.grant.start, e.grant.length), n);
      } else {
        OwnedGrows(s, s', i, n);
      }
    }
    forall i, j, n | i in s'.chans && j in s'.chans && i != j && Reserved(s'.chans[i], n)
      ensures !Reserved(s'.chans[j], n)
    {
      assert i != e.i ==> Reserved(s.chans[i], n);
    }
  }

  lemma PastFrontier(s: System, i: nat, n: int)
    requires ChansOk(s) && i in s.chans && n >= s.frontier
    ensures !Reserved(s.chans[i], n)
  {}

  lemma ExtendedIssued(s: System, e: Event, issue: bool)
    requires ChansOk(s) && IssuedOk(s) && e.grant.Granted? && e.grant.start >= s.frontier && e.grant.length >= 1
    ensures IssuedOk(Extended(s, e, issue))
  {
    hide Owned;
    var s' := Extended(s, e, issue);
    forall k | 0 <= k < |s'.issued|
      ensures var x := s'.issued[k];
              x.i in s'.chans && x.n <= s'.chans[x.i].seqNo && x.n < s'.frontier && Owned(s', x.i, x.n)
    {
      if k < |s.issued| {
        OwnedGrows(s, s', s.issued[k].i, s.issued[k].n);
      } else {
        OwnedNew(s', Segment(e.i, e.grant.start, e.grant.length), e.grant.start);
      }
    }
    forall k, i | 0 <= k < |s'.issued| && i in s'.chans ensures !Reserved(s'.chans[i], s'.issued[k].n) {
      if k < |s.issued| && i != e.i {
        assert !Reserved(s.chans[i], s.issued[k].n);
      } else if k >= |s.issued| && i != e.i {
        PastFrontier(s, i, e.grant.start);
      }
    }
  }

  lemma ExtendedUnique(s: System, e: Event, issue: bool)
    requires IssuedOk(s) && Unique(s.issued) && e.grant.Granted? && e.grant.start >= s.frontier
    ensures Unique(Extended(s, e, issue).issued)
  {
    hide Owned;
  }

  lemma ExtendedSegments(s: System, e: Event, issue: bool)
    requires SegmentsOk(s) && e.grant.Granted? && e.grant.start >= s.frontier && e.grant.length >= 1
    ensures SegmentsOk(Extended(s, e, issue))
  {}

  lemma NewSegment(s: System, e: Event, issue: bool)
    requires Inv(s) && e.grant.Granted? && e.grant.start >= s.frontier && e.grant.length >= 1
    ensures Inv(Extended(s, e, issue))
  {
    hide ChansOk, IssuedOk, Unique, SegmentsOk;
    ExtendedChans(s, e, issue);
    ExtendedIssued(s, e, issue);
    ExtendedUnique(s, e, issue);
    ExtendedSegments(s, e, issue);
  }

  /** An instance moving on inside its segment, or losing what is left of it. */
  lemma SameSegment(s: System, i: nat, s': System)
    requires Inv(s) && i in s.chans
    requires s' == Moved(s, i)
    ensures Inv(s')
  {
    assert ChansOk(s') by {
      SameSegmentChans(s, i);
    }
    assert IssuedOk(s') by {
      SameSegmentIssued(s, i);
    }
    assert Unique(s'.issued) by {
      var a := s.chans[i];
      assert a.remain - 1 > 0 ==> Reserved(a, a.seqNo + 1);
    }
  }

  function Moved(s: System, i: nat): System
    requires i in s.chans
  {
    var a := s.chans[i].(remain := s.chans[i].remain - 1);
    if a.remain > 0
    then s.(chans := s.chans[i := a.(seqNo := a.seqNo + 1)], issued := s.issued + [Issue(i, a.seqNo + 1)])
    else s.(chans := s.chans[i := a])
  }

  lemma SameSegmentChans(s: System, i: nat)
    requires ChansOk(s) && i in s.chans
    ensures ChansOk(Moved(s, i))
  {
    var s' := Moved(s, i);
    assert forall j, n :: j in s'.chans && Reserved(s'.chans[j], n) ==> Reserved(s.chans[j], n);
    forall j, n | j in s'.chans && Reserved(s'.chans[j], n) ensures n < s'.frontier && Owned(s', j, n) {
      OwnedGrows(s, s', j, n);
    }
    var a := s.chans[i];
    assert a.remain - 1 > 0 ==> Reserved(a, a.seqNo + 1);
  }

  lemma SameSegmentIssued(s: System, i: nat)
    requires ChansOk(s) && IssuedOk(s) && i in s.chans
    ensures IssuedOk(Moved(s, i))
  {
    hide Owned;
    var s', a := Moved(s, i), s.chans[i];
    if a.remain - 1 > 0 {
      assert Reserved(a, a.seqNo + 1);
      OwnedGrows(s, s', i, a.seqNo + 1);
    }
    forall k | 0 <= k < |s.issued| ensures Owned(s', s.issued[k].i, s.issued[k].n) {
      OwnedGrows(s, s', s.issued[k].i, s.issued[k].n);
    }
    forall k, j | 0 <= k < |s'.issued| && j in s'.chans ensures !Reserved(s'.chans[j], s'.issued[k].n) {
      if k < |s.issued| {
        assert !Reserved(s.chans[j], s.issued[k].n);
      }
    }
  }

  lemma StepInv(s: System, e: Event)
    requires Inv(s) && Legal(s, e)
    ensures Inv(Step(s, e))
  {
    hide Inv;
    if e.Open? {
      if e.grant.Granted? {
        NewSegment(s, e, false);
      }
    } else if NeedsSegment(s.chans[e.i]) && e.grant.Granted? {
      NewSegment(s, e, true);
    } else {
      SameSegment(s, e.i, Step(s, e));
    }
  }

  /** Over every interleaving: all numbers are distinct, increase per instance, and lie in a segment granted to the
      instance that returned them; and the segments granted are disjoint. */
  lemma {:induction false} RunUnique(start: int, events: seq<Event>)
    requires Run(start, events).Some?
    ensures var s := Run(start, events).value;
            && Inv(s) && Unique(s.issued) && SegmentsOk(s)
            && forall k :: 0 <= k < |s.issued| ==> Owned(s, s.issued[k].i, s.issued[k].n)
  {
    if events != [] {
      RunUnique(start, events[..|events| - 1]);
      StepInv(Run(start, events[..|events| - 1]).value, events[|events| - 1]);
    }
  }

  /** One instance, opened first, on a store whose every segment starts where the last one ended. */
  ghost predicate Contiguous(start: int, events: seq<Event>) {
    && events != [] && events[0].Open?
    && (forall k :: 0 <= k < |events| ==> events[k].i == 0 && events[k].grant.Granted? && (k > 0 ==> events[k].Take?))
    && Run(start, events).Some?
    && (forall k :: 0 <= k < |events| && Run(start, events[..k]).Some? ==>
          events[k].grant.start == Run(start, events[..k]).value.frontier && events[k].grant.length >= 1)
  }

  /** Then the numbers are consecutive, from the one after the first segment's start. */
  lemma {:induction false} RunConsecutive(start: int, events: seq<Event>)
    requires Contiguous(start, events)
    ensures var s := Run(start, events).value;
            && |s.issued| == |events| - 1
            && (forall k :: 0 <= k < |s.issued| ==> s.issued[k] == Issue(0, start + 1 + k))
            && 0 in s.chans && s.chans[0].seqNo == start + |s.issued|
            && s.chans[0].remain >= 1 && s.chans[0].seqNo + s.chans[0].remain == s.frontier
  {
    var init := events[..|events| - 1];
    assert Run(start, events[..|events| - 1]).Some?;
    if init == [] {
      assert Run(start, []) == Some(System(map[], [], [], start));
    } else {
      assert Contiguous(start, init) by {
        assert forall k :: 0 <= k < |init| ==> init[k] == events[k] && init[..k] == events[..k];
      }
      RunConsecutive(start, init);
    }
  }
}
