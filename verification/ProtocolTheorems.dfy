/** What holds in every state of every interleaving, and what relates the states of one run. */
module ProtocolTheorems {
  import opened Strings
  import opened Protocol
  import opened ProtocolInvariant

  // ----- the states of a run

  lemma {:induction false} RunPrefix(s: State, acts: seq<Action>, j: nat)
    requires Feasible(s, acts) && j <= |acts|
    ensures Feasible(s, acts[..j])
    ensures j < |acts| ==> Enabled(Run(s, acts[..j]), acts[j])
                           && Feasible(s, acts[..j + 1])
                           && Run(s, acts[..j + 1]) == Apply(Run(s, acts[..j]), acts[j])
    decreases |acts|
  {
    if j > 0 {
      var t, rest := Apply(s, acts[0]), acts[1..];
      RunPrefix(t, rest, j - 1);
      assert acts[..j][1..] == rest[..j - 1];
      if j < |acts| {
        assert acts[..j + 1][1..] == rest[..j];
        assert rest[j - 1] == acts[j];
      }
    } else if |acts| > 0 {
      assert acts[..1][1..] == [];
    }
  }

  /** The state after the first `j` actions of a run. */
  ghost function StateAt(acts: seq<Action>, j: nat): State
    requires Feasible(INIT, acts) && j <= |acts|
  {
    RunPrefix(INIT, acts, j);
    Run(INIT, acts[..j])
  }

  lemma StateAtStep(acts: seq<Action>, j: nat)
    requires Feasible(INIT, acts) && j < |acts|
    ensures Enabled(StateAt(acts, j), acts[j])
    ensures StateAt(acts, j + 1) == Apply(StateAt(acts, j), acts[j])
  {
    RunPrefix(INIT, acts, j);
  }

  lemma StateAtInv(acts: seq<Action>, j: nat)
    requires Feasible(INIT, acts) && j <= |acts|
    ensures Inv(StateAt(acts, j))
  {
    RunPrefix(INIT, acts, j);
    InitInv();
    RunInv(INIT, acts[..j]);
  }

  // ----- every reachable state

  /** No raw pointer is ever rebuilt that is not a live box of the right sort; each box is freed at
      most once, its bdev_io too, and each closure runs at most once and only where addressed. */
  lemma NoMisuse(acts: seq<Action>, j: nat, p: Ptr)
    requires Feasible(INIT, acts) && j <= |acts| && p < |StateAt(acts, j).boxes|
    ensures var s := StateAt(acts, j); var b := s.boxes[p];
            && !s.fault && b.frees <= 1 && b.ioFrees <= 1
            && (b.frees == 1 <==> !Live(s, p))
            && (b.ran == [] || (b.target.Some? && b.ran == [b.target.value]))
  {
    StateAtInv(acts, j);
    assert BoxOk(StateAt(acts, j), p);
  }

  /** The foreign places that can hold a raw pointer. */
  datatype Spot = InDevice(io: Io) | InEvent(ev: Ev) | InQueue(site: Site, index: nat)

  function HeldAt(s: State, spot: Spot): Option<Ptr> {
    match spot
    case InDevice(io) => if io in s.device then Some(s.device[io]) else None
    case InEvent(ev) => if ev in s.events then Some(s.events[ev].ptr) else None
    case InQueue(site, i) => if i < |At(s.lines, site)| then Some(At(s.lines, site)[i]) else None
  }

  ghost predicate Held(s: State, p: Ptr) {
    exists spot :: HeldAt(s, spot) == Some(p)
  }

  /** A box held in a spot is in the corresponding place. */
  ghost predicate PlaceOf(s: State, spot: Spot, p: Ptr) {
    p < |s.boxes| && s.boxes[p].place ==
      match spot {
        case InDevice(io) => Device(io)
        case InEvent(ev) => Handle(ev)
        case InQueue(site, _) => Queued(site)
      }
  }

  lemma SpotPlace(s: State, spot: Spot)
    requires Inv(s) && HeldAt(s, spot).Some?
    ensures PlaceOf(s, spot, HeldAt(s, spot).value)
  {
    match spot
    case InDevice(io) =>
    case InEvent(ev) =>
    case InQueue(site, i) =>
      assert LineOk(s, site);
      assert At(s.lines, site)[i] in At(s.lines, site);
  }

  /** Linear ownership: two foreign places never hold the same box. */
  lemma OneHolder(s: State, a: Spot, b: Spot)
    requires Inv(s) && HeldAt(s, a).Some? && HeldAt(s, a) == HeldAt(s, b)
    ensures a == b
  {
    var p := HeldAt(s, a).value;
    SpotPlace(s, a);
    SpotPlace(s, b);
    if a.InQueue? && b.InQueue? {
      assert LineOk(s, a.site);
    }
  }

  /** Every box is held by a foreign place, or executing, or leaked, or destroyed: exactly one of these. */
  lemma OwnedOnce(s: State, p: Ptr)
    requires Inv(s) && p < |s.boxes|
    ensures Held(s, p) <==> !s.boxes[p].place.Running? && !s.boxes[p].place.Leaked? && !s.boxes[p].place.Gone?
  {
    assert BoxOk(s, p) && HeldOk(s, p);
    match s.boxes[p].place {
      case Device(io) =>
        assert HeldAt(s, InDevice(io)) == Some(p);
      case Handle(ev) =>
        assert HeldAt(s, InEvent(ev)) == Some(p);
      case Queued(site) =>
        var i :| 0 <= i < |At(s.lines, site)| && At(s.lines, site)[i] == p;
        assert HeldAt(s, InQueue(site, i)) == Some(p);
      case _ =>
        NotHeld(s, p);
    }
  }

  lemma NotHeld(s: State, p: Ptr)
    requires Inv(s) && p < |s.boxes|
    requires s.boxes[p].place.Running? || s.boxes[p].place.Leaked? || s.boxes[p].place.Gone?
    ensures !Held(s, p)
  {
    forall spot
      ensures HeldAt(s, spot) != Some(p)
    {
      assert spot.InQueue? ==> LineOk(s, spot.site);
    }
  }

  /** The ownership theorem, over every interleaving. */
  lemma LinearOwnership(acts: seq<Action>, j: nat)
    requires Feasible(INIT, acts) && j <= |acts|
    ensures var s := StateAt(acts, j);
            && (forall a, b :: HeldAt(s, a).Some? && HeldAt(s, a) == HeldAt(s, b) ==> a == b)
            && (forall p: Ptr :: p < |s.boxes| ==>
                  (Held(s, p) <==> !s.boxes[p].place.Running? && !s.boxes[p].place.Leaked? && Live(s, p)))
  {
    StateAtInv(acts, j);
    var s := StateAt(acts, j);
    forall a, b | HeldAt(s, a).Some? && HeldAt(s, a) == HeldAt(s, b)
      ensures a == b
    {
      OneHolder(s, a, b);
    }
    forall p: Ptr | p < |s.boxes|
      ensures Held(s, p) <==> !s.boxes[p].place.Running? && !s.boxes[p].place.Leaked? && Live(s, p)
    {
      OwnedOnce(s, p);
    }
  }

  /** A receiver that has seen nothing yet is pending exactly while its sender is alive; after that
      its first poll returns what was sent, and `Cancelled` exactly when the sender was dropped unsent. */
  lemma FirstPoll(s: State, c: Chan)
    requires Inv(s) && c < |s.cells| && !s.cells[c].rxDone && s.cells[c].got.None?
    ensures var p := s.cells[c].carrier;
            && p < |s.boxes|
            && (Outcome(s, c).None? <==> Live(s, p))
            && (s.boxes[p].result.Some? ==> Outcome(s, c) == s.boxes[p].result)
            && (Outcome(s, c) == Some(Err(Cancelled)) <==> s.boxes[p].unsent)
  {
    assert CellOk(s, c);
    assert BoxOk(s, s.cells[c].carrier);
  }

  /** A receiver polled again after its first outcome sees the channel empty and closed. */
  lemma SecondPoll(s: State, c: Chan)
    requires Inv(s) && c < |s.cells| && s.cells[c].got.Some?
    ensures Outcome(s, c) == Some(Err(Cancelled))
  {
    assert CellOk(s, c);
  }

  // ----- along a run

  /** How far a box is from its end. */
  function Stage(place: Place): nat {
    match place
    case Handle(_) => 3
    case Queued(_) => 2
    case Running(_) => 1
    case Device(_) => 1
    case Leaked => 1
    case Gone => 0
  }

  /** What box `b` may have become later. */
  ghost predicate Aged(b: Box, d: Box) {
    && d.payload == b.payload && d.target == b.target
    && Stage(d.place) <= Stage(b.place)
    && (Stage(d.place) == Stage(b.place) ==> d == b)
    && b.ran <= d.ran
  }

  /** What a later state `t` of a run keeps of box `p`. */
  ghost predicate BoxLater(s: State, t: State, p: Ptr)
    requires p < |s.boxes|
  {
    p < |t.boxes| && Aged(s.boxes[p], t.boxes[p])
  }

  ghost predicate CellLater(s: State, t: State, c: Chan)
    requires c < |s.cells|
  {
    && c < |t.cells| && t.cells[c].carrier == s.cells[c].carrier
    && (s.cells[c].got.Some? ==> t.cells[c].got == s.cells[c].got)
  }

  ghost predicate Later(s: State, t: State) {
    && (forall p: Ptr :: p < |s.boxes| ==> BoxLater(s, t, p))
    && (forall c: Chan :: c < |s.cells| ==> CellLater(s, t, c))
  }

  lemma StepLater(s: State, a: Action)
    requires Inv(s) && Enabled(s, a)
    ensures Later(s, Apply(s, a))
  {
    StepInv(s, a);
    EffectLater(s, a, Apply(s, a));
  }

  /** The box that an action changes ages. */
  lemma ChangeAges(s: State, a: Action)
    requires Inv(s) && Enabled(s, a)
    ensures match Change(s, a)
            case Some((q, b)) => q < |s.boxes| && Aged(s.boxes[q], b)
            case None => true
  {
    if Change(s, a).Some? {
      assert a.Begin? ==> LineOk(s, a.site);
      assert BoxOk(s, Change(s, a).value.0);
    }
  }

  lemma EffectLater(s: State, a: Action, t: State)
    requires Inv(s) && Enabled(s, a) && Effect(s, a, t)
    ensures forall p: Ptr :: p < |s.boxes| ==> BoxLater(s, t, p)
  {
    ChangeAges(s, a);
    forall p: Ptr | p < |s.boxes|
      ensures BoxLater(s, t, p)
    {
      if Change(s, a).None? && !a.PollRx? && !a.DropRx? {
        assert t.boxes[p] == t.boxes[..|s.boxes|][p];
      }
    }
  }

  lemma NextLater(acts: seq<Action>, j: nat)
    requires Feasible(INIT, acts) && j < |acts|
    ensures Later(StateAt(acts, j), StateAt(acts, j + 1))
  {
    StateAtInv(acts, j);
    StateAtStep(acts, j);
    StepLater(StateAt(acts, j), acts[j]);
  }

  lemma {:induction false} RunLater(acts: seq<Action>, i: nat, j: nat)
    requires Feasible(INIT, acts) && i <= j <= |acts|
    ensures Later(StateAt(acts, i), StateAt(acts, j))
    decreases j - i
  {
    if i < j {
      RunLater(acts, i, j - 1);
      NextLater(acts, j - 1);
      LaterTrans(StateAt(acts, i), StateAt(acts, j - 1), StateAt(acts, j));
    }
  }

  lemma LaterTrans(s: State, t: State, u: State)
    requires Later(s, t) && Later(t, u)
    ensures Later(s, u)
  {
    forall p: Ptr | p < |s.boxes|
      ensures BoxLater(s, u, p)
    {
      assert BoxLater(s, t, p) && BoxLater(t, u, p);
    }
    forall c: Chan | c < |s.cells|
      ensures CellLater(s, u, c)
    {
      assert CellLater(s, t, c) && CellLater(t, u, c);
    }
  }

  /** Action `a` in state `s` is the callback of box `p` producing `r`. */
  predicate Produces(s: State, a: Action, p: Ptr, r: Result) {
    match a
    case CompleteIo(io, success) => io in s.device && s.device[io] == p && r == if success then Ok(0) else Err(IoError)
    case Finish(q, value) => q == p && r == Ok(value)
    case _ => false
  }

  lemma StepProduces(s: State, a: Action, t: State, p: Ptr)
    requires Inv(s) && Enabled(s, a) && Effect(s, a, t) && p < |t.boxes| && t.boxes[p].result.Some?
    ensures (p < |s.boxes| && s.boxes[p].result == t.boxes[p].result) || Produces(s, a, p, t.boxes[p].result.value)
  {
    if Change(s, a).None? && !a.PollRx? && !a.DropRx? {
      assert p < |s.boxes| ==> t.boxes[p] == t.boxes[..|s.boxes|][p];
    }
  }

  lemma RunEffect(acts: seq<Action>, j: nat)
    requires Feasible(INIT, acts) && j < |acts|
    ensures Inv(StateAt(acts, j)) && Enabled(StateAt(acts, j), acts[j])
    ensures Effect(StateAt(acts, j), acts[j], StateAt(acts, j + 1))
  {
    StateAtInv(acts, j);
    StateAtStep(acts, j);
    StepInv(StateAt(acts, j), acts[j]);
  }

  /** A result has a cause in the run: the completion of the box's operation, or its closure's return. */
  lemma {:induction false} ResultHasCause(acts: seq<Action>, j: nat, p: Ptr) returns (k: nat)
    requires Feasible(INIT, acts) && j <= |acts|
    requires p < |StateAt(acts, j).boxes| && StateAt(acts, j).boxes[p].result.Some?
    ensures k < j && Produces(StateAt(acts, k), acts[k], p, StateAt(acts, j).boxes[p].result.value)
    decreases j
  {
    if j == 0 {
      assert false;
    } else {
      RunEffect(acts, j - 1);
      StepProduces(StateAt(acts, j - 1), acts[j - 1], StateAt(acts, j), p);
      if Produces(StateAt(acts, j - 1), acts[j - 1], p, StateAt(acts, j).boxes[p].result.value) {
        k := j - 1;
      } else {
        k := ResultHasCause(acts, j - 1, p);
      }
    }
  }

  /** No cross-talk for block I/O: whatever else is outstanding and in whatever order operations
      complete, the receiver of an accepted submission only ever sees the completion of its own
      operation, and never `Cancelled`. */
  lemma SubmissionOutcome(acts: seq<Action>, i: nat, io: Io, j: nat)
    requires Feasible(INIT, acts) && i < j <= |acts| && acts[i] == Submit(io, 0)
    requires var c := |StateAt(acts, i).cells|;
             c < |StateAt(acts, j).cells| && StateAt(acts, j).cells[c].got.Some?
    ensures var c, p := |StateAt(acts, i).cells|, |StateAt(acts, i).boxes|;
            exists k, success :: i < k < j && acts[k] == CompleteIo(io, success)
              && HeldAt(StateAt(acts, k), InDevice(io)) == Some(p)
              && StateAt(acts, j).cells[c].got == Some(if success then Ok(0) else Err(IoError))
  {
    var c, p := |StateAt(acts, i).cells|, |StateAt(acts, i).boxes|;
    var s, t := StateAt(acts, i + 1), StateAt(acts, j);
    StateAtStep(acts, i);
    assert s.boxes[p].place == Device(io) && s.cells[c].carrier == p && s.boxes[p].payload == Sender(c);
    RunLater(acts, i + 1, j);
    assert BoxLater(s, t, p) && (c < |s.cells| ==> CellLater(s, t, c));
    StateAtInv(acts, j);
    assert CellOk(t, c) && BoxOk(t, p);
    var k := ResultHasCause(acts, j, p);
    SubmitterIsCompleted(acts, i, io, k);
  }

  lemma NoFewerBoxes(s: State, t: State)
    requires Later(s, t)
    ensures |s.boxes| <= |t.boxes|
  {
    if s.boxes != [] {
      assert BoxLater(s, t, |s.boxes| - 1);
    }
  }

  /** The operation that produced the result is the one submitted. */
  lemma SubmitterIsCompleted(acts: seq<Action>, i: nat, io: Io, k: nat)
    requires Feasible(INIT, acts) && i < |acts| && k < |acts| && acts[i] == Submit(io, 0)
    requires exists r :: Produces(StateAt(acts, k), acts[k], |StateAt(acts, i).boxes|, r)
    ensures i < k && acts[k].CompleteIo? && acts[k].io == io
  {
    var p := |StateAt(acts, i).boxes|;
    var u := StateAt(acts, k);
    StateAtInv(acts, k);
    StateAtStep(acts, k);
    StateAtStep(acts, i);
    assert p < |u.boxes| && BoxOk(u, p);
    if k <= i {
      RunLater(acts, k, i);
      NoFewerBoxes(u, StateAt(acts, i));
    }
    RunLater(acts, i + 1, k);
    assert BoxLater(StateAt(acts, i + 1), u, p);
  }

  /** A reply closure's receiver sees what that closure returned, after it ran where it was
      addressed, or `Cancelled` because it was destroyed before running. */
  lemma ClosureOutcome(acts: seq<Action>, i: nat, p: Ptr, c: Chan, site: Site, j: nat)
    requires Feasible(INIT, acts) && i < j <= |acts|
    requires var s := StateAt(acts, i + 1);
             p < |s.boxes| && s.boxes[p].payload == Reply(c) && s.boxes[p].target == Some(site)
    requires c < |StateAt(acts, j).cells| && StateAt(acts, j).cells[c].got.Some?
    ensures var t := StateAt(acts, j);
            p < |t.boxes| && t.boxes[p].target == Some(site)
    ensures var t := StateAt(acts, j); var b := t.boxes[p];
            || (t.cells[c].got == Some(Err(Cancelled)) && b.unsent && b.ran == [])
            || (b.ran == [site]
                && exists k, v :: 0 <= k < j && acts[k] == Finish(p, v) && t.cells[c].got == Some(Ok(v)))
  {
    var s, t := StateAt(acts, i + 1), StateAt(acts, j);
    RunLater(acts, i + 1, j);
    assert BoxLater(s, t, p) && (c < |s.cells| ==> CellLater(s, t, c));
    StateAtInv(acts, j);
    assert CellOk(t, c) && BoxOk(t, p);
    if t.boxes[p].result.Some? {
      var k := ResultHasCause(acts, j, p);
      var u := StateAt(acts, k);
      StateAtInv(acts, k);
      StateAtStep(acts, k);
      RunLater(acts, k, j);
      ProducerKind(u, acts[k], p, t.boxes[p].result.value);
      assert BoxLater(u, t, p);
    }
  }

  /** Device completions serve senders, closure returns serve closures. */
  lemma ProducerKind(s: State, a: Action, p: Ptr, r: Result)
    requires Inv(s) && Enabled(s, a) && Produces(s, a, p, r)
    ensures p < |s.boxes| && (s.boxes[p].payload.Sender? <==> a.CompleteIo?)
  {
    assert BoxOk(s, p);
  }

  /** `ThreadHandle::call`: the receiver sees exactly what the closure returned, on the target thread. */
  lemma CallOutcome(acts: seq<Action>, i: nat, thread: nat, j: nat)
    requires Feasible(INIT, acts) && i < j <= |acts| && acts[i] == Send(thread, true)
    requires var c := |StateAt(acts, i).cells|;
             c < |StateAt(acts, j).cells| && StateAt(acts, j).cells[c].got.Some?
    ensures var c, p, t := |StateAt(acts, i).cells|, |StateAt(acts, i).boxes|, StateAt(acts, j);
            && p < |t.boxes| && t.boxes[p].ran == [OnThread(thread)]
            && exists k, v :: 0 <= k < j && acts[k] == Finish(p, v) && t.cells[c].got == Some(Ok(v))
  {
    var c, p := |StateAt(acts, i).cells|, |StateAt(acts, i).boxes|;
    StateAtStep(acts, i);
    ClosureOutcome(acts, i, p, c, OnThread(thread), j);
    StateAtInv(acts, j);
    assert BoxOk(StateAt(acts, j), p);
  }

  /** The closure of event `ev` was destroyed undispatched. */
  ghost predicate Undispatched(acts: seq<Action>, j: nat, ev: Ev, p: Ptr)
    requires Feasible(INIT, acts) && j <= |acts|
  {
    exists k :: 0 <= k < j && acts[k] == DropEvent(ev) && HeldAt(StateAt(acts, k), InEvent(ev)) == Some(p)
  }

  /** The closure was destroyed and never ran. */
  predicate Unrun(s: State, p: Ptr) {
    p < |s.boxes| && s.boxes[p].place.Gone? && s.boxes[p].ran == []
  }

  lemma StepUnrun(s: State, a: Action, t: State, p: Ptr)
    requires Inv(s) && Enabled(s, a) && Effect(s, a, t) && p < |s.boxes| && !s.boxes[p].payload.Sender?
    ensures p < |t.boxes|
    ensures Unrun(t, p) <==> Unrun(s, p) || (a.DropEvent? && HeldAt(s, InEvent(a.ev)) == Some(p))
  {
    assert BoxOk(s, p);
    assert a.Begin? ==> LineOk(s, a.site);
    assert a.CompleteIo? ==> s.boxes[s.device[a.io]].place == Device(a.io);
    if Change(s, a).None? && !a.PollRx? && !a.DropRx? {
      assert t.boxes[p] == t.boxes[..|s.boxes|][p];
    }
  }

  lemma UndispatchedStep(acts: seq<Action>, j: nat, ev: Ev, p: Ptr)
    requires Feasible(INIT, acts) && j < |acts|
    ensures Undispatched(acts, j + 1, ev, p) <==>
            Undispatched(acts, j, ev, p)
            || (acts[j] == DropEvent(ev) && HeldAt(StateAt(acts, j), InEvent(ev)) == Some(p))
  {
  }

  /** After action `i` event `ev` owns the new box `p`. */
  ghost predicate Owns(acts: seq<Action>, i: nat, ev: Ev, p: Ptr)
    requires Feasible(INIT, acts) && i < |acts|
  {
    && acts[i].NewEvent? && p == |StateAt(acts, i).boxes|
    && var s := StateAt(acts, i + 1);
    p < |s.boxes| && s.boxes[p].place == Handle(ev) && !s.boxes[p].payload.Sender?
  }

  lemma UnrunNext(acts: seq<Action>, i: nat, ev: Ev, p: Ptr, j: nat)
    requires Feasible(INIT, acts) && i < j < |acts| && Owns(acts, i, ev, p)
    ensures p < |StateAt(acts, j).boxes| && p < |StateAt(acts, j + 1).boxes|
    ensures Unrun(StateAt(acts, j + 1), p) <==>
            Unrun(StateAt(acts, j), p)
            || (acts[j] == DropEvent(ev) && HeldAt(StateAt(acts, j), InEvent(ev)) == Some(p))
  {
    var s, a := StateAt(acts, j), acts[j];
    RunLater(acts, i + 1, j);
    assert BoxLater(StateAt(acts, i + 1), s, p);
    RunEffect(acts, j);
    StepUnrun(s, a, StateAt(acts, j + 1), p);
    if a.DropEvent? && HeldAt(s, InEvent(a.ev)) == Some(p) {
      SpotPlace(s, InEvent(a.ev));
    }
  }

  /** An event's closure ends without having run only by the drop of that event. */
  lemma {:induction false} UnrunHasCause(acts: seq<Action>, i: nat, ev: Ev, p: Ptr, j: nat)
    requires Feasible(INIT, acts) && i < j <= |acts| && Owns(acts, i, ev, p)
    ensures Unrun(StateAt(acts, j), p) <==> Undispatched(acts, j, ev, p)
    decreases j
  {
    if j == i + 1 {
      NotYetDropped(acts, i + 1, ev, p);
    } else {
      UnrunHasCause(acts, i, ev, p, j - 1);
      UnrunNext(acts, i, ev, p, j - 1);
      UndispatchedStep(acts, j - 1, ev, p);
    }
  }

  lemma NotYetDropped(acts: seq<Action>, j: nat, ev: Ev, p: Ptr)
    requires Feasible(INIT, acts) && 0 < j <= |acts|
    requires p == |StateAt(acts, j - 1).boxes|
    requires !acts[j - 1].DropEvent?
    ensures !Undispatched(acts, j, ev, p)
  {
    if Undispatched(acts, j, ev, p) {
      var k :| 0 <= k < j && acts[k] == DropEvent(ev) && HeldAt(StateAt(acts, k), InEvent(ev)) == Some(p);
      StateAtInv(acts, k);
      SpotPlace(StateAt(acts, k), InEvent(ev));
      RunLater(acts, k, j - 1);
      NoFewerBoxes(StateAt(acts, k), StateAt(acts, j - 1));
    }
  }

  lemma EventClosure(s: State, lcore: nat, ev: Ev, granted: bool, reply: bool)
    ensures var t, p := DoNewEvent(s, lcore, ev, granted, reply), |s.boxes|;
            && p < |t.boxes| && t.boxes[p].payload == (if reply then Reply(|s.cells|) else Plain)
            && t.boxes[p].target == Some(OnReactor(lcore)) && t.boxes[p].ran == []
            && t.boxes[p].place == (if granted then Handle(ev) else Gone)
  {
    if !granted {
      RefusedEventShape(s, lcore, ev, reply);
    }
  }

  /** Every event closure, with or without a sender: it ran where it was addressed, or nowhere; it was
      destroyed without running if and only if the event was refused or dropped undispatched; and
      whichever way it ended, it was freed once. */
  lemma EventFate(acts: seq<Action>, i: nat, lcore: nat, ev: Ev, granted: bool, reply: bool, j: nat)
    requires Feasible(INIT, acts) && i < j <= |acts| && acts[i] == NewEvent(lcore, ev, granted, reply)
    ensures var p, t := |StateAt(acts, i).boxes|, StateAt(acts, j);
            && p < |t.boxes|
            && (t.boxes[p].ran == [] || t.boxes[p].ran == [OnReactor(lcore)])
            && (Unrun(t, p) <==> !granted || Undispatched(acts, j, ev, p))
            && t.boxes[p].frees == if Live(t, p) then 0 else 1
  {
    var p, t := |StateAt(acts, i).boxes|, StateAt(acts, j);
    StateAtStep(acts, i);
    EventClosure(StateAt(acts, i), lcore, ev, granted, reply);
    RunLater(acts, i + 1, j);
    assert BoxLater(StateAt(acts, i + 1), t, p);
    StateAtInv(acts, j);
    assert BoxOk(t, p);
    if granted {
      UnrunHasCause(acts, i, ev, p, j);
    }
  }

  /** `SpdkEvent::call_on_async`, and any event closure that owns a sender: a result only from its
      own run on the target core, and `Cancelled` if and only if the event was refused or dropped
      undispatched. */
  lemma EventOutcome(acts: seq<Action>, i: nat, lcore: nat, ev: Ev, granted: bool, j: nat)
    requires Feasible(INIT, acts) && i < j <= |acts| && acts[i] == NewEvent(lcore, ev, granted, true)
    requires var c := |StateAt(acts, i).cells|;
             c < |StateAt(acts, j).cells| && StateAt(acts, j).cells[c].got.Some?
    ensures var c, p, t := |StateAt(acts, i).cells|, |StateAt(acts, i).boxes|, StateAt(acts, j);
            && p < |t.boxes|
            && (t.cells[c].got == Some(Err(Cancelled)) <==> t.boxes[p].ran == [])
            && (t.cells[c].got == Some(Err(Cancelled)) <==> !granted || Undispatched(acts, j, ev, p))
            && (t.boxes[p].ran != [] ==>
                  && t.boxes[p].ran == [OnReactor(lcore)]
                  && exists k, v :: 0 <= k < j && acts[k] == Finish(p, v) && t.cells[c].got == Some(Ok(v)))
  {
    var c, p, t := |StateAt(acts, i).cells|, |StateAt(acts, i).boxes|, StateAt(acts, j);
    StateAtStep(acts, i);
    EventClosure(StateAt(acts, i), lcore, ev, granted, true);
    ClosureOutcome(acts, i, p, c, OnReactor(lcore), j);
    EventFate(acts, i, lcore, ev, granted, true, j);
    StateAtInv(acts, j);
    assert BoxOk(t, p);
  }

  // ----- conservation

  function CountSends(acts: seq<Action>, thread: nat): nat {
    if acts == [] then 0
    else
      var last := acts[|acts| - 1];
      CountSends(acts[..|acts| - 1], thread) + if last.Send? && last.thread == thread then 1 else 0
  }

  lemma StepPosted(s: State, a: Action, thread: nat)
    requires Inv(s) && Enabled(s, a)
    ensures |At(Apply(s, a).posted, OnThread(thread))| ==
            |At(s.posted, OnThread(thread))| + if a.Send? && a.thread == thread then 1 else 0
  {
    StepInv(s, a);
  }

  lemma {:induction false} SendsArePosted(acts: seq<Action>, j: nat, thread: nat)
    requires Feasible(INIT, acts) && j <= |acts|
    ensures |At(StateAt(acts, j).posted, OnThread(thread))| == CountSends(acts[..j], thread)
    decreases j
  {
    if j > 0 {
      SendsArePosted(acts, j - 1, thread);
      StateAtInv(acts, j - 1);
      StateAtStep(acts, j - 1);
      StepPosted(StateAt(acts, j - 1), acts[j - 1], thread);
      assert acts[..j][..j - 1] == acts[..j - 1];
    }
  }

  ghost predicate Distinct(ps: seq<Ptr>) {
    forall i, j :: 0 <= i < j < |ps| ==> ps[i] != ps[j]
  }

  lemma DistinctConcat(a: seq<Ptr>, b: seq<Ptr>)
    requires Distinct(a) && Distinct(b) && forall p :: p in a ==> p !in b
    ensures Distinct(a + b)
  {
    forall i, j | 0 <= i < j < |a + b|
      ensures (a + b)[i] != (a + b)[j]
    {
      assert i < |a| ==> a[i] in a;
      assert j >= |a| ==> b[j - |a|] in b;
    }
  }

  /** Every message accepted by a queue is either begun or still queued, once, in the order of
      acceptance; the begun ones are exactly the closures that ran there. */
  lemma MessagesConserved(acts: seq<Action>, j: nat, site: Site)
    requires Feasible(INIT, acts) && j <= |acts|
    ensures var s := StateAt(acts, j);
            && At(s.posted, site) == At(s.begun, site) + At(s.lines, site)
            && Distinct(At(s.posted, site))
            && (forall p: Ptr :: p < |s.boxes| ==> (p in At(s.begun, site) <==> s.boxes[p].ran == [site]))
            && (site.OnThread? ==> CountSends(acts[..j], site.id) == |At(s.begun, site)| + |At(s.lines, site)|)
  {
    StateAtInv(acts, j);
    var s := StateAt(acts, j);
    assert LineOk(s, site);
    var begun, line := At(s.begun, site), At(s.lines, site);
    forall p | p in begun
      ensures p !in line
    {
      assert p < |s.boxes| && s.boxes[p].ran == [site];
      assert BoxOk(s, p);
    }
    DistinctConcat(begun, line);
    if site.OnThread? {
      SendsArePosted(acts, j, site.id);
    }
  }

  lemma PostedGrow(acts: seq<Action>, j: nat, site: Site)
    requires Feasible(INIT, acts) && j < |acts|
    ensures At(StateAt(acts, j).posted, site) <= At(StateAt(acts, j + 1).posted, site)
  {
    StateAtInv(acts, j);
    StateAtStep(acts, j);
    StepInv(StateAt(acts, j), acts[j]);
  }

  lemma {:induction false} PostedStay(acts: seq<Action>, i: nat, j: nat, site: Site, p: Ptr)
    requires Feasible(INIT, acts) && i <= j <= |acts| && p in At(StateAt(acts, i).posted, site)
    ensures p in At(StateAt(acts, j).posted, site)
    decreases j - i
  {
    if i < j {
      PostedStay(acts, i, j - 1, site, p);
      PostedGrow(acts, j - 1, site);
    }
  }

  /** A message once accepted waits in its queue or has been taken to run there, and never both. */
  lemma MessageFate(acts: seq<Action>, i: nat, site: Site, p: Ptr, j: nat)
    requires Feasible(INIT, acts) && i <= j <= |acts| && p in At(StateAt(acts, i).posted, site)
    ensures var t := StateAt(acts, j);
            && p < |t.boxes|
            && (t.boxes[p].ran == [site] <==> p !in At(t.lines, site))
            && (t.boxes[p].ran == [] <==> p in At(t.lines, site))
  {
    var t := StateAt(acts, j);
    PostedStay(acts, i, j, site, p);
    StateAtInv(acts, j);
    assert LineOk(t, site);
    assert p in At(t.begun, site) || p in At(t.lines, site);
    assert BoxOk(t, p);
  }

  /** Every closure sent to a thread, by `send` or `call`, has run there once or waits in the thread's
      queue; when nothing is outstanding it has run, and was freed once. */
  lemma SendFate(acts: seq<Action>, i: nat, thread: nat, reply: bool, j: nat)
    requires Feasible(INIT, acts) && i < j <= |acts| && acts[i] == Send(thread, reply)
    ensures var p, t, site := |StateAt(acts, i).boxes|, StateAt(acts, j), OnThread(thread);
            && p < |t.boxes|
            && (t.boxes[p].ran == [site] <==> p !in At(t.lines, site))
            && (t.boxes[p].ran == [] <==> p in At(t.lines, site))
            && (Quiescent(t) ==> t.boxes[p].ran == [site] && t.boxes[p].frees == 1)
  {
    var p, t, site := |StateAt(acts, i).boxes|, StateAt(acts, j), OnThread(thread);
    StateAtInv(acts, i);
    StateAtStep(acts, i);
    SendInv(StateAt(acts, i), thread, reply);
    assert At(StateAt(acts, i + 1).posted, site) == At(StateAt(acts, i).posted, site) + [p];
    MessageFate(acts, i + 1, site, p, j);
    if Quiescent(t) {
      StateAtInv(acts, j);
      assert BoxOk(t, p);
      QuiescentBox(t, p);
    }
  }

  /** The same for the closure of an event that was dispatched. */
  lemma DispatchFate(acts: seq<Action>, i: nat, ev: Ev, j: nat)
    requires Feasible(INIT, acts) && i < j <= |acts| && acts[i] == CallEvent(ev)
    ensures ev in StateAt(acts, i).events
    ensures var e, t := StateAt(acts, i).events[ev], StateAt(acts, j);
            var p, site := e.ptr, OnReactor(e.lcore);
            && p < |t.boxes|
            && (t.boxes[p].ran == [site] <==> p !in At(t.lines, site))
            && (t.boxes[p].ran == [] <==> p in At(t.lines, site))
            && (Quiescent(t) ==> t.boxes[p].ran == [site] && t.boxes[p].frees == 1)
  {
    StateAtInv(acts, i);
    StateAtStep(acts, i);
    var e, t := StateAt(acts, i).events[ev], StateAt(acts, j);
    var p, site := e.ptr, OnReactor(e.lcore);
    CallEventInv(StateAt(acts, i), ev);
    assert At(StateAt(acts, i + 1).posted, site) == At(StateAt(acts, i).posted, site) + [p];
    MessageFate(acts, i + 1, site, p, j);
    if Quiescent(t) {
      StateAtInv(acts, j);
      assert BoxOk(t, p);
      QuiescentBox(t, p);
    }
  }

  // ----- quiescence

  /** Nothing outstanding: no operation in flight, no undispatched event, no message, no running closure. */
  ghost predicate Quiescent(s: State) {
    && s.device == map[] && s.events == map[]
    && (forall site :: At(s.lines, site) == [])
    && (forall p: Ptr :: p < |s.boxes| ==> !s.boxes[p].place.Running?)
  }

  ghost predicate RefusedAt(acts: seq<Action>, j: nat, p: Ptr)
    requires Feasible(INIT, acts) && j <= |acts|
  {
    exists i :: 0 <= i < j && acts[i].Submit? && acts[i].rc != 0 && |StateAt(acts, i).boxes| == p
  }

  lemma StepLeak(s: State, a: Action, t: State, p: Ptr)
    requires Inv(s) && Enabled(s, a) && Effect(s, a, t) && p < |t.boxes|
    ensures t.boxes[p].place.Leaked? <==>
            if p < |s.boxes| then s.boxes[p].place.Leaked? else a.Submit? && a.rc != 0
  {
    EffectLater(s, a, t);
    if p < |s.boxes| {
      assert BoxLater(s, t, p) && BoxOk(s, p);
      if Change(s, a).None? && !a.PollRx? && !a.DropRx? {
        assert t.boxes[p] == t.boxes[..|s.boxes|][p];
      }
    }
  }

  /** A box leaks if and only if it is the sender of a refused submission. */
  lemma {:induction false} LeaksAreRefusals(acts: seq<Action>, j: nat, p: Ptr)
    requires Feasible(INIT, acts) && j <= |acts| && p < |StateAt(acts, j).boxes|
    ensures StateAt(acts, j).boxes[p].place.Leaked? <==> RefusedAt(acts, j, p)
    decreases j
  {
    if j > 0 {
      var s, a, t := StateAt(acts, j - 1), acts[j - 1], StateAt(acts, j);
      RunEffect(acts, j - 1);
      StepLeak(s, a, t, p);
      if p < |s.boxes| {
        LeaksAreRefusals(acts, j - 1, p);
        RefusedStep(acts, j, p);
      } else {
        assert p == |s.boxes|;
        NoEarlierRefusal(acts, j - 1, p);
      }
    }
  }

  lemma RefusedStep(acts: seq<Action>, j: nat, p: Ptr)
    requires Feasible(INIT, acts) && 0 < j <= |acts| && p < |StateAt(acts, j - 1).boxes|
    ensures RefusedAt(acts, j, p) <==> RefusedAt(acts, j - 1, p)
  {
  }

  lemma NoEarlierRefusal(acts: seq<Action>, j: nat, p: Ptr)
    requires Feasible(INIT, acts) && j <= |acts| && p == |StateAt(acts, j).boxes|
    ensures !RefusedAt(acts, j, p)
  {
    if RefusedAt(acts, j, p) {
      var i :| 0 <= i < j && acts[i].Submit? && acts[i].rc != 0 && |StateAt(acts, i).boxes| == p;
      StateAtStep(acts, i);
      RunLater(acts, i + 1, j);
      NoFewerBoxes(StateAt(acts, i + 1), StateAt(acts, j));
    }
  }

  /** At quiescence every closure, and the sender of every accepted submission, has been freed
      exactly once, and the operation's bdev_io with it; the rest leaked. */
  lemma QuiescentBox(s: State, p: Ptr)
    requires Inv(s) && Quiescent(s) && p < |s.boxes|
    ensures var b := s.boxes[p];
            if b.place.Leaked? then b.frees == 0 && b.payload.Sender?
            else b.frees == 1 && b.ioFrees == if b.payload.Sender? then 1 else 0
  {
    assert BoxOk(s, p) && HeldOk(s, p);
  }

  /** "Every box is freed" holds at quiescence if and only if no submission was refused. */
  lemma AllFreedUnlessRefused(acts: seq<Action>, j: nat)
    requires Feasible(INIT, acts) && j <= |acts| && Quiescent(StateAt(acts, j))
    ensures (forall p: Ptr :: p < |StateAt(acts, j).boxes| ==> StateAt(acts, j).boxes[p].frees == 1) <==>
            (forall i :: 0 <= i < j && acts[i].Submit? ==> acts[i].rc == 0)
  {
    StateAtInv(acts, j);
    var s := StateAt(acts, j);
    forall p: Ptr | p < |s.boxes|
      ensures s.boxes[p].frees != 1 <==> RefusedAt(acts, j, p)
    {
      QuiescentBox(s, p);
      LeaksAreRefusals(acts, j, p);
    }
    forall i | 0 <= i < j && acts[i].Submit? && acts[i].rc != 0
      ensures exists p: Ptr :: p < |s.boxes| && s.boxes[p].frees != 1
    {
      var p := |StateAt(acts, i).boxes|;
      StateAtStep(acts, i);
      RunLater(acts, i + 1, j);
      NoFewerBoxes(StateAt(acts, i + 1), s);
      assert RefusedAt(acts, j, p);
    }
  }

  /** The run of one refused submission: everything is at rest, and the boxed sender was not freed. */
  lemma RefusalLeaks(io: Io, rc: int)
    requires rc != 0
    ensures var acts := [Submit(io, rc)];
            && Feasible(INIT, acts)
            && var s := StateAt(acts, 1);
            Quiescent(s) && |s.boxes| == 1 && s.boxes[0].place.Leaked? && s.boxes[0].frees == 0
  {
    var acts, s := [Submit(io, rc)], DoSubmit(INIT, io, rc);
    assert acts[1..] == [] && Enabled(INIT, acts[0]);
    assert Feasible(s, []) && Feasible(INIT, acts);
    StateAtStep(acts, 0);
    assert StateAt(acts, 1) == s;
    InitInv();
    SubmitInv(INIT, io, rc);
    assert s.boxes[0] == SenderBox(INIT, io, rc);
  }

  // ----- one sender through a raw pointer

  /** `completion`, `into_raw`, then `from_raw` and a send: the receiver is pending until the send
      and ready with exactly the value sent after it; dropping the rebuilt sender instead cancels it.
      The box is freed once, and a second `from_raw` is a fault. A value sent to a receiver already
      dropped is discarded. Nothing older is touched. */
  lemma RawRoundTrip(s: State, place: Place, r: Result)
    requires !s.fault && !place.Gone?
    ensures var c, p := |s.cells|, |s.boxes|;
            var given := IntoRaw(NewChannel(s), Sender(c), place, None);
            var taken := Free(given, p);
            var sent, dropped := Fire(taken, p, c, r), DropSender(taken, p, c);
            && Live(given, p) && Outcome(given, c) == None
            && !sent.fault && Outcome(sent, c) == Some(r) && sent.boxes[p].frees == 1
            && !dropped.fault && Outcome(dropped, c) == Some(Err(Cancelled)) && dropped.boxes[p].frees == 1
            && Free(sent, p).fault && Free(dropped, p).fault
            && (var unheard := Fire(DropReceiver(taken, c), p, c, r); !unheard.fault && unheard.cells[c].data == None)
            && sent.boxes[..p] == s.boxes && sent.cells[..c] == s.cells
  {
    var c, p := |s.cells|, |s.boxes|;
    var given := IntoRaw(NewChannel(s), Sender(c), place, None);
    assert given.boxes[p].place == place && given.cells[c] == Cell(p, None, false, false, None);
    var sent := Fire(Free(given, p), p, c, r);
    assert sent.boxes[..p] == s.boxes && sent.cells[..c] == s.cells;
  }

  /** The fault flag is not idle: a completion for a box that is already gone sets it. */
  lemma StaleCallbackFaults(s: State, io: Io, p: Ptr, success: bool)
    requires !Live(s, p)
    ensures DoCompleteIo(s.(device := s.device[io := p]), io, success).fault
  {
  }
}
