/** `block_on`: polling a receiver and the SPDK thread in turn. */
module BlockOn {
  import opened Strings
  import opened Protocol
  import opened ProtocolInvariant
  import opened ProtocolTheorems
  import opened Runtime

  /** The box that carries the sender of channel `c`. */
  function Carrier(s: State, c: Chan): Ptr
    requires c < |s.cells|
  {
    s.cells[c].carrier
  }

  /** The receiver of `c` is not dropped and has seen nothing, and its sender was not leaked:
      block I/O in flight, a closure queued anywhere, running, or kept by an event, or already done. */
  ghost predicate Awaits(s: State, c: Chan) {
    && c < |s.cells| && !s.cells[c].rxDone && s.cells[c].got.None?
    && Carrier(s, c) < |s.boxes| && !s.boxes[Carrier(s, c)].place.Leaked?
  }

  ghost predicate Pending(s: State, c: Chan) {
    Awaits(s, c) && Live(s, Carrier(s, c))
  }

  // ----- what time keeps

  /** From `s` to a later `t`, with the receiver of `c` left alone. */
  ghost predicate Since(s: State, t: State, c: Chan)
    requires c < |s.cells|
  {
    && Later(s, t)
    && c < |t.cells| && t.cells[c].rxDone == s.cells[c].rxDone && t.cells[c].got == s.cells[c].got
    && forall site ::
         At(s.posted, site) <= At(t.posted, site) && At(s.begun, site) <= At(t.begun, site)
  }

  lemma StepSince(s: State, a: Action, c: Chan)
    requires Inv(s) && c < |s.cells| && Enabled(s, a) && Actor(a) != Some(c)
    ensures Inv(Apply(s, a)) && Since(s, Apply(s, a), c)
  {
    StepInv(s, a);
    StepLater(s, a);
  }

  lemma SinceTrans(s: State, t: State, u: State, c: Chan)
    requires c < |s.cells| && Since(s, t, c) && Since(t, u, c)
    ensures Since(s, u, c)
  {
    LaterTrans(s, t, u);
    forall site
      ensures At(s.posted, site) <= At(u.posted, site) && At(s.begun, site) <= At(u.begun, site)
    {
      assert At(s.posted, site) <= At(t.posted, site) && At(s.begun, site) <= At(t.begun, site);
    }
  }

  lemma {:induction false} RunSince(s: State, acts: seq<Action>, c: Chan)
    requires Inv(s) && c < |s.cells| && Feasible(s, acts)
    requires LeavesAlone(acts, c)
    ensures Inv(Run(s, acts)) && Since(s, Run(s, acts), c)
    decreases |acts|
  {
    if acts != [] {
      var t := Apply(s, acts[0]);
      StepSince(s, acts[0], c);
      RunSince(t, acts[1..], c);
      SinceTrans(s, t, Run(s, acts), c);
    }
  }

  lemma AwaitsSince(s: State, t: State, c: Chan)
    requires Inv(s) && Inv(t) && Awaits(s, c) && Since(s, t, c)
    ensures Awaits(t, c) && Carrier(t, c) == Carrier(s, c)
  {
    assert CellLater(s, t, c) && BoxLater(s, t, Carrier(s, c));
    assert CellOk(t, c) && BoxOk(s, Carrier(s, c)) && BoxOk(t, Carrier(s, c));
  }

  // ----- how far a box is from its end

  function IndexOf(line: seq<Ptr>, p: Ptr): (i: nat)
    requires p in line
    ensures i < |line| && line[i] == p
  {
    if line[0] == p then 0 else 1 + IndexOf(line[1..], p)
  }

  predicate InFlight(s: State, q: Ptr) {
    q < |s.boxes| && s.boxes[q].place.Device?
  }

  /** The operations in flight that are no newer than box `p`. */
  function Older(s: State, p: Ptr): set<Ptr> {
    set q: Ptr | q <= p && InFlight(s, q)
  }

  /** The messages ahead of a queued closure; the operations in flight no newer than an operation. */
  function Ahead(s: State, p: Ptr): nat
    requires p < |s.boxes|
  {
    match s.boxes[p].place
    case Queued(site) => if p in At(s.lines, site) then IndexOf(At(s.lines, site), p) else 0
    case Device(_) => |Older(s, p)|
    case _ => 0
  }

  /** From `s` to `t` the world did something for box `p`: it took a message from the queue `p` is
      in, completed an operation no newer than `p`, or moved `p` itself. */
  ghost predicate Moved(s: State, t: State, p: Ptr)
    requires p < |s.boxes|
  {
    match s.boxes[p].place
    case Queued(site) => At(t.begun, site) != At(s.begun, site)
    case Device(_) => exists q: Ptr :: q in Older(s, p) && q !in Older(t, p)
    case place => p < |t.boxes| && t.boxes[p].place != place
  }

  lemma InRightPart(a: seq<Ptr>, b: seq<Ptr>, p: Ptr, k: nat)
    requires p !in a && k < |a + b| && (a + b)[k] == p
    ensures |a| <= k && b[k - |a|] == p
  {
    assert forall i :: 0 <= i < |a| ==> (a + b)[i] in a;
  }

  /** A queued closure has as many messages ahead as lie between it and those already taken. */
  lemma QueuePosition(s: State, p: Ptr, site: Site)
    requires Inv(s) && p < |s.boxes| && s.boxes[p].place == Queued(site)
    ensures var k := |At(s.begun, site)| + Ahead(s, p);
            k < |At(s.posted, site)| && At(s.posted, site)[k] == p
    ensures forall k :: 0 <= k < |At(s.posted, site)| && At(s.posted, site)[k] == p ==>
              k == |At(s.begun, site)| + Ahead(s, p)
  {
    assert BoxOk(s, p) && HeldOk(s, p) && LineOk(s, site);
    forall k | 0 <= k < |At(s.posted, site)| && At(s.posted, site)[k] == p
      ensures k == |At(s.begun, site)| + Ahead(s, p)
    {
      InRightPart(At(s.begun, site), At(s.lines, site), p, k);
    }
  }

  lemma QueueMoves(s: State, t: State, p: Ptr, site: Site)
    requires Inv(s) && Inv(t) && p < |s.boxes| && p < |t.boxes|
    requires s.boxes[p].place == Queued(site) && t.boxes[p].place == Queued(site)
    requires At(s.posted, site) <= At(t.posted, site) && At(s.begun, site) <= At(t.begun, site)
    ensures Ahead(t, p) <= Ahead(s, p)
    ensures Moved(s, t, p) ==> Ahead(t, p) < Ahead(s, p)
  {
    QueuePosition(s, p, site);
    QueuePosition(t, p, site);
    var k := |At(s.begun, site)| + Ahead(s, p);
    assert At(t.posted, site)[k] == At(s.posted, site)[k];
  }

  lemma SmallerSet<T>(a: set<T>, b: set<T>)
    requires a <= b
    ensures |a| <= |b|
    ensures a != b ==> |a| < |b|
  {
    assert b == a + (b - a);
    assert a != b ==> b - a != {};
  }

  lemma DeviceMoves(s: State, t: State, p: Ptr)
    requires Later(s, t) && p < |s.boxes| && p < |t.boxes|
    requires InFlight(s, p) && InFlight(t, p)
    requires forall q: Ptr :: q < |s.boxes| && InFlight(t, q) ==> InFlight(s, q)
    ensures Ahead(t, p) <= Ahead(s, p)
    ensures Moved(s, t, p) ==> Ahead(t, p) < Ahead(s, p)
  {
    SmallerSet(Older(t, p), Older(s, p));
  }

  /** What is in flight later and existed before was in flight before. */
  lemma NoOldSubmissions(s: State, t: State)
    requires Inv(s) && Inv(t) && Later(s, t)
    ensures forall q: Ptr :: q < |s.boxes| && InFlight(t, q) ==> InFlight(s, q)
  {
    forall q: Ptr | q < |s.boxes| && InFlight(t, q)
      ensures InFlight(s, q)
    {
      assert BoxLater(s, t, q) && BoxOk(s, q) && BoxOk(t, q);
    }
  }

  /** The measure of `block_on` never grows, and shrinks with every move. */
  lemma Progress(s: State, t: State, c: Chan)
    requires Inv(s) && Inv(t) && Pending(s, c) && Since(s, t, c)
    ensures var p := Carrier(s, c);
            && p < |t.boxes|
            && var before, after := Stage(s.boxes[p].place), Stage(t.boxes[p].place);
            || after < before
            || (after == before && Ahead(t, p) <= Ahead(s, p) && (Moved(s, t, p) ==> Ahead(t, p) < Ahead(s, p)))
  {
    var p := Carrier(s, c);
    assert BoxLater(s, t, p);
    if Stage(t.boxes[p].place) == Stage(s.boxes[p].place) {
      match s.boxes[p].place
      case Queued(site) => QueueMoves(s, t, p, site);
      case Device(_) =>
        NoOldSubmissions(s, t);
        DeviceMoves(s, t, p);
      case _ =>
    }
  }

  // ----- the scheduler

  /** What happens during the `n`-th `thread.poll()`, begun in a state: any interleaving of actions. */
  type Scheduler = (nat, State) -> seq<Action>

  /** A bound on the polls until the next move. */
  type Patience = (nat, State) -> nat

  /** The states a wait can be in. */
  type Phase = (nat, State) -> bool

  /** What one poll may amount to: anything feasible that leaves the awaited receiver alone, and
      that moves the awaited box or brings the next move nearer. */
  ghost predicate FairPoll(env: Scheduler, wait: Patience, during: Phase, c: Chan, n: nat, s: State)
    requires Pending(s, c)
  {
    && Feasible(s, env(n, s)) && LeavesAlone(env(n, s), c)
    && var t := Run(s, env(n, s));
    during(n + 1, t) && (Moved(s, t, Carrier(s, c)) || wait(n + 1, t) < wait(n, s))
  }

  predicate LeavesAlone(acts: seq<Action>, c: Chan) {
    forall a :: a in acts ==> Actor(a) != Some(c)
  }

  /** Weak fairness: as long as the receiver is pending, some later poll makes a move. */
  ghost predicate Fair(env: Scheduler, wait: Patience, during: Phase, c: Chan) {
    forall n: nat, s: State :: Inv(s) && Pending(s, c) && during(n, s) ==> FairPoll(env, wait, during, c, n, s)
  }

  // ----- schedulers that are fair

  /** A poll takes at least one message queued on the thread, and runs those it takes to their end. */
  ghost predicate BusyPoll(env: Scheduler, thread: nat, c: Chan, n: nat, s: State) {
    var site := OnThread(thread);
    && Feasible(s, env(n, s)) && LeavesAlone(env(n, s), c)
    && var t := Run(s, env(n, s));
    && |At(s.begun, site)| < |At(t.begun, site)|
    && forall k :: |At(s.begun, site)| <= k < |At(t.begun, site)| ==> !Live(t, At(t.begun, site)[k])
  }

  ghost predicate Busy(env: Scheduler, thread: nat, c: Chan) {
    forall n: nat, s: State :: Inv(s) && At(s.lines, OnThread(thread)) != [] ==> BusyPoll(env, thread, c, n, s)
  }

  /** A wait for a closure queued on `thread`. */
  ghost function ForMessage(thread: nat, c: Chan): Phase {
    (n: nat, s: State) =>
      c < |s.cells| && Carrier(s, c) < |s.boxes|
      && (s.boxes[Carrier(s, c)].place == Queued(OnThread(thread)) || s.boxes[Carrier(s, c)].place.Gone?)
  }

  /** No idle polls. */
  function NoPatience(): Patience {
    (n: nat, s: State) => 0
  }

  /** If every poll runs at least one queued message, the wait for a queued closure is fair. */
  lemma BusyIsFair(env: Scheduler, thread: nat, c: Chan)
    requires Busy(env, thread, c)
    ensures Fair(env, NoPatience(), ForMessage(thread, c), c)
  {
    forall n: nat, s: State | Inv(s) && Pending(s, c) && ForMessage(thread, c)(n, s)
      ensures FairPoll(env, NoPatience(), ForMessage(thread, c), c, n, s)
    {
      var site, p := OnThread(thread), Carrier(s, c);
      assert BoxOk(s, p) && HeldOk(s, p);
      assert BusyPoll(env, thread, c, n, s);
      RunSince(s, env(n, s), c);
      AwaitsSince(s, Run(s, env(n, s)), c);
      RunsToEnd(s, Run(s, env(n, s)), p, site);
    }
  }

  lemma RunsToEnd(s: State, t: State, p: Ptr, site: Site)
    requires Inv(s) && Inv(t) && Later(s, t) && At(s.begun, site) <= At(t.begun, site)
    requires p < |s.boxes| && s.boxes[p].place == Queued(site)
    requires forall k :: |At(s.begun, site)| <= k < |At(t.begun, site)| ==> !Live(t, At(t.begun, site)[k])
    ensures p < |t.boxes| && (t.boxes[p].place == Queued(site) || t.boxes[p].place.Gone?)
  {
    assert BoxLater(s, t, p) && BoxOk(s, p) && BoxOk(t, p) && LineOk(s, site);
    if t.boxes[p].ran != [] {
      var k :| 0 <= k < |At(t.begun, site)| && At(t.begun, site)[k] == p;
      assert forall i :: 0 <= i < |At(s.begun, site)| ==> At(t.begun, site)[i] in At(s.begun, site);
    }
  }

  /** Runs the first message queued on the thread, and nothing else. */
  function Serial(thread: nat): Scheduler {
    (n: nat, s: State) =>
      var line := At(s.lines, OnThread(thread));
      if line == [] then [] else [Begin(OnThread(thread)), Finish(line[0], 0)]
  }

  lemma SerialIsBusy(thread: nat, c: Chan)
    ensures Busy(Serial(thread), thread, c)
  {
    forall n: nat, s: State | Inv(s) && At(s.lines, OnThread(thread)) != []
      ensures BusyPoll(Serial(thread), thread, c, n, s)
    {
      SerialPoll(s, thread, c, n);
    }
  }

  lemma SerialPoll(s: State, thread: nat, c: Chan, n: nat)
    requires Inv(s) && At(s.lines, OnThread(thread)) != []
    ensures BusyPoll(Serial(thread), thread, c, n, s)
  {
    var site := OnThread(thread);
    var p := At(s.lines, site)[0];
    MessageRuns(s, site, p);
    TwoActions(s, Begin(site), Finish(p, 0));
    assert At(Run(s, Serial(thread)(n, s)).begun, site) == At(s.begun, site) + [p];
  }

  lemma MessageRuns(s: State, site: Site, p: Ptr)
    requires Inv(s) && At(s.lines, site) != [] && p == At(s.lines, site)[0]
    ensures var t := Apply(s, Begin(site));
            && Enabled(t, Finish(p, 0))
            && var u := Apply(t, Finish(p, 0));
            At(u.begun, site) == At(s.begun, site) + [p] && !Live(u, p)
  {
    BeginInv(s, site);
    FinishInv(Apply(s, Begin(site)), p, 0);
  }

  /** A poll completes the oldest operation in flight. */
  ghost predicate OldestFirstPoll(env: Scheduler, c: Chan, n: nat, s: State) {
    && Feasible(s, env(n, s)) && LeavesAlone(env(n, s), c)
    && exists q: Ptr :: InFlight(s, q) && !InFlight(Run(s, env(n, s)), q)
                        && forall other: Ptr :: InFlight(s, other) ==> q <= other
  }

  ghost predicate OldestFirst(env: Scheduler, c: Chan) {
    forall n: nat, s: State :: Inv(s) && s.device != map[] ==> OldestFirstPoll(env, c, n, s)
  }

  /** A wait for block I/O. */
  ghost function ForIo(c: Chan): Phase {
    (n: nat, s: State) =>
      c < |s.cells| && Carrier(s, c) < |s.boxes|
      && (s.boxes[Carrier(s, c)].place.Device? || s.boxes[Carrier(s, c)].place.Gone?)
  }

  /** If every poll completes the oldest operation, the wait for any operation is fair. */
  lemma OldestFirstIsFair(env: Scheduler, c: Chan)
    requires OldestFirst(env, c)
    ensures Fair(env, NoPatience(), ForIo(c), c)
  {
    forall n: nat, s: State | Inv(s) && Pending(s, c) && ForIo(c)(n, s)
      ensures FairPoll(env, NoPatience(), ForIo(c), c, n, s)
    {
      var p := Carrier(s, c);
      assert BoxOk(s, p) && HeldOk(s, p) && InFlight(s, p);
      assert OldestFirstPoll(env, c, n, s);
      var t := Run(s, env(n, s));
      RunSince(s, env(n, s), c);
      AwaitsSince(s, t, c);
      assert BoxLater(s, t, p) && BoxOk(t, p);
      var q: Ptr :| InFlight(s, q) && !InFlight(t, q) && forall other: Ptr :: InFlight(s, other) ==> q <= other;
      assert q in Older(s, p) && q !in Older(t, p);
    }
  }

  /** The oldest operation in flight from box `q` on. */
  function OldestFrom(boxes: seq<Box>, q: Ptr): Option<Ptr>
    decreases |boxes| - q
  {
    if q >= |boxes| then None
    else if boxes[q].place.Device? then Some(q)
    else OldestFrom(boxes, q + 1)
  }

  lemma {:induction false} OldestIsFirst(s: State, from: Ptr)
    ensures var o := OldestFrom(s.boxes, from);
            && (o.Some? ==> from <= o.value && InFlight(s, o.value))
            && forall q: Ptr :: from <= q && InFlight(s, q) ==> o.Some? && o.value <= q
    decreases |s.boxes| - from
  {
    if from < |s.boxes| && !s.boxes[from].place.Device? {
      OldestIsFirst(s, from + 1);
    }
  }

  /** Completes the oldest operation in flight, and nothing else. */
  function Oldest(): Scheduler {
    (n: nat, s: State) =>
      match OldestFrom(s.boxes, 0)
      case None => []
      case Some(q) =>
        if q < |s.boxes| && s.boxes[q].place.Device? then [CompleteIo(s.boxes[q].place.io, true)] else []
  }

  lemma OldestIsOldestFirst(c: Chan)
    ensures OldestFirst(Oldest(), c)
  {
    forall n: nat, s: State | Inv(s) && s.device != map[]
      ensures OldestFirstPoll(Oldest(), c, n, s)
    {
      OldestPoll(s, c, n);
    }
  }

  lemma OldestPoll(s: State, c: Chan, n: nat)
    requires Inv(s) && s.device != map[]
    ensures OldestFirstPoll(Oldest(), c, n, s)
  {
    OldestIsFirst(s, 0);
    var some :| some in s.device;
    assert InFlight(s, s.device[some]);
    var q := OldestFrom(s.boxes, 0).value;
    assert BoxOk(s, q) && HeldOk(s, q);
    var a := CompleteIo(s.boxes[q].place.io, true);
    CompleteIoInv(s, a.io, true);
    OneAction(s, a);
    assert !InFlight(Apply(s, a), q);
  }

  /** One action for the awaited box: run the next message of its queue, complete its operation,
      dispatch its event, let its closure return. */
  function Nudge(c: Chan): Scheduler {
    (n: nat, s: State) =>
      if c >= |s.cells| || Carrier(s, c) >= |s.boxes| then []
      else
        match s.boxes[Carrier(s, c)].place
        case Queued(site) => [Begin(site)]
        case Device(io) => [CompleteIo(io, true)]
        case Handle(ev) => [CallEvent(ev)]
        case Running(_) => [Finish(Carrier(s, c), 0)]
        case _ => []
  }

  ghost function Always(): Phase {
    (n: nat, s: State) => true
  }

  /** Fairness can be had for every receiver in every state. */
  lemma NudgeIsFair(c: Chan)
    ensures Fair(Nudge(c), NoPatience(), Always(), c)
  {
    forall n: nat, s: State | Inv(s) && Pending(s, c)
      ensures FairPoll(Nudge(c), NoPatience(), Always(), c, n, s)
    {
      NudgeMoves(s, c, n);
    }
  }

  lemma NudgeMoves(s: State, c: Chan, n: nat)
    requires Inv(s) && Pending(s, c)
    ensures FairPoll(Nudge(c), NoPatience(), Always(), c, n, s)
  {
    var p, a := Carrier(s, c), Nudge(c)(n, s)[0];
    NudgeEffect(s, p, a);
    OneAction(s, a);
  }

  lemma NudgeEffect(s: State, p: Ptr, a: Action)
    requires Inv(s) && p < |s.boxes| && Live(s, p) && !s.boxes[p].place.Leaked?
    requires match s.boxes[p].place {
               case Queued(site) => a == Begin(site)
               case Device(io) => a == CompleteIo(io, true)
               case Handle(ev) => a == CallEvent(ev)
               case Running(_) => a == Finish(p, 0)
               case _ => false
             }
    ensures Enabled(s, a) && Moved(s, Apply(s, a), p) && Actor(a).None?
  {
    assert BoxOk(s, p) && HeldOk(s, p);
    match s.boxes[p].place
    case Queued(site) =>
      BeginInv(s, site);
      assert |At(Apply(s, a).begun, site)| == |At(s.begun, site)| + 1;
    case Device(io) =>
      CompleteIoInv(s, io, true);
      assert p in Older(s, p) && p !in Older(Apply(s, a), p);
    case Handle(ev) => CallEventInv(s, ev);
    case Running(_) => FinishInv(s, p, 0);
  }

  // ----- block_on

  /** `block_on(receiver)`, for a receiver of any operation or closure: it returns exactly what the
      callback of the box sent, `Cancelled` if and only if the sender was dropped unsent, and a
      closure's reply only after the closure ran where it was addressed. It terminates under weak
      fairness; the measure is the place of the box, then the messages or operations ahead of it. */
  method BlockOn(sh: Shared, c: Chan, env: Scheduler, ghost wait: Patience, ghost during: Phase)
    returns (r: Result)
    requires Inv(sh.View()) && Awaits(sh.View(), c)
    requires Fair(env, wait, during, c) && during(0, sh.View())
    modifies sh
    ensures Inv(sh.View())
    ensures c < |sh.cells| && sh.cells[c].carrier == old(sh.cells[c].carrier) < |sh.boxes|
    ensures var b := sh.boxes[sh.cells[c].carrier];
            && sh.cells[c].got == Some(r)
            && b.result == (if r == Err(Cancelled) then None else Some(r))
            && (r == Err(Cancelled) <==> b.unsent)
            && (b.payload.Reply? && r != Err(Cancelled) ==> b.target.Some? && b.ran == [b.target.value])
  {
    var n := 0;
    while true
      invariant Inv(sh.View()) && Awaits(sh.View(), c) && during(n, sh.View())
      invariant sh.cells[c].carrier == old(sh.cells[c].carrier)
      decreases Stage(sh.boxes[sh.cells[c].carrier].place), Ahead(sh.View(), sh.cells[c].carrier), wait(n, sh.View())
    {
      FirstPoll(sh.View(), c);
      PollRxInv(sh.View(), c);
      ghost var s := sh.View();
      assert BoxOk(s, Carrier(s, c)) && CellOk(s, c);
      var outcome := sh.RxPoll(c);
      match outcome
      case Some(result) =>
        return result;
      case None =>
        assert sh.View() == s && FairPoll(env, wait, during, c, n, s);
        ghost var t := Run(s, env(n, s));
        RunSince(s, env(n, s), c);
        AwaitsSince(s, t, c);
        Progress(s, t, c);
        sh.PerformAll(env(n, sh.View()));
        n := n + 1;
    }
  }
}
