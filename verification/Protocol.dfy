/** The callback-to-future and closure-ownership protocol as a transition system.

    Boxed senders and boxed closures leave Rust as raw pointers, wait in foreign places (device
    operations, message queues, event objects) and are rebuilt in callbacks. Every source function
    that touches a box is one action, and the actions of all threads, of the device and of the
    receivers' owners interleave freely. A box that was reclaimed stays in the table, in place
    `Gone`, so that touching it again shows as a fault. */
module Protocol {
  import opened Strings

  type Ptr = nat   // index of a box
  type Chan = nat  // index of a oneshot channel
  type Io = nat    // a bdev_io of the device
  type Ev = nat    // an SpdkEvent value

  datatype Error = IoError | Cancelled | Os(code: int) | InvalidArgument

  datatype Result = Ok(value: int) | Err(error: Error)

  /** Where queued closures run: the SPDK thread or the reactor that polls the queue. */
  datatype Site = OnThread(id: nat) | OnReactor(lcore: nat)

  /** A boxed oneshot sender, a boxed closure, or a boxed closure that owns the sender for its result. */
  datatype Payload = Sender(chan: Chan) | Plain | Reply(chan: Chan)

  datatype Place =
    | Device(io: Io)       // callback argument of an operation in flight
    | Leaked               // callback argument of a refused submission: nobody has it
    | Handle(ev: Ev)       // closure_ptr of an event not yet dispatched
    | Queued(site: Site)   // context of a queued message
    | Running(site: Site)  // rebuilt by the callback, executing
    | Gone                 // destroyed

  /** A box with its past: how often it was freed, its operation's bdev_io freed, where its
      closure was addressed and ran, what its callback sent, whether its sender was dropped unused. */
  datatype Box = Box(
    payload: Payload, place: Place, target: Option<Site>,
    frees: nat, ioFrees: nat, ran: seq<Site>, result: Option<Result>, unsent: bool)

  /** A oneshot channel: the box that carries its sender, its slot, whether each end is gone, and
      the first outcome its receiver saw. */
  datatype Cell = Cell(carrier: Ptr, data: Option<Result>, txDone: bool, rxDone: bool, got: Option<Result>)

  /** An `SpdkEvent` value not yet dispatched: its core and its `closure_ptr`. */
  datatype Event = Event(lcore: nat, ptr: Ptr)

  datatype State = State(
    boxes: seq<Box>,
    cells: seq<Cell>,
    device: map<Io, Ptr>,
    lines: map<Site, seq<Ptr>>,
    events: map<Ev, Event>,
    posted: map<Site, seq<Ptr>>,  // all messages a queue accepted, in order
    begun: map<Site, seq<Ptr>>,   // all messages taken from it, in order
    fault: bool)                  // a raw pointer was used that is not a live box of the right sort

  const INIT := State([], [], map[], map[], map[], map[], map[], false)

  function At(m: map<Site, seq<Ptr>>, site: Site): seq<Ptr> {
    if site in m then m[site] else []
  }

  function ChanOf(payload: Payload): Option<Chan> {
    match payload
    case Sender(c) => Some(c)
    case Plain => None
    case Reply(c) => Some(c)
  }

  predicate Live(s: State, p: Ptr) {
    p < |s.boxes| && s.boxes[p].place != Gone
  }

  // ----- primitives

  /** `completion()`, its sender about to move into the next box. */
  function NewChannel(s: State): State {
    s.(cells := s.cells + [Cell(|s.boxes|, None, false, false, None)])
  }

  /** `Box::into_raw(Box::new(..))` */
  function IntoRaw(s: State, payload: Payload, place: Place, target: Option<Site>): State {
    s.(boxes := s.boxes + [Box(payload, place, target, 0, 0, [], None, false)])
  }

  /** The end of a box rebuilt with `Box::from_raw`. */
  function Free(s: State, p: Ptr): State {
    if Live(s, p) then s.(boxes := s.boxes[p := s.boxes[p].(place := Gone, frees := s.boxes[p].frees + 1)])
    else s.(fault := true)
  }

  /** `tx.send(r)` by the callback of box `p`: the value for a dropped receiver is discarded. */
  function Fire(s: State, p: Ptr, c: Chan, r: Result): State {
    if p < |s.boxes| && c < |s.cells| && !s.cells[c].txDone then
      var data := if s.cells[c].rxDone then s.cells[c].data else Some(r);
      s.(boxes := s.boxes[p := s.boxes[p].(result := Some(r))],
         cells := s.cells[c := s.cells[c].(data := data, txDone := true)])
    else s.(fault := true)
  }

  /** A sender dropped without sending. */
  function DropSender(s: State, p: Ptr, c: Chan): State {
    if p < |s.boxes| && c < |s.cells| && !s.cells[c].txDone then
      s.(boxes := s.boxes[p := s.boxes[p].(unsent := true)],
         cells := s.cells[c := s.cells[c].(txDone := true)])
    else s.(fault := true)
  }

  /** Destroys box `p` without running it; a sender inside is dropped unsent. */
  function Discard(s: State, p: Ptr): State {
    if !Live(s, p) then s.(fault := true)
    else
      match ChanOf(s.boxes[p].payload)
      case None => Free(s, p)
      case Some(c) => DropSender(Free(s, p), p, c)
  }

  function DropReceiver(s: State, c: Chan): State
    requires c < |s.cells|
  {
    s.(cells := s.cells[c := s.cells[c].(rxDone := true)])
  }

  function Appended(m: map<Site, seq<Ptr>>, site: Site, p: Ptr): map<Site, seq<Ptr>> {
    m[site := At(m, site) + [p]]
  }

  /** Hands box `p` to the queue of `site`. */
  function Enqueue(s: State, site: Site, p: Ptr): State {
    s.(lines := Appended(s.lines, site, p), posted := Appended(s.posted, site, p))
  }

  // ----- actions

  datatype Action =
    | Submit(io: Io, rc: int)                                  // BdevDesc::read / write
    | CompleteIo(io: Io, success: bool)                        // bdev_io_completion_cb
    | PollRx(c: Chan)                                          // CompletionReceiver::poll
    | DropRx(c: Chan)
    | Send(thread: nat, reply: bool)                           // ThreadHandle::send / call
    | NewEvent(lcore: nat, ev: Ev, granted: bool, reply: bool) // SpdkEvent::new
    | CallEvent(ev: Ev)                                        // SpdkEvent::call
    | DropEvent(ev: Ev)                                        // SpdkEvent::drop
    | Begin(site: Site)                                        // msg_callback / event_trampoline: rebuild and start
    | Finish(p: Ptr, value: int)                               // ... the closure returns `value`

  predicate Enabled(s: State, a: Action) {
    match a
    case Submit(io, rc) => rc == 0 ==> io !in s.device
    case CompleteIo(io, _) => io in s.device
    case PollRx(c) => c < |s.cells| && !s.cells[c].rxDone
    case DropRx(c) => c < |s.cells| && !s.cells[c].rxDone
    case Send(_, _) => true
    case NewEvent(_, ev, _, _) => ev !in s.events
    case CallEvent(ev) => ev in s.events
    case DropEvent(ev) => ev in s.events
    case Begin(site) => At(s.lines, site) != []
    case Finish(p, _) => p < |s.boxes| && s.boxes[p].place.Running?
  }

  /** What polling the receiver of `c` returns; `None` is `Pending`. */
  function Outcome(s: State, c: Chan): Option<Result>
    requires c < |s.cells|
  {
    if !s.cells[c].txDone then None
    else Some(s.cells[c].data.GetOr(Err(Cancelled)))
  }

  function DoSubmit(s: State, io: Io, rc: int): State {
    var c, p := |s.cells|, |s.boxes|;
    var t := NewChannel(s);
    if rc == 0 then
      var u := IntoRaw(t, Sender(c), Device(io), None);
      u.(device := u.device[io := p])
    else
      DropReceiver(IntoRaw(t, Sender(c), Leaked, None), c)
  }

  function DoCompleteIo(s: State, io: Io, success: bool): State
    requires io in s.device
  {
    var p := s.device[io];
    if Live(s, p) && s.boxes[p].payload.Sender? then
      var t := s.(device := s.device - {io}, boxes := s.boxes[p := s.boxes[p].(ioFrees := s.boxes[p].ioFrees + 1)]);
      Fire(Free(t, p), p, s.boxes[p].payload.chan, if success then Ok(0) else Err(IoError))
    else s.(fault := true)
  }

  function DoPollRx(s: State, c: Chan): State
    requires c < |s.cells|
  {
    var cell := s.cells[c];
    match Outcome(s, c)
    case None => s
    case Some(r) =>
      s.(cells := s.cells[c := cell.(data := None, got := if cell.got.Some? then cell.got else Some(r))])
  }

  /** A new boxed closure, with a channel for its result if it replies. */
  function NewClosure(s: State, place: Place, target: Option<Site>, reply: bool): State {
    if reply then IntoRaw(NewChannel(s), Reply(|s.cells|), place, target)
    else IntoRaw(s, Plain, place, target)
  }

  function DoSend(s: State, thread: nat, reply: bool): State {
    var site := OnThread(thread);
    Enqueue(NewClosure(s, Queued(site), Some(site), reply), site, |s.boxes|)
  }

  function DoNewEvent(s: State, lcore: nat, ev: Ev, granted: bool, reply: bool): State {
    var t, p := NewClosure(s, Handle(ev), Some(OnReactor(lcore)), reply), |s.boxes|;
    if granted then t.(events := t.events[ev := Event(lcore, p)]) else Discard(t, p)
  }

  function DoCallEvent(s: State, ev: Ev): State
    requires ev in s.events
  {
    var p, site := s.events[ev].ptr, OnReactor(s.events[ev].lcore);
    if Live(s, p) then
      Enqueue(s.(events := s.events - {ev}, boxes := s.boxes[p := s.boxes[p].(place := Queued(site))]), site, p)
    else s.(fault := true)
  }

  function DoDropEvent(s: State, ev: Ev): State
    requires ev in s.events
  {
    Discard(s.(events := s.events - {ev}), s.events[ev].ptr)
  }

  function DoBegin(s: State, site: Site): State
    requires At(s.lines, site) != []
  {
    var line := At(s.lines, site);
    var p := line[0];
    if Live(s, p) && !s.boxes[p].payload.Sender? then
      s.(lines := s.lines[site := line[1..]],
         begun := Appended(s.begun, site, p),
         boxes := s.boxes[p := s.boxes[p].(place := Running(site), ran := s.boxes[p].ran + [site])])
    else s.(fault := true)
  }

  function DoFinish(s: State, p: Ptr, value: int): State
    requires p < |s.boxes|
  {
    match s.boxes[p].payload
    case Reply(c) => Fire(Free(s, p), p, c, Ok(value))
    case _ => Free(s, p)
  }

  function Apply(s: State, a: Action): State
    requires Enabled(s, a)
  {
    match a
    case Submit(io, rc) => DoSubmit(s, io, rc)
    case CompleteIo(io, success) => DoCompleteIo(s, io, success)
    case PollRx(c) => DoPollRx(s, c)
    case DropRx(c) => DropReceiver(s, c)
    case Send(thread, reply) => DoSend(s, thread, reply)
    case NewEvent(lcore, ev, granted, reply) => DoNewEvent(s, lcore, ev, granted, reply)
    case CallEvent(ev) => DoCallEvent(s, ev)
    case DropEvent(ev) => DoDropEvent(s, ev)
    case Begin(site) => DoBegin(s, site)
    case Finish(p, value) => DoFinish(s, p, value)
  }

  predicate Feasible(s: State, acts: seq<Action>)
    decreases |acts|
  {
    acts == [] || (Enabled(s, acts[0]) && Feasible(Apply(s, acts[0]), acts[1..]))
  }

  function Run(s: State, acts: seq<Action>): State
    requires Feasible(s, acts)
    decreases |acts|
  {
    if acts == [] then s else Run(Apply(s, acts[0]), acts[1..])
  }
}
