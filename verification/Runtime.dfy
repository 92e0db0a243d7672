/** The source functions that touch boxes, as methods that update the shared state in place. Each
    top-level method has the effect of one protocol action (or of two, for `call_on_async`), so the
    theorems about interleavings of actions are theorems about interleavings of these calls. */
module Runtime {
  import opened Strings
  import opened Protocol
  import opened ProtocolInvariant

  /** An `SpdkEvent` value: `closurePtr` is null from `call` on. */
  datatype SpdkEvent = SpdkEvent(lcore: nat, closurePtr: Option<Ptr>)

  /** The events that still own their closure. */
  function Owning(handles: map<Ev, SpdkEvent>): map<Ev, Event> {
    map ev | ev in handles && handles[ev].closurePtr.Some? ::
      Event(handles[ev].lcore, handles[ev].closurePtr.value)
  }

  /** Writing a handle puts its event among the owning ones, or takes it out. */
  lemma OwningAfter(handles: map<Ev, SpdkEvent>, ev: Ev, e: SpdkEvent)
    ensures Owning(handles[ev := e]) ==
            match e.closurePtr {
              case Some(p) => Owning(handles)[ev := Event(e.lcore, p)]
              case None => Owning(handles) - {ev}
            }
    ensures Owning(handles - {ev}) == Owning(handles) - {ev}
  {
  }

  class Shared {
    var boxes: seq<Box>
    var cells: seq<Cell>
    var device: map<Io, Ptr>
    var lines: map<Site, seq<Ptr>>
    var handles: map<Ev, SpdkEvent>
    var posted: map<Site, seq<Ptr>>
    var begun: map<Site, seq<Ptr>>

    function View(): State
      reads this
    {
      State(boxes, cells, device, lines, Owning(handles), posted, begun, false)
    }

    constructor ()
      ensures View() == INIT && Inv(View())
    {
      boxes, cells, device, lines, handles, posted, begun := [], [], map[], map[], map[], map[], map[];
    }

    // ----- complete.rs

    /** `completion()` */
    method Completion() returns (c: Chan)
      modifies this`cells
      ensures c == |old(cells)| && View() == NewChannel(old(View()))
    {
      c := |cells|;
      cells := cells + [Cell(|boxes|, None, false, false, None)];
    }

    /** `CompletionSender::into_raw`, and `Box::into_raw` of a boxed closure. */
    method BoxIntoRaw(payload: Payload, place: Place, target: Option<Site>) returns (p: Ptr)
      modifies this`boxes
      ensures p == |old(boxes)| && View() == IntoRaw(old(View()), payload, place, target)
    {
      p := |boxes|;
      boxes := boxes + [Box(payload, place, target, 0, 0, [], None, false)];
    }

    /** `CompletionSender::from_raw`, and the drop of a rebuilt `Box`: the pointer must be a box
        that was not rebuilt before. */
    method BoxFromRaw(p: Ptr) returns (payload: Payload)
      requires Live(View(), p)
      modifies this`boxes
      ensures payload == old(boxes[p].payload) && View() == Free(old(View()), p)
    {
      payload := boxes[p].payload;
      boxes := boxes[p := boxes[p].(place := Gone, frees := boxes[p].frees + 1)];
    }

    /** `CompletionSender::{complete, success, error}` */
    method TxSend(p: Ptr, c: Chan, r: Result)
      requires p < |boxes| && c < |cells| && !cells[c].txDone
      modifies this`boxes, this`cells
      ensures View() == Fire(old(View()), p, c, r)
    {
      if !cells[c].rxDone {
        cells := cells[c := cells[c].(data := Some(r))];
      }
      cells := cells[c := cells[c].(txDone := true)];
      boxes := boxes[p := boxes[p].(result := Some(r))];
    }

    /** A sender going out of scope unused. */
    method TxDrop(p: Ptr, c: Chan)
      requires p < |boxes| && c < |cells| && !cells[c].txDone
      modifies this`boxes, this`cells
      ensures View() == DropSender(old(View()), p, c)
    {
      cells := cells[c := cells[c].(txDone := true)];
      boxes := boxes[p := boxes[p].(unsent := true)];
    }

    /** `CompletionReceiver::poll` */
    method RxPoll(c: Chan) returns (r: Option<Result>)
      requires c < |cells| && !cells[c].rxDone
      modifies this`cells
      ensures r == Outcome(old(View()), c) && View() == Apply(old(View()), PollRx(c))
    {
      var cell := cells[c];
      if !cell.txDone {
        return None;
      }
      r := match cell.data
           case Some(result) => Some(result)
           case None => Some(Err(Cancelled));
      cells := cells[c := cell.(data := None, got := if cell.got.Some? then cell.got else r)];
    }

    method RxDrop(c: Chan)
      requires c < |cells| && !cells[c].rxDone
      modifies this`cells
      ensures View() == Apply(old(View()), DropRx(c))
    {
      cells := cells[c := cells[c].(rxDone := true)];
    }

    // ----- bdev.rs

    /** `BdevDesc::read` and `write` up to the await: `rc` is the answer of the submit call, which
        on success calls the operation `io`. */
    method BdevSubmit(io: Io, rc: int) returns (rx: Option<Chan>)
      requires Inv(View()) && (rc == 0 ==> io !in device)
      modifies this
      ensures Inv(View()) && View() == Apply(old(View()), Submit(io, rc))
      ensures rx == if rc == 0 then Some(|old(cells)|) else None
    {
      SubmitInv(View(), io, rc);
      var c := Completion();
      var arg := BoxIntoRaw(Sender(c), if rc == 0 then Device(io) else Leaked, None);
      if rc != 0 {
        RxDrop(c);
        return None;
      }
      device := device[io := arg];
      return Some(c);
    }

    /** `spdk_bdev_free_io`: the operation is over. */
    method FreeIo(io: Io)
      requires io in device && device[io] < |boxes|
      modifies this`device, this`boxes
      ensures var s, p := old(View()), old(device[io]);
              View() == s.(device := s.device - {io},
                           boxes := s.boxes[p := s.boxes[p].(ioFrees := s.boxes[p].ioFrees + 1)])
    {
      var p := device[io];
      device := device - {io};
      boxes := boxes[p := boxes[p].(ioFrees := boxes[p].ioFrees + 1)];
    }

    /** `bdev_io_completion_cb` */
    method BdevIoCompletionCb(io: Io, success: bool)
      requires Inv(View()) && io in device
      modifies this
      ensures Inv(View()) && View() == Apply(old(View()), CompleteIo(io, success))
    {
      ghost var s := View();
      var arg := device[io];
      OwesAnswer(s, arg);
      FreeIo(io);
      var tx := BoxFromRaw(arg);
      if success {
        TxSend(arg, tx.chan, Ok(0));
      } else {
        TxSend(arg, tx.chan, Err(IoError));
      }
      assert View() == DoCompleteIo(s, io, success);
      CompleteIoInv(s, io, success);
    }

    // ----- thread.rs

    method SendMsg(site: Site, ctx: Ptr)
      modifies this`lines, this`posted
      ensures View() == Enqueue(old(View()), site, ctx)
    {
      lines := lines[site := At(lines, site) + [ctx]];
      posted := posted[site := At(posted, site) + [ctx]];
    }

    /** `ThreadHandle::send` */
    method ThreadSend(thread: nat)
      requires Inv(View())
      modifies this
      ensures Inv(View()) && View() == Apply(old(View()), Send(thread, false))
    {
      SendInv(View(), thread, false);
      var site := OnThread(thread);
      var ctx := BoxIntoRaw(Plain, Queued(site), Some(site));
      SendMsg(site, ctx);
    }

    /** `ThreadHandle::call` */
    method ThreadCall(thread: nat) returns (rx: Chan)
      requires Inv(View())
      modifies this
      ensures rx == |old(cells)|
      ensures Inv(View()) && View() == Apply(old(View()), Send(thread, true))
    {
      SendInv(View(), thread, true);
      var site := OnThread(thread);
      rx := Completion();
      var ctx := BoxIntoRaw(Reply(rx), Queued(site), Some(site));
      SendMsg(site, ctx);
    }

    // ----- event.rs

    /** A boxed closure that never runs: its sender, if any, goes with it. */
    method DropClosure(p: Ptr)
      requires Live(View(), p)
      requires ChanOf(boxes[p].payload).Some? ==>
        ChanOf(boxes[p].payload).value < |cells| && !cells[ChanOf(boxes[p].payload).value].txDone
      modifies this`boxes, this`cells
      ensures View() == Discard(old(View()), p)
    {
      var payload := BoxFromRaw(p);
      match ChanOf(payload)
      case None =>
      case Some(c) => TxDrop(p, c);
    }

    /** `SpdkEvent::new`; `granted` says whether SPDK could allocate the event. */
    method EventNew(lcore: nat, ev: Ev, granted: bool, reply: bool) returns (ok: bool)
      requires Inv(View()) && ev !in View().events
      modifies this
      ensures ok == granted
      ensures Inv(View()) && View() == Apply(old(View()), NewEvent(lcore, ev, granted, reply))
    {
      ghost var s := View();
      var arg := BoxClosure(lcore, ev, reply);
      if granted {
        Keep(ev, SpdkEvent(lcore, Some(arg)));
      } else {
        FreshClosure(s, lcore, ev, reply);
        DropClosure(arg);
      }
      assert View() == DoNewEvent(s, lcore, ev, granted, reply);
      NewEventInv(s, lcore, ev, granted, reply);
      return granted;
    }

    /** The value that `SpdkEvent::new` returns. */
    method Keep(ev: Ev, e: SpdkEvent)
      requires e.closurePtr.Some?
      modifies this`handles
      ensures View() == old(View()).(events := old(View()).events[ev := Event(e.lcore, e.closurePtr.value)])
    {
      OwningAfter(handles, ev, e);
      handles := handles[ev := e];
    }

    /** The boxed closure of an event, with the sender it captures, if any. */
    method BoxClosure(lcore: nat, ev: Ev, reply: bool) returns (arg: Ptr)
      modifies this`boxes, this`cells
      ensures var s, target := old(View()), Some(OnReactor(lcore));
              View() == NewClosure(s, Handle(ev), target, reply)
      ensures arg == |old(boxes)| && arg < |boxes|
    {
      var payload := Plain;
      if reply {
        var c := Completion();
        payload := Reply(c);
      }
      arg := BoxIntoRaw(payload, Handle(ev), Some(OnReactor(lcore)));
    }

    /** `SpdkEvent::call`: the closure goes to the reactor, and the pointer to it is nulled. */
    method EventCall(ev: Ev)
      requires Inv(View()) && ev in View().events
      modifies this
      ensures ev in handles && handles[ev].closurePtr.None?
      ensures Inv(View()) && View() == Apply(old(View()), CallEvent(ev))
    {
      ghost var s := View();
      OwesAnswer(s, s.events[ev].ptr);
      var site, arg := OnReactor(handles[ev].lcore), handles[ev].closurePtr.value;
      OwningAfter(handles, ev, handles[ev].(closurePtr := None));
      handles := handles[ev := handles[ev].(closurePtr := None)];
      boxes := boxes[arg := boxes[arg].(place := Queued(site))];
      SendMsg(site, arg);
      assert View() == DoCallEvent(s, ev);
      CallEventInv(s, ev);
    }

    /** The event value is gone. */
    method Forget(ev: Ev)
      requires ev in handles
      modifies this`handles
      ensures handles == old(handles) - {ev}
      ensures View() == old(View()).(events := old(View()).events - {ev})
    {
      OwningAfter(handles, ev, handles[ev]);
      handles := handles - {ev};
    }

    /** `Drop for SpdkEvent`: frees the closure if the event still owns it. On an event that was
        called it does nothing, so call and drop together free no closure twice. */
    method EventDrop(ev: Ev)
      requires Inv(View()) && ev in handles
      modifies this
      ensures handles == old(handles) - {ev}
      ensures Inv(View())
      ensures View() == if old(handles[ev].closurePtr).None? then old(View()) else Apply(old(View()), DropEvent(ev))
    {
      var closurePtr := handles[ev].closurePtr;
      if closurePtr.None? {
        assert View().events == View().events - {ev};
        Forget(ev);
        return;
      }
      DropEventInv(View(), ev);
      OwesAnswer(View(), closurePtr.value);
      Forget(ev);
      DropClosure(closurePtr.value);
    }

    /** `SpdkEvent::call_on_async`: on failure the receiver is dropped with the error return. */
    method EventCallOnAsync(lcore: nat, ev: Ev, granted: bool) returns (rx: Option<Chan>)
      requires Inv(View()) && ev !in View().events
      modifies this
      ensures Inv(View())
      ensures rx == if granted then Some(|old(cells)|) else None
      ensures var acts := [NewEvent(lcore, ev, granted, true), if granted then CallEvent(ev) else DropRx(|old(cells)|)];
              Feasible(old(View()), acts) && View() == Run(old(View()), acts)
    {
      var c := |cells|;
      ghost var s := View();
      var ok := EventNew(lcore, ev, granted, true);
      EventOrReceiver(s, lcore, ev, granted);
      if ok {
        EventCall(ev);
        TwoActions(s, NewEvent(lcore, ev, granted, true), CallEvent(ev));
        return Some(c);
      }
      DropRxInv(View(), c);
      RxDrop(c);
      TwoActions(s, NewEvent(lcore, ev, granted, true), DropRx(c));
      return None;
    }

    // ----- msg_callback and event_trampoline

    /** The callback takes the next message and rebuilds its closure. */
    method CallbackBegin(site: Site) returns (p: Ptr)
      requires Inv(View()) && At(lines, site) != []
      modifies this
      ensures p == old(At(lines, site))[0]
      ensures Inv(View()) && View() == Apply(old(View()), Begin(site))
    {
      BeginInv(View(), site);
      p := At(lines, site)[0];
      assert LineOk(View(), site) && p in At(lines, site);
      assert BoxOk(View(), p);
      lines := lines[site := At(lines, site)[1..]];
      begun := begun[site := At(begun, site) + [p]];
      boxes := boxes[p := boxes[p].(place := Running(site), ran := boxes[p].ran + [site])];
    }

    /** The closure returns `value`: a reply is sent, and the box ends. */
    method CallbackFinish(p: Ptr, value: int)
      requires Inv(View()) && p < |boxes| && boxes[p].place.Running?
      modifies this
      ensures Inv(View()) && View() == Apply(old(View()), Finish(p, value))
    {
      FinishInv(View(), p, value);
      ghost var cell := CellFor(View(), p);
      assert BoxOk(View(), p);
      var payload := BoxFromRaw(p);
      if payload.Reply? {
        TxSend(p, payload.chan, Ok(value));
      }
    }

    // ----- any action

    method Perform(a: Action)
      requires Inv(View()) && Enabled(View(), a)
      modifies this
      ensures Inv(View()) && View() == Apply(old(View()), a)
    {
      match a
      case Submit(io, rc) => var _ := BdevSubmit(io, rc);
      case CompleteIo(io, success) => BdevIoCompletionCb(io, success);
      case PollRx(c) => PollRxInv(View(), c); var _ := RxPoll(c);
      case DropRx(c) => DropRxInv(View(), c); RxDrop(c);
      case Send(thread, reply) =>
        if reply {
          var _ := ThreadCall(thread);
        } else {
          ThreadSend(thread);
        }
      case NewEvent(lcore, ev, granted, reply) => var _ := EventNew(lcore, ev, granted, reply);
      case CallEvent(ev) => EventCall(ev);
      case DropEvent(ev) => EventDrop(ev);
      case Begin(site) => var _ := CallbackBegin(site);
      case Finish(p, value) => CallbackFinish(p, value);
    }

    method PerformAll(acts: seq<Action>)
      requires Inv(View()) && Feasible(View(), acts)
      modifies this
      ensures Inv(View()) && View() == Run(old(View()), acts)
    {
      var rest := acts;
      while rest != []
        invariant Inv(View()) && Feasible(View(), rest)
        invariant Run(View(), rest) == Run(old(View()), acts)
        decreases |rest|
      {
        Perform(rest[0]);
        rest := rest[1..];
      }
    }
  }

  /** A foreign place holds a live box of the right sort whose sender, if any, is still unused. */
  lemma OwesAnswer(s: State, p: Ptr)
    requires Inv(s) && p < |s.boxes| && (s.boxes[p].place.Device? || s.boxes[p].place.Handle?)
    ensures s.boxes[p].payload.Sender? <==> s.boxes[p].place.Device?
    ensures ChanOf(s.boxes[p].payload).Some? ==>
      ChanOf(s.boxes[p].payload).value < |s.cells| && !s.cells[ChanOf(s.boxes[p].payload).value].txDone
  {
    assert BoxOk(s, p);
    var cell := CellFor(s, p);
  }

  /** A closure just boxed is live, and its sender, if any, unused. */
  lemma FreshClosure(s: State, lcore: nat, ev: Ev, reply: bool)
    ensures var t, p := NewClosure(s, Handle(ev), Some(OnReactor(lcore)), reply), |s.boxes|;
            && Live(t, p)
            && (ChanOf(t.boxes[p].payload).Some? ==>
                  ChanOf(t.boxes[p].payload).value < |t.cells| && !t.cells[ChanOf(t.boxes[p].payload).value].txDone)
  {
  }

  lemma OneAction(s: State, a: Action)
    requires Enabled(s, a)
    ensures Feasible(s, [a]) && Run(s, [a]) == Apply(s, a)
  {
    var acts, t := [a], Apply(s, a);
    assert acts[0] == a && acts[1..] == [];
    assert Feasible(t, []) && Run(t, []) == t;
  }

  lemma TwoActions(s: State, a: Action, b: Action)
    requires Enabled(s, a) && Enabled(Apply(s, a), b)
    ensures Feasible(s, [a, b]) && Run(s, [a, b]) == Apply(Apply(s, a), b)
  {
    var acts, t := [a, b], Apply(s, a);
    assert acts[0] == a && acts[1..] == [b];
    OneAction(t, b);
    assert Feasible(t, acts[1..]);
  }

  /** After `SpdkEvent::new` there is an event to call, or else a receiver to drop. */
  lemma EventOrReceiver(s: State, lcore: nat, ev: Ev, granted: bool)
    ensures var t := DoNewEvent(s, lcore, ev, granted, true);
            if granted then ev in t.events else |s.cells| < |t.cells| && !t.cells[|s.cells|].rxDone
  {
  }
}
