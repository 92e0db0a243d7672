/** The invariant of the protocol, and that every action of every participant keeps it. */
module ProtocolInvariant {
  import opened Strings
  import opened Protocol

  /** The past of box `p` fits its place. */
  ghost predicate BoxOk(s: State, p: Ptr)
    requires p < |s.boxes|
  {
    var b := s.boxes[p];
    && b.frees == (if b.place.Gone? then 1 else 0)
    && b.ioFrees == (if b.payload.Sender? && b.place.Gone? then 1 else 0)
    && (b.payload.Sender? ==> b.place.Device? || b.place.Leaked? || b.place.Gone?)
    && (!b.payload.Sender? ==> !b.place.Device? && !b.place.Leaked? && b.target.Some?)
    && (b.place.Running? ==> b.ran == [b.place.site] && b.target == Some(b.place.site))
    && (b.place.Queued? ==> b.ran == [] && b.target == Some(b.place.site))
    && (b.place.Device? || b.place.Leaked? || b.place.Handle? ==> b.ran == [])
    && (b.ran == [] || (b.target.Some? && b.ran == [b.target.value]))
    && (b.result.Some? ==> b.place.Gone? && !b.unsent && b.result.value != Err(Cancelled) && ChanOf(b.payload).Some?)
    && (b.result.Some? && !b.payload.Sender? ==> b.ran != [])
    && (b.unsent ==> b.place.Gone? && b.ran == [] && b.payload.Reply?)
    && (b.target.Some? && b.target.value.OnThread? ==> !b.place.Handle? && !b.unsent)
    && (b.place.Gone? && ChanOf(b.payload).Some? ==> b.result.Some? || b.unsent)
    && (ChanOf(b.payload).Some? ==>
          ChanOf(b.payload).value < |s.cells| && s.cells[ChanOf(b.payload).value].carrier == p)
  }

  /** The foreign place of a box really holds it. */
  ghost predicate HeldOk(s: State, p: Ptr)
    requires p < |s.boxes|
  {
    match s.boxes[p].place
    case Device(io) => io in s.device && s.device[io] == p
    case Handle(ev) => ev in s.events && s.events[ev].ptr == p
    case Queued(site) => p in At(s.lines, site)
    case _ => true
  }

  ghost predicate BoxesOk(s: State) {
    !s.fault && forall p: Ptr :: p < |s.boxes| ==> BoxOk(s, p) && HeldOk(s, p)
  }

  ghost predicate DeviceOk(s: State) {
    forall io :: io in s.device ==> s.device[io] < |s.boxes| && s.boxes[s.device[io]].place == Device(io)
  }

  ghost predicate EventsOk(s: State) {
    forall ev :: ev in s.events ==>
      && s.events[ev].ptr < |s.boxes|
      && s.boxes[s.events[ev].ptr].place == Handle(ev)
      && s.boxes[s.events[ev].ptr].target == Some(OnReactor(s.events[ev].lcore))
  }

  /** A queue holds only closures that it owns, each once; nothing posted is lost or reordered. */
  ghost predicate LineOk(s: State, site: Site) {
    && (forall p :: p in At(s.lines, site) ==> p < |s.boxes| && s.boxes[p].place == Queued(site))
    && (forall i, j :: 0 <= i < j < |At(s.lines, site)| ==> At(s.lines, site)[i] != At(s.lines, site)[j])
    && At(s.posted, site) == At(s.begun, site) + At(s.lines, site)
    && (forall p :: p in At(s.begun, site) ==> p < |s.boxes| && s.boxes[p].ran == [site])
    && (forall i, j :: 0 <= i < j < |At(s.begun, site)| ==> At(s.begun, site)[i] != At(s.begun, site)[j])
  }

  ghost predicate LinesOk(s: State) {
    && (forall site :: LineOk(s, site))
    && (forall p: Ptr :: p < |s.boxes| && s.boxes[p].ran != [] ==> p in At(s.begun, s.boxes[p].ran[0]))
  }

  /** Channel `c` agrees with the box that carries its sender. */
  ghost predicate CellOk(s: State, c: Chan)
    requires c < |s.cells|
  {
    var cell := s.cells[c];
    && cell.carrier < |s.boxes|
    && var b := s.boxes[cell.carrier];
    && ChanOf(b.payload) == Some(c)
    && (cell.txDone <==> b.place.Gone?)
    && (cell.data.Some? ==> cell.data == b.result && cell.got.None?)
    && (cell.got.Some? ==> b.place.Gone? && cell.got.value == b.result.GetOr(Err(Cancelled)))
    && (b.result.Some? && !cell.rxDone && cell.got.None? ==> cell.data.Some?)
  }

  ghost predicate CellsOk(s: State) {
    forall c: Chan :: c < |s.cells| ==> CellOk(s, c)
  }

  ghost predicate Inv(s: State) {
    BoxesOk(s) && DeviceOk(s) && EventsOk(s) && LinesOk(s) && CellsOk(s)
  }

  lemma InitInv()
    ensures Inv(INIT)
  {
  }

  // ----- one box at a time

  /** From `s` to `t` only the foreign places of box `q` may change. */
  ghost predicate HoldersKept(s: State, t: State, q: Ptr) {
    && (forall io :: io in s.device && s.device[io] != q ==> io in t.device && t.device[io] == s.device[io])
    && (forall io :: io in t.device && t.device[io] != q ==> io in s.device && t.device[io] == s.device[io])
    && (forall ev :: ev in s.events && s.events[ev].ptr != q ==> ev in t.events && t.events[ev] == s.events[ev])
    && (forall ev :: ev in t.events && t.events[ev].ptr != q ==> ev in s.events && t.events[ev] == s.events[ev])
    && (forall site, p :: p != q && p in At(s.lines, site) ==> p in At(t.lines, site))
  }

  /** ... and only box `q` and its channel. */
  ghost predicate OnlyBox(s: State, t: State, q: Ptr) {
    && HoldersKept(s, t, q)
    && q < |t.boxes| && (|t.boxes| == |s.boxes| || (q == |s.boxes| && |t.boxes| == q + 1))
    && (forall p: Ptr :: p < |s.boxes| && p != q ==> t.boxes[p] == s.boxes[p])
    && (q < |s.boxes| ==> t.boxes[q].payload == s.boxes[q].payload)
    && |s.cells| <= |t.cells|
    && (forall c: Chan :: c < |s.cells| ==> t.cells[c].carrier == s.cells[c].carrier)
    && (forall c: Chan :: c < |s.cells| && t.cells[c].carrier != q ==> t.cells[c] == s.cells[c])
    && (forall c: Chan :: |s.cells| <= c < |t.cells| ==> ChanOf(t.boxes[q].payload) == Some(c))
  }

  /** Everything the invariant says about box `q`. */
  ghost predicate AboutBox(t: State, q: Ptr)
    requires q < |t.boxes|
  {
    && !t.fault
    && BoxOk(t, q) && HeldOk(t, q)
    && (ChanOf(t.boxes[q].payload).Some? ==> CellOk(t, ChanOf(t.boxes[q].payload).value))
    && (forall io :: io in t.device && t.device[io] == q ==> t.boxes[q].place == Device(io))
    && (forall ev :: ev in t.events && t.events[ev].ptr == q ==>
          t.boxes[q].place == Handle(ev) && t.boxes[q].target == Some(OnReactor(t.events[ev].lcore)))
  }

  lemma OtherBox(s: State, t: State, q: Ptr, p: Ptr)
    requires Inv(s) && OnlyBox(s, t, q) && p < |s.boxes| && p != q
    ensures p < |t.boxes| && BoxOk(t, p) && HeldOk(t, p)
  {
    assert t.boxes[p] == s.boxes[p];
    assert BoxOk(s, p) && HeldOk(s, p);
    match s.boxes[p].place
    case Device(io) => assert t.device[io] == p;
    case Handle(ev) => assert t.events[ev] == s.events[ev];
    case Queued(site) => assert p in At(t.lines, site);
    case _ =>
  }

  lemma OneBox(s: State, t: State, q: Ptr)
    requires Inv(s) && OnlyBox(s, t, q) && AboutBox(t, q) && LinesOk(t)
    ensures Inv(t)
  {
    forall p: Ptr | p < |t.boxes|
      ensures BoxOk(t, p) && HeldOk(t, p)
    {
      if p != q {
        OtherBox(s, t, q, p);
      }
    }
    forall c: Chan | c < |t.cells|
      ensures CellOk(t, c)
    {
      if c < |s.cells| && t.cells[c].carrier != q {
        OtherCell(s, t, q, c);
      } else {
        assert c < |s.cells| ==> CellOk(s, c);
        assert ChanOf(t.boxes[q].payload) == Some(c);
      }
    }
  }

  lemma OtherCell(s: State, t: State, q: Ptr, c: Chan)
    requires Inv(s) && OnlyBox(s, t, q) && c < |s.cells| && t.cells[c].carrier != q
    ensures CellOk(t, c)
  {
    assert CellOk(s, c) && t.cells[c] == s.cells[c];
    assert t.boxes[s.cells[c].carrier] == s.boxes[s.cells[c].carrier];
  }

  /** `t` has box `b` (and the channel `cell`, if the box carries one) besides those of `s`. */
  ghost predicate Born(s: State, t: State, b: Box, cell: Cell) {
    && t.boxes == s.boxes + [b]
    && t.cells == (if ChanOf(b.payload).Some? then s.cells + [cell] else s.cells)
    && (ChanOf(b.payload).Some? ==> ChanOf(b.payload).value == |s.cells| && cell.carrier == |s.boxes|)
    && HoldersKept(s, t, |s.boxes|)
  }

  lemma CarriersExist(s: State)
    requires CellsOk(s)
    ensures forall c: Chan :: c < |s.cells| ==> s.cells[c].carrier < |s.boxes|
  {
    forall c: Chan | c < |s.cells|
      ensures s.cells[c].carrier < |s.boxes|
    {
      assert CellOk(s, c);
    }
  }

  lemma BornInv(s: State, t: State, b: Box, cell: Cell)
    requires Inv(s) && Born(s, t, b, cell) && AboutBox(t, |s.boxes|) && LinesOk(t)
    ensures Inv(t)
  {
    assert forall c: Chan :: c < |s.cells| ==> t.cells[c] == s.cells[c];
    CarriersExist(s);
    OneBox(s, t, |s.boxes|);
  }

  /** In `t` box `q` has become `b`, and its channel `cell`, if it carries one. */
  ghost predicate Became(s: State, t: State, q: Ptr, b: Box, cell: Cell) {
    && q < |s.boxes| && t.boxes == s.boxes[q := b] && b.payload == s.boxes[q].payload
    && match ChanOf(b.payload) {
         case None => t.cells == s.cells
         case Some(c) => c < |s.cells| && t.cells == s.cells[c := cell] && cell.carrier == q
       }
    && HoldersKept(s, t, q)
  }

  lemma BecameInv(s: State, t: State, q: Ptr, b: Box, cell: Cell)
    requires Inv(s) && Became(s, t, q, b, cell) && AboutBox(t, q) && LinesOk(t)
    ensures Inv(t)
  {
    assert BoxOk(s, q);
    OneBox(s, t, q);
  }

  // ----- the queues

  predicate SameQueues(s: State, t: State) {
    t.lines == s.lines && t.posted == s.posted && t.begun == s.begun
  }

  lemma LinesBorn(s: State, t: State, b: Box)
    requires LinesOk(s) && SameQueues(s, t) && t.boxes == s.boxes + [b] && b.ran == []
    ensures LinesOk(t)
  {
    forall site
      ensures LineOk(t, site)
    {
      assert LineOk(s, site);
    }
  }

  lemma LinesBecame(s: State, t: State, q: Ptr, b: Box)
    requires LinesOk(s) && SameQueues(s, t) && q < |s.boxes| && t.boxes == s.boxes[q := b]
    requires b.ran == s.boxes[q].ran && (s.boxes[q].place.Queued? ==> b.place == s.boxes[q].place)
    ensures LinesOk(t)
  {
    forall site
      ensures LineOk(t, site)
    {
      assert LineOk(s, site);
    }
  }

  /** Box `q`, not queued before, joins the queue of `site`. */
  lemma LinesJoined(s: State, t: State, site: Site, q: Ptr)
    requires LinesOk(s) && t.begun == s.begun
    requires t.lines == Appended(s.lines, site, q) && t.posted == Appended(s.posted, site, q)
    requires q < |t.boxes| && (|t.boxes| == |s.boxes| || (q == |s.boxes| && |t.boxes| == q + 1))
    requires forall p: Ptr :: p < |s.boxes| && p != q ==> t.boxes[p] == s.boxes[p]
    requires t.boxes[q].place == Queued(site) && t.boxes[q].ran == []
    requires q < |s.boxes| ==> !s.boxes[q].place.Queued? && s.boxes[q].ran == []
    ensures LinesOk(t)
    ensures forall other, p :: p in At(s.lines, other) ==> p in At(t.lines, other)
    ensures q in At(t.lines, site)
  {
    LineJoined(s, t, site, q);
    forall other | other != site
      ensures LineOk(t, other)
    {
      assert LineOk(s, other);
      assert At(t.lines, other) == At(s.lines, other) && At(t.posted, other) == At(s.posted, other);
    }
  }

  lemma LineJoined(s: State, t: State, site: Site, q: Ptr)
    requires LineOk(s, site) && t.begun == s.begun
    requires At(t.lines, site) == At(s.lines, site) + [q] && At(t.posted, site) == At(s.posted, site) + [q]
    requires q < |t.boxes| && |s.boxes| <= |t.boxes|
    requires forall p: Ptr :: p < |s.boxes| && p != q ==> t.boxes[p] == s.boxes[p]
    requires t.boxes[q].place == Queued(site) && t.boxes[q].ran == []
    requires q < |s.boxes| ==> !s.boxes[q].place.Queued? && s.boxes[q].ran == []
    ensures LineOk(t, site)
  {
    assert q !in At(s.lines, site) && q !in At(s.begun, site);
    assert At(t.posted, site) == At(t.begun, site) + At(t.lines, site);
  }

  /** Box `q` leaves the front of the queue of `site` and runs there. */
  ghost predicate Taken(s: State, t: State, site: Site, q: Ptr, b: Box) {
    && t.posted == s.posted
    && At(s.lines, site) != [] && q == At(s.lines, site)[0] && q < |s.boxes|
    && t.lines == s.lines[site := At(s.lines, site)[1..]]
    && t.begun == Appended(s.begun, site, q)
    && t.boxes == s.boxes[q := b] && s.boxes[q].ran == [] && b.ran == [site]
  }

  lemma LineTaken(s: State, t: State, site: Site, q: Ptr, b: Box)
    requires LineOk(s, site) && Taken(s, t, site, q, b)
    ensures LineOk(t, site)
    ensures At(s.lines, site) == [q] + At(t.lines, site)
  {
    var line, rest, begun := At(s.lines, site), At(t.lines, site), At(s.begun, site);
    assert line == [q] + rest;
    assert q !in begun;
    assert forall p :: p in rest ==> p in line && p != q;
    assert begun + line == (begun + [q]) + rest;
  }

  lemma LinesTaken(s: State, t: State, site: Site, q: Ptr, b: Box)
    requires LinesOk(s) && Taken(s, t, site, q, b)
    ensures LinesOk(t)
    ensures forall other, p :: p in At(s.lines, other) && p != q ==> p in At(t.lines, other)
  {
    assert LineOk(s, site) && q in At(s.lines, site);
    LineTaken(s, t, site, q, b);
    forall other | other != site
      ensures LineOk(t, other)
    {
      assert LineOk(s, other);
      assert q !in At(s.begun, other) && q !in At(s.lines, other);
      assert At(t.lines, other) == At(s.lines, other) && At(t.begun, other) == At(s.begun, other);
    }
  }

  // ----- the actions

  /** Channels stay with their box, an outcome seen stays seen, and only the receiver that acts changes. */
  ghost predicate CellsKept(s: State, t: State, actor: Option<Chan>) {
    && |s.cells| <= |t.cells|
    && (forall c: Chan :: c < |s.cells| ==>
          t.cells[c].carrier == s.cells[c].carrier && (s.cells[c].got.Some? ==> t.cells[c].got == s.cells[c].got))
    && (forall c: Chan :: c < |s.cells| && Some(c) != actor ==>
          t.cells[c].rxDone == s.cells[c].rxDone && t.cells[c].got == s.cells[c].got)
  }

  /** One new box, about which nothing has happened except that it may be destroyed already. */
  ghost predicate Added(s: State, t: State, leaked: bool, unsent: bool) {
    && |t.boxes| == |s.boxes| + 1 && t.boxes[..|s.boxes|] == s.boxes
    && var b := t.boxes[|s.boxes|];
    && b.result.None? && (b.place.Leaked? <==> leaked) && (b.unsent <==> unsent)
  }

  /** No message is accepted or taken. */
  predicate NoTraffic(s: State, t: State) {
    t.posted == s.posted && t.begun == s.begun
  }

  /** A new sender box, at the device or leaked, and its channel. */
  lemma SenderBorn(s: State, t: State, b: Box, cell: Cell)
    requires Inv(s) && !t.fault && SameQueues(s, t) && t.events == s.events
    requires b == Box(Sender(|s.cells|), b.place, None, 0, 0, [], None, false)
    requires cell == Cell(|s.boxes|, None, false, cell.rxDone, None)
    requires t.boxes == s.boxes + [b] && t.cells == s.cells + [cell]
    requires match b.place {
               case Device(io) => io !in s.device && t.device == s.device[io := |s.boxes|]
               case Leaked => t.device == s.device
               case _ => false
             }
    ensures Inv(t)
  {
    assert t.boxes[|s.boxes|] == b && t.cells[|s.cells|] == cell;
    LinesBorn(s, t, b);
    BornInv(s, t, b, cell);
  }

  lemma SubmitShape(s: State, io: Io, rc: int)
    ensures var t := DoSubmit(s, io, rc);
            && t.boxes == s.boxes + [SenderBox(s, io, rc)]
            && t.cells == s.cells + [Cell(|s.boxes|, None, false, rc != 0, None)]
            && t.device == (if rc == 0 then s.device[io := |s.boxes|] else s.device)
            && t.events == s.events && SameQueues(s, t) && t.fault == s.fault
  {
    if rc != 0 {
      var cell := Cell(|s.boxes|, None, false, false, None);
      UpdateLast(s.cells, cell, cell.(rxDone := true));
    }
  }

  lemma UpdateLast<T>(a: seq<T>, x: T, y: T)
    ensures (a + [x])[|a| := y] == a + [y]
  {
  }

  function SenderBox(s: State, io: Io, rc: int): Box {
    Box(Sender(|s.cells|), if rc == 0 then Device(io) else Leaked, None, 0, 0, [], None, false)
  }

  lemma SubmitInv(s: State, io: Io, rc: int)
    requires Inv(s) && Enabled(s, Submit(io, rc))
    ensures Inv(DoSubmit(s, io, rc))
    ensures CellsKept(s, DoSubmit(s, io, rc), None)
    ensures NoTraffic(s, DoSubmit(s, io, rc))
    ensures Added(s, DoSubmit(s, io, rc), rc != 0, false)
    ensures DoSubmit(s, io, rc).boxes == s.boxes + [SenderBox(s, io, rc)]
    ensures DoSubmit(s, io, rc).cells == s.cells + [Cell(|s.boxes|, None, false, rc != 0, None)]
  {
    SubmitShape(s, io, rc);
    SenderBorn(s, DoSubmit(s, io, rc), SenderBox(s, io, rc), Cell(|s.boxes|, None, false, rc != 0, None));
  }

  /** A box dies: its callback sent `sent`, or its sender (if it has one) is dropped unsent. */
  ghost function Dead(b: Box, sent: Option<Result>): Box {
    b.(place := Gone, frees := 1, ioFrees := if b.payload.Sender? then 1 else 0,
       result := sent, unsent := ChanOf(b.payload).Some? && sent.None?)
  }

  ghost function Closed(cell: Cell, sent: Option<Result>): Cell {
    cell.(txDone := true, data := if sent.None? || cell.rxDone then cell.data else sent)
  }

  lemma DeathInv(s: State, t: State, q: Ptr, sent: Option<Result>)
    requires Inv(s) && !t.fault && SameQueues(s, t) && HoldersKept(s, t, q)
    requires q < |s.boxes| && !s.boxes[q].place.Gone? && !s.boxes[q].place.Queued?
    requires sent.Some? ==> sent.value != Err(Cancelled) && ChanOf(s.boxes[q].payload).Some?
    requires ChanOf(s.boxes[q].payload).Some? ==>
      (sent.Some? <==> s.boxes[q].payload.Sender? || s.boxes[q].ran != [])
    requires ChanOf(s.boxes[q].payload).Some? && sent.None? ==> s.boxes[q].place.Handle?
    requires t.boxes == s.boxes[q := Dead(s.boxes[q], sent)]
    requires match ChanOf(s.boxes[q].payload) {
               case None => t.cells == s.cells
               case Some(c) => c < |s.cells| && t.cells == s.cells[c := Closed(s.cells[c], sent)]
             }
    requires forall io :: io in t.device ==> t.device[io] != q
    requires forall ev :: ev in t.events ==> t.events[ev].ptr != q
    ensures Inv(t)
  {
    var cell := CellFor(s, q);
    assert BoxOk(s, q);
    LinesBecame(s, t, q, t.boxes[q]);
    BecameInv(s, t, q, t.boxes[q], Closed(cell, sent));
  }

  lemma CompleteIoShape(s: State, io: Io, success: bool)
    requires io in s.device && Live(s, s.device[io]) && s.boxes[s.device[io]].payload.Sender?
    requires var b := s.boxes[s.device[io]];
             && b.frees == 0 && b.ioFrees == 0 && !b.unsent
             && b.payload.chan < |s.cells| && !s.cells[b.payload.chan].txDone
    ensures var t, q := DoCompleteIo(s, io, success), s.device[io];
            var c, sent := s.boxes[q].payload.chan, Some(if success then Ok(0) else Err(IoError));
            && t.boxes == s.boxes[q := Dead(s.boxes[q], sent)]
            && t.cells == s.cells[c := Closed(s.cells[c], sent)]
            && t.device == s.device - {io} && t.events == s.events && SameQueues(s, t) && t.fault == s.fault
  {
    var q := s.device[io];
    var b := s.boxes[q].(ioFrees := 1);
    var t := s.(device := s.device - {io}, boxes := s.boxes[q := b]);
    var r := if success then Ok(0) else Err(IoError);
    FireShape(t, q, b.payload.chan, r);
    Overwrite(s.boxes, q, b, Dead(b, Some(r)));
  }

  /** A live box that answers and ends. */
  lemma FireShape(s: State, q: Ptr, c: Chan, r: Result)
    requires Live(s, q) && c < |s.cells| && !s.cells[c].txDone
    ensures var b, t := s.boxes[q], Fire(Free(s, q), q, c, r);
            && t.boxes == s.boxes[q := b.(place := Gone, frees := b.frees + 1, result := Some(r))]
            && t.cells == s.cells[c := Closed(s.cells[c], Some(r))]
            && t == s.(boxes := t.boxes, cells := t.cells)
  {
    var b := s.boxes[q].(place := Gone, frees := s.boxes[q].frees + 1);
    Overwrite(s.boxes, q, b, b.(result := Some(r)));
  }

  lemma Overwrite<T>(a: seq<T>, i: nat, x: T, y: T)
    requires i < |a|
    ensures a[i := x][i := y] == a[i := y]
  {
  }

  lemma CompleteIoInv(s: State, io: Io, success: bool)
    requires Inv(s) && io in s.device
    ensures Inv(DoCompleteIo(s, io, success))
    ensures CellsKept(s, DoCompleteIo(s, io, success), None)
    ensures NoTraffic(s, DoCompleteIo(s, io, success))
    ensures s.device[io] < |s.boxes|
    ensures DoCompleteIo(s, io, success).boxes ==
            s.boxes[s.device[io] := Dead(s.boxes[s.device[io]], Some(if success then Ok(0) else Err(IoError)))]
  {
    var t, q := DoCompleteIo(s, io, success), s.device[io];
    assert BoxOk(s, q) && HeldOk(s, q);
    var cell := CellFor(s, q);
    var sent := Some(if success then Ok(0) else Err(IoError));
    CompleteIoShape(s, io, success);
    DeviceApart(s, q);
    OperationEnds(s, t, io);
    DeathInv(s, t, q, sent);
  }

  /** Only the finished operation's box has left its place. */
  lemma OperationEnds(s: State, t: State, io: Io)
    requires io in s.device && t.device == s.device - {io} && t.events == s.events && t.lines == s.lines
    ensures HoldersKept(s, t, s.device[io])
  {
  }

  lemma DeviceApart(s: State, q: Ptr)
    requires Inv(s) && q < |s.boxes|
    ensures forall io :: io in s.device && s.device[io] == q ==> s.boxes[q].place == Device(io)
    ensures forall ev :: ev in s.events && s.events[ev].ptr == q ==> s.boxes[q].place == Handle(ev)
  {
  }

  lemma PollRxInv(s: State, c: Chan)
    requires Inv(s) && c < |s.cells| && !s.cells[c].rxDone
    ensures Inv(DoPollRx(s, c))
    ensures CellsKept(s, DoPollRx(s, c), Some(c))
    ensures NoTraffic(s, DoPollRx(s, c)) && DoPollRx(s, c).boxes == s.boxes
  {
    var t, q := DoPollRx(s, c), s.cells[c].carrier;
    assert CellOk(s, c) && BoxOk(s, q) && HeldOk(s, q);
    LinesBecame(s, t, q, s.boxes[q]);
    BecameInv(s, t, q, s.boxes[q], t.cells[c]);
  }

  lemma DropRxInv(s: State, c: Chan)
    requires Inv(s) && c < |s.cells|
    ensures Inv(DropReceiver(s, c))
    ensures CellsKept(s, DropReceiver(s, c), Some(c))
    ensures NoTraffic(s, DropReceiver(s, c)) && DropReceiver(s, c).boxes == s.boxes
  {
    var t, q := DropReceiver(s, c), s.cells[c].carrier;
    assert CellOk(s, c) && BoxOk(s, q) && HeldOk(s, q);
    LinesBecame(s, t, q, s.boxes[q]);
    BecameInv(s, t, q, s.boxes[q], t.cells[c]);
  }

  lemma SendInv(s: State, thread: nat, reply: bool)
    requires Inv(s)
    ensures Inv(DoSend(s, thread, reply))
    ensures CellsKept(s, DoSend(s, thread, reply), None)
    ensures DoSend(s, thread, reply).posted == Appended(s.posted, OnThread(thread), |s.boxes|)
    ensures DoSend(s, thread, reply).lines == Appended(s.lines, OnThread(thread), |s.boxes|)
    ensures DoSend(s, thread, reply).begun == s.begun
    ensures Added(s, DoSend(s, thread, reply), false, false)
  {
    var t, q := DoSend(s, thread, reply), |s.boxes|;
    LinesJoined(s, t, OnThread(thread), q);
    BornInv(s, t, t.boxes[q], if reply then t.cells[|s.cells|] else ANY_CELL);
  }

  const ANY_CELL := Cell(0, None, false, false, None)

  lemma NewEventInv(s: State, lcore: nat, ev: Ev, granted: bool, reply: bool)
    requires Inv(s) && ev !in s.events
    ensures Inv(DoNewEvent(s, lcore, ev, granted, reply))
    ensures CellsKept(s, DoNewEvent(s, lcore, ev, granted, reply), None)
    ensures NoTraffic(s, DoNewEvent(s, lcore, ev, granted, reply))
    ensures Added(s, DoNewEvent(s, lcore, ev, granted, reply), false, !granted && reply)
  {
    if granted {
      GrantedEventInv(s, DoNewEvent(s, lcore, ev, true, reply), lcore, ev, reply);
    } else {
      RefusedEventInv(s, lcore, ev, reply);
    }
  }

  /** A closure box that a new event owns. */
  lemma GrantedEventInv(s: State, t: State, lcore: nat, ev: Ev, reply: bool)
    requires Inv(s) && ev !in s.events
    requires t == NewClosure(s, Handle(ev), Some(OnReactor(lcore)), reply).(
                    events := s.events[ev := Event(lcore, |s.boxes|)])
    ensures Inv(t)
  {
    var q := |s.boxes|;
    LinesBorn(s, t, t.boxes[q]);
    BornInv(s, t, t.boxes[q], if reply then t.cells[|s.cells|] else ANY_CELL);
  }

  function RefusedBox(s: State, lcore: nat, reply: bool): Box {
    Box(if reply then Reply(|s.cells|) else Plain, Gone, Some(OnReactor(lcore)), 1, 0, [], None, reply)
  }

  lemma RefusedEventShape(s: State, lcore: nat, ev: Ev, reply: bool)
    ensures var t := DoNewEvent(s, lcore, ev, false, reply);
            && t.boxes == s.boxes + [RefusedBox(s, lcore, reply)]
            && t.cells == (if reply then s.cells + [Cell(|s.boxes|, None, true, false, None)] else s.cells)
            && t.device == s.device && t.events == s.events && SameQueues(s, t) && t.fault == s.fault
  {
    var b := Box(if reply then Reply(|s.cells|) else Plain, Handle(ev), Some(OnReactor(lcore)), 0, 0, [], None, false);
    var dead := b.(place := Gone, frees := 1);
    UpdateLast(s.boxes, b, dead);
    UpdateLast(s.boxes, dead, dead.(unsent := true));
    var cell := Cell(|s.boxes|, None, false, false, None);
    UpdateLast(s.cells, cell, cell.(txDone := true));
  }

  /** A closure box born dead, by the allocation-failure path. */
  lemma RefusedEventInv(s: State, lcore: nat, ev: Ev, reply: bool)
    requires Inv(s) && ev !in s.events
    ensures Inv(DoNewEvent(s, lcore, ev, false, reply))
    ensures CellsKept(s, DoNewEvent(s, lcore, ev, false, reply), None)
    ensures NoTraffic(s, DoNewEvent(s, lcore, ev, false, reply))
    ensures Added(s, DoNewEvent(s, lcore, ev, false, reply), false, reply)
  {
    var t, cell := DoNewEvent(s, lcore, ev, false, reply), Cell(|s.boxes|, None, true, false, None);
    RefusedEventShape(s, lcore, ev, reply);
    ClosureBornDead(s, t, RefusedBox(s, lcore, reply), cell);
  }

  lemma ClosureBornDead(s: State, t: State, b: Box, cell: Cell)
    requires Inv(s) && !t.fault && SameQueues(s, t) && t.device == s.device && t.events == s.events
    requires b.target.Some? && b == Box(b.payload, Gone, b.target, 1, 0, [], None, b.payload != Plain)
    requires b.target.value.OnReactor?
    requires b.payload == Plain || b.payload == Reply(|s.cells|)
    requires cell == Cell(|s.boxes|, None, true, false, None)
    requires t.boxes == s.boxes + [b] && t.cells == if b.payload == Plain then s.cells else s.cells + [cell]
    ensures Inv(t)
  {
    assert t.boxes[|s.boxes|] == b;
    LinesBorn(s, t, b);
    BornInv(s, t, b, cell);
  }

  lemma CallEventInv(s: State, ev: Ev)
    requires Inv(s) && ev in s.events
    ensures Inv(DoCallEvent(s, ev))
    ensures CellsKept(s, DoCallEvent(s, ev), None)
    ensures var t, site, q := DoCallEvent(s, ev), OnReactor(s.events[ev].lcore), s.events[ev].ptr;
            && t.events == s.events - {ev} && t.begun == s.begun
            && t.lines == Appended(s.lines, site, q) && t.posted == Appended(s.posted, site, q)
    ensures s.events[ev].ptr < |s.boxes|
    ensures var q := s.events[ev].ptr;
            DoCallEvent(s, ev).boxes == s.boxes[q := s.boxes[q].(place := Queued(OnReactor(s.events[ev].lcore)))]
  {
    var q := s.events[ev].ptr;
    assert BoxOk(s, q) && HeldOk(s, q);
    ClosureQueued(s, DoCallEvent(s, ev), ev);
  }

  /** The closure of an event moves to the queue of its reactor. */
  lemma ClosureQueued(s: State, t: State, ev: Ev)
    requires Inv(s) && ev in s.events && s.events[ev].ptr < |s.boxes|
    requires var site, q := OnReactor(s.events[ev].lcore), s.events[ev].ptr;
             && t.boxes == s.boxes[q := s.boxes[q].(place := Queued(site))]
             && t.lines == Appended(s.lines, site, q) && t.posted == Appended(s.posted, site, q)
    requires t.cells == s.cells && t.device == s.device && t.events == s.events - {ev}
    requires t.begun == s.begun && t.fault == s.fault
    ensures Inv(t)
  {
    var q := s.events[ev].ptr;
    assert BoxOk(s, q) && HeldOk(s, q);
    LinesJoined(s, t, OnReactor(s.events[ev].lcore), q);
    BecameInv(s, t, q, t.boxes[q], CellFor(s, q));
  }

  /** The channel that box `q` carries, if any. */
  ghost function CellFor(s: State, q: Ptr): Cell
    requires Inv(s) && q < |s.boxes|
    ensures ChanOf(s.boxes[q].payload).Some? ==>
      ChanOf(s.boxes[q].payload).value < |s.cells| && CellOk(s, ChanOf(s.boxes[q].payload).value)
  {
    assert BoxOk(s, q);
    match ChanOf(s.boxes[q].payload)
    case None => ANY_CELL
    case Some(c) => s.cells[c]
  }

  lemma DropEventShape(s: State, ev: Ev)
    requires ev in s.events && Live(s, s.events[ev].ptr)
    requires var b := s.boxes[s.events[ev].ptr];
             && b.frees == 0 && b.ioFrees == 0 && !b.payload.Sender? && b.result.None? && !b.unsent
             && (b.payload.Reply? ==> b.payload.chan < |s.cells| && !s.cells[b.payload.chan].txDone)
    ensures var t, q := DoDropEvent(s, ev), s.events[ev].ptr;
            && t.boxes == s.boxes[q := Dead(s.boxes[q], None)]
            && t.cells == (match s.boxes[q].payload
                           case Reply(c) => s.cells[c := Closed(s.cells[c], None)]
                           case _ => s.cells)
            && t.device == s.device && t.events == s.events - {ev} && SameQueues(s, t) && t.fault == s.fault
  {
  }

  lemma DropEventInv(s: State, ev: Ev)
    requires Inv(s) && ev in s.events
    ensures Inv(DoDropEvent(s, ev))
    ensures CellsKept(s, DoDropEvent(s, ev), None)
    ensures NoTraffic(s, DoDropEvent(s, ev)) && DoDropEvent(s, ev).events == s.events - {ev}
    ensures s.events[ev].ptr < |s.boxes|
    ensures DoDropEvent(s, ev).boxes == s.boxes[s.events[ev].ptr := Dead(s.boxes[s.events[ev].ptr], None)]
  {
    var q := s.events[ev].ptr;
    assert BoxOk(s, q) && HeldOk(s, q);
    var cell := CellFor(s, q);
    DropEventShape(s, ev);
    ClosureDropped(s, DoDropEvent(s, ev), ev);
  }

  /** The closure of an event ends with it. */
  lemma ClosureDropped(s: State, t: State, ev: Ev)
    requires Inv(s) && ev in s.events && s.events[ev].ptr < |s.boxes|
    requires t.boxes == s.boxes[s.events[ev].ptr := Dead(s.boxes[s.events[ev].ptr], None)]
    requires match s.boxes[s.events[ev].ptr].payload
             case Reply(c) => c < |s.cells| && t.cells == s.cells[c := Closed(s.cells[c], None)]
             case _ => t.cells == s.cells
    requires t.device == s.device && t.events == s.events - {ev} && SameQueues(s, t) && t.fault == s.fault
    ensures Inv(t)
  {
    var q := s.events[ev].ptr;
    assert BoxOk(s, q) && HeldOk(s, q);
    DeviceApart(s, q);
    EventEnds(s, t, ev);
    DeathInv(s, t, q, None);
  }

  /** Only the dropped event's box has left its place. */
  lemma EventEnds(s: State, t: State, ev: Ev)
    requires ev in s.events && t.events == s.events - {ev} && t.device == s.device && t.lines == s.lines
    ensures HoldersKept(s, t, s.events[ev].ptr)
  {
  }

  lemma BeginInv(s: State, site: Site)
    requires Inv(s) && At(s.lines, site) != []
    ensures Inv(DoBegin(s, site))
    ensures CellsKept(s, DoBegin(s, site), None)
    ensures DoBegin(s, site).posted == s.posted
    ensures DoBegin(s, site).begun == Appended(s.begun, site, At(s.lines, site)[0])
    ensures DoBegin(s, site).lines == s.lines[site := At(s.lines, site)[1..]]
    ensures At(s.lines, site)[0] < |s.boxes|
    ensures var q := At(s.lines, site)[0];
            DoBegin(s, site).boxes == s.boxes[q := s.boxes[q].(place := Running(site), ran := [site])]
  {
    var q := At(s.lines, site)[0];
    assert LineOk(s, site) && q in At(s.lines, site);
    assert BoxOk(s, q) && HeldOk(s, q);
    assert s.boxes[q].ran + [site] == [site];
    ClosureTaken(s, DoBegin(s, site), site, q);
  }

  /** The closure at the front of a queue starts to run. */
  lemma ClosureTaken(s: State, t: State, site: Site, q: Ptr)
    requires Inv(s) && q < |s.boxes| && s.boxes[q].place == Queued(site)
    requires Taken(s, t, site, q, s.boxes[q].(place := Running(site), ran := [site]))
    requires t.cells == s.cells && t.device == s.device && t.events == s.events && t.fault == s.fault
    ensures Inv(t)
  {
    assert BoxOk(s, q);
    LinesTaken(s, t, site, q, t.boxes[q]);
    BecameInv(s, t, q, t.boxes[q], CellFor(s, q));
  }

  lemma FinishShape(s: State, p: Ptr, value: int)
    requires Live(s, p)
    requires var b := s.boxes[p];
             && b.frees == 0 && b.ioFrees == 0 && !b.payload.Sender? && b.result.None? && !b.unsent
             && (b.payload.Reply? ==> b.payload.chan < |s.cells| && !s.cells[b.payload.chan].txDone)
    ensures var t := DoFinish(s, p, value);
            var sent := if s.boxes[p].payload.Reply? then Some(Ok(value)) else None;
            && t.boxes == s.boxes[p := Dead(s.boxes[p], sent)]
            && t.cells == (match s.boxes[p].payload
                           case Reply(c) => s.cells[c := Closed(s.cells[c], sent)]
                           case _ => s.cells)
            && t.device == s.device && t.events == s.events && SameQueues(s, t) && t.fault == s.fault
  {
  }

  lemma FinishInv(s: State, p: Ptr, value: int)
    requires Inv(s) && p < |s.boxes| && s.boxes[p].place.Running?
    ensures Inv(DoFinish(s, p, value))
    ensures CellsKept(s, DoFinish(s, p, value), None)
    ensures NoTraffic(s, DoFinish(s, p, value))
    ensures DoFinish(s, p, value).boxes ==
            s.boxes[p := Dead(s.boxes[p], if s.boxes[p].payload.Reply? then Some(Ok(value)) else None)]
  {
    var t := DoFinish(s, p, value);
    assert BoxOk(s, p) && HeldOk(s, p);
    var cell := CellFor(s, p);
    var sent := if s.boxes[p].payload.Reply? then Some(Ok(value)) else None;
    FinishShape(s, p, value);
    DeviceApart(s, p);
    DeathInv(s, t, p, sent);
  }

  /** The receiver that an action polls or drops. */
  function Actor(a: Action): Option<Chan> {
    match a
    case PollRx(c) => Some(c)
    case DropRx(c) => Some(c)
    case _ => None
  }

  /** The existing box that an action changes, and what it becomes. */
  ghost function Change(s: State, a: Action): Option<(Ptr, Box)>
    requires Inv(s) && Enabled(s, a)
  {
    match a
    case CompleteIo(io, success) =>
      var q := s.device[io];
      Some((q, Dead(s.boxes[q], Some(if success then Ok(0) else Err(IoError)))))
    case CallEvent(ev) =>
      var q := s.events[ev].ptr;
      Some((q, s.boxes[q].(place := Queued(OnReactor(s.events[ev].lcore)))))
    case DropEvent(ev) =>
      var q := s.events[ev].ptr;
      Some((q, Dead(s.boxes[q], None)))
    case Begin(site) =>
      var q := At(s.lines, site)[0];
      assert LineOk(s, site) && q in At(s.lines, site);
      Some((q, s.boxes[q].(place := Running(site), ran := [site])))
    case Finish(q, value) =>
      Some((q, Dead(s.boxes[q], if s.boxes[q].payload.Reply? then Some(Ok(value)) else None)))
    case _ => None
  }

  ghost predicate Effect(s: State, a: Action, t: State)
    requires Inv(s) && Enabled(s, a)
  {
    match Change(s, a)
    case Some((q, b)) => q < |s.boxes| && t.boxes == s.boxes[q := b]
    case None =>
      if a.PollRx? || a.DropRx? then t.boxes == s.boxes
      else Added(s, t, a.Submit? && a.rc != 0, a.NewEvent? && !a.granted && a.reply)
  }

  /** What a queue has accepted after an action, and what was taken from it. */
  ghost function PostedBy(s: State, a: Action): map<Site, seq<Ptr>>
    requires Enabled(s, a)
  {
    match a
    case Send(thread, _) => Appended(s.posted, OnThread(thread), |s.boxes|)
    case CallEvent(ev) => Appended(s.posted, OnReactor(s.events[ev].lcore), s.events[ev].ptr)
    case _ => s.posted
  }

  ghost function BegunBy(s: State, a: Action): map<Site, seq<Ptr>>
    requires Enabled(s, a)
  {
    if a.Begin? then Appended(s.begun, a.site, At(s.lines, a.site)[0]) else s.begun
  }

  /** Every action keeps the invariant, changes one box at most, and no receiver but its own; the
      queues only grow and only `Begin` takes from them. */
  lemma StepInv(s: State, a: Action)
    requires Inv(s) && Enabled(s, a)
    ensures Inv(Apply(s, a))
    ensures CellsKept(s, Apply(s, a), Actor(a))
    ensures Effect(s, a, Apply(s, a))
    ensures Apply(s, a).posted == PostedBy(s, a) && Apply(s, a).begun == BegunBy(s, a)
  {
    match a
    case Submit(io, rc) => SubmitInv(s, io, rc);
    case CompleteIo(io, success) => CompleteIoInv(s, io, success);
    case PollRx(c) => PollRxInv(s, c);
    case DropRx(c) => DropRxInv(s, c);
    case Send(thread, reply) => SendInv(s, thread, reply);
    case NewEvent(lcore, ev, granted, reply) => NewEventInv(s, lcore, ev, granted, reply);
    case CallEvent(ev) => CallEventInv(s, ev);
    case DropEvent(ev) => DropEventInv(s, ev);
    case Begin(site) => BeginInv(s, site);
    case Finish(p, value) => FinishInv(s, p, value);
  }

  /** Every interleaving keeps the invariant. */
  lemma {:induction false} RunInv(s: State, acts: seq<Action>)
    requires Inv(s) && Feasible(s, acts)
    ensures Inv(Run(s, acts))
    decreases |acts|
  {
    if acts != [] {
      StepInv(s, acts[0]);
      RunInv(Apply(s, acts[0]), acts[1..]);
    }
  }
}
