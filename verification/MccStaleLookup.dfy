/**
 The documentation of the receive calls names the endpoint to receive from.  Because the
 lookup and the receive are separate sections, an entry that is closed and reused in between
 makes a receive deliver a message that was sent to another endpoint.
 */
module MccStaleLookup {
  import opened Options
  import opened MccTypes
  import opened MccShared
  import opened MccProtocol
  import opened MccRuns
  import opened MccSections

  const ASKED := Endpoint(0, 0, 1)
  const OTHER := Endpoint(0, 0, 2)

  /** One core, one table entry, one buffer, two idle tasks. */
  const SMALL := Config(1, 1, 2, 1, 1, [Task(0, 0, Idle), Task(0, 0, Idle)])

  const LOOKED_UP := LookedUp(ASKED, 0, CopyInto(1), Bounded)
  const RECEIVING := Receiving(ASKED, 0, CopyInto(1))

  const STEPS: seq<Step> := [
    Step(0, CreateEndpoint(1)),
    Step(0, LookUp(ASKED, CopyInto(1), Bounded)),
    Step(1, DestroyEndpoint(ASKED)),
    Step(1, CreateEndpoint(2)),
    Step(1, Send(OTHER, [7], NoWait)),
    Step(0, Peek(false)),
    Step(0, Receive)]

  /** The states along the run: the parts of the small system that change. */
  function At(slot: Slot, free: seq<nat>, ring: seq<Signal>, cell: Cell, pc: Pc): System {
    System(Shared(2, 1, free, [slot], [ring], [cell]), [Task(0, 0, pc), Task(0, 0, Idle)], {})
  }

  const EMPTY := Cell(0, [0])
  const FULL := Cell(1, [7])
  const POSTED := [Signal(BufferQueued, OTHER)]

  lemma IsAt(sys: System, slot: Slot, free: seq<nat>, ring: seq<Signal>, cell: Cell, pc: Pc)
    requires sys.shared.ringSize == 2 && sys.shared.bufferSize == 1 && sys.held == {}
    requires sys.shared.free == free && sys.shared.table == [slot]
    requires sys.shared.rings == [ring] && sys.shared.cells == [cell]
    requires sys.tasks == [Task(0, 0, pc), Task(0, 0, Idle)]
    ensures sys == At(slot, free, ring, cell, pc)
  {
  }

  lemma AskedIsOpened()
    requires At(Slot(ZERO_ENDPOINT, []), [0], [], EMPTY, Idle).Ok()
    ensures Next(At(Slot(ZERO_ENDPOINT, []), [0], [], EMPTY, Idle), STEPS[0])
            == (At(Slot(ASKED, []), [0], [], EMPTY, Idle), Opened(0, ASKED))
  {
    IsAt(Next(At(Slot(ZERO_ENDPOINT, []), [0], [], EMPTY, Idle), STEPS[0]).0, Slot(ASKED, []), [0], [], EMPTY, Idle);
  }

  lemma AskedIsFound()
    requires At(Slot(ASKED, []), [0], [], EMPTY, Idle).Ok()
    ensures Next(At(Slot(ASKED, []), [0], [], EMPTY, Idle), STEPS[1])
            == (At(Slot(ASKED, []), [0], [], EMPTY, LOOKED_UP), Found(ASKED, 0))
  {
    IsAt(Next(At(Slot(ASKED, []), [0], [], EMPTY, Idle), STEPS[1]).0, Slot(ASKED, []), [0], [], EMPTY, LOOKED_UP);
  }

  lemma AskedIsClosed(pc: Pc)
    requires At(Slot(ASKED, []), [0], [], EMPTY, pc).Ok()
    ensures Next(At(Slot(ASKED, []), [0], [], EMPTY, pc), STEPS[2])
            == (At(Slot(ZERO_ENDPOINT, []), [0], [], EMPTY, pc), Closed({0}))
  {
    assert [0] + [] == [0];
    IsAt(Next(At(Slot(ASKED, []), [0], [], EMPTY, pc), STEPS[2]).0, Slot(ZERO_ENDPOINT, []), [0], [], EMPTY, pc);
  }

  lemma OtherIsOpened(pc: Pc)
    requires At(Slot(ZERO_ENDPOINT, []), [0], [], EMPTY, pc).Ok()
    ensures Next(At(Slot(ZERO_ENDPOINT, []), [0], [], EMPTY, pc), STEPS[3])
            == (At(Slot(OTHER, []), [0], [], EMPTY, pc), Opened(0, OTHER))
  {
    IsAt(Next(At(Slot(ZERO_ENDPOINT, []), [0], [], EMPTY, pc), STEPS[3]).0, Slot(OTHER, []), [0], [], EMPTY, pc);
  }

  lemma OtherIsSent(pc: Pc)
    requires At(Slot(OTHER, []), [0], [], EMPTY, pc).Ok()
    ensures Next(At(Slot(OTHER, []), [0], [], EMPTY, pc), STEPS[4])
            == (At(Slot(OTHER, [0]), [], POSTED, FULL, pc), Sent(OTHER, [7]))
  {
    hide SendSection, System.Partitioned;
    OtherSection(pc);
    IsAt(Next(At(Slot(OTHER, []), [0], [], EMPTY, pc), STEPS[4]).0, Slot(OTHER, [0]), [], POSTED, FULL, pc);
  }

  lemma OtherSection(pc: Pc)
    requires At(Slot(OTHER, []), [0], [], EMPTY, pc).shared.Ok()
    ensures SendSection(At(Slot(OTHER, []), [0], [], EMPTY, pc).shared, OTHER, [7])
            == (At(Slot(OTHER, [0]), [], POSTED, FULL, pc).shared, Some(Success))
  {
    var s := At(Slot(OTHER, []), [0], [], EMPTY, pc).shared;
    var r := SendSection(s, OTHER, [7]).0;
    SendAllOrNothing(s, OTHER, [7]);
    assert EMPTY.Store([7]) == FULL;
    assert [] + POSTED == POSTED && [] + [0] == [0];
    assert r.free == [] && r.table == [Slot(OTHER, [0])] && r.rings == [POSTED] && r.cells == [FULL];
  }

  lemma AskedIsPeeked()
    requires At(Slot(OTHER, [0]), [], POSTED, FULL, LOOKED_UP).Ok()
    ensures Next(At(Slot(OTHER, [0]), [], POSTED, FULL, LOOKED_UP), STEPS[5])
            == (At(Slot(OTHER, [0]), [], POSTED, FULL, RECEIVING), Silent)
  {
    var sys := At(Slot(OTHER, [0]), [], POSTED, FULL, LOOKED_UP);
    IsAt(Next(sys, STEPS[5]).0, Slot(OTHER, [0]), [], POSTED, FULL, RECEIVING);
  }

  lemma OtherIsTaken()
    requires At(Slot(OTHER, [0]), [], POSTED, FULL, RECEIVING).Ok()
    ensures Next(At(Slot(OTHER, [0]), [], POSTED, FULL, RECEIVING), STEPS[6]).1
            == Taken(ASKED, 0, Received(0, [7], [7]), false)
  {
  }

  lemma StartsEmpty()
    ensures SMALL.Valid() && Start(SMALL) == At(Slot(ZERO_ENDPOINT, []), [0], [], EMPTY, Idle)
  {
    assert seq(1, _ => 0 as Byte) == EMPTY.data;
    assert Start(SMALL).shared.cells[0] == EMPTY;
    IsAt(Start(SMALL), Slot(ZERO_ENDPOINT, []), [0], [], EMPTY, Idle);
  }

  /** The run: task 0 asks for port 1 and gets the only message there is, which was sent to port 2. */
  ghost function StaleRun(last: System): Run {
    Run([At(Slot(ZERO_ENDPOINT, []), [0], [], EMPTY, Idle),
         At(Slot(ASKED, []), [0], [], EMPTY, Idle),
         At(Slot(ASKED, []), [0], [], EMPTY, LOOKED_UP),
         At(Slot(ZERO_ENDPOINT, []), [0], [], EMPTY, LOOKED_UP),
         At(Slot(OTHER, []), [0], [], EMPTY, LOOKED_UP),
         At(Slot(OTHER, [0]), [], POSTED, FULL, LOOKED_UP),
         At(Slot(OTHER, [0]), [], POSTED, FULL, RECEIVING),
         last],
        STEPS,
        [Opened(0, ASKED), Found(ASKED, 0), Closed({0}), Opened(0, OTHER), Sent(OTHER, [7]), Silent,
         Taken(ASKED, 0, Received(0, [7], [7]), false)])
  }

  /** The last step of the run, with whatever state it leads to. */
  ghost function LastState(): System {
    var sys := At(Slot(OTHER, [0]), [], POSTED, FULL, RECEIVING);
    if sys.Ok() then Next(sys, STEPS[6]).0 else sys
  }

  lemma StaleReceive()
    ensures IsRun(SMALL, StaleRun(LastState()))
  {
    hide System.Ok, Next;
    StartsEmpty();
    var x := StaleRun(LastState());
    forall k {:trigger x.steps[k]} | 0 <= k < |x.steps|
      ensures Moves(x.states[k], x.steps[k], x.trace[k], x.states[k + 1])
    {
      if x.states[k].Ok() {
        match k
        case 0 => AskedIsOpened();
        case 1 => AskedIsFound();
        case 2 => AskedIsClosed(LOOKED_UP);
        case 3 => OtherIsOpened(LOOKED_UP);
        case 4 => OtherIsSent(LOOKED_UP);
        case 5 => AskedIsPeeked();
        case _ => OtherIsTaken();
      }
    }
  }
}
