/** The worker's claim pump (packages/queue/src/queue/worker/with-worker.ts, lines 223-240
    and 678-736): a loop that awaits claims while enqueues, finishes, `stop` and `start`
    interleave with it. One event below is one uninterrupted stretch of the program. */
module WorkerPumps {

  /** Where the suspended pump stands: at its awaited claim, undecided or decided. */
  datatype Position = Parked | Waiting | Got | Empty | Failed

  datatype Pump = Pump(
    concurrency: nat, running: bool, active: nat, pumping: bool, pumpAgain: bool,
    at: Position, ready: nat,
    /** Another consumer has popped a row and waits for its store call. */
    held: bool)

  datatype Event =
    /** Rows became claimable (or delayed, when n == 0) and `queue:enqueued` fired. */
    | Enqueued(n: nat)
    /** A ready row was cancelled. */
    | Cancelled
    /** Another claim or dequeue, at the head of the write chain, popped a row ... */
    | Taken
    /** ... and kept it, or put it back without an event when its store call failed. */
    | TakeSettled(putBack: bool)
    /** The queue decided the pump's claim; a store failure puts the row back. The write
        chain keeps this apart from another consumer's operation. */
    | Decided(storeFails: bool)
    /** The pump continues after its await. */
    | Resumed
    /** A claimed item settled. */
    | Finished
    | Stopped
    | Started

  /** The exit of the inner loop: one more round if work arrived meanwhile. */
  function Exit(s: Pump): Pump {
    if s.pumpAgain && s.running then Round(s)
    else s.(pumping := false, at := Parked)
  }

  /** The head of a round: forget the wake-up, then claim if there is room. */
  function Round(s: Pump): Pump {
    if s.running && s.active < s.concurrency then s.(pumpAgain := false, at := Waiting)
    else s.(pumpAgain := false, pumping := false, at := Parked)
  }

  function PumpCall(s: Pump): Pump {
    if s.pumping then s.(pumpAgain := true) else Round(s.(pumping := true))
  }

  function Exec(s: Pump, e: Event): Pump {
    match e
    case Enqueued(n) =>
      var s' := s.(ready := s.ready + n);
      if s'.running then PumpCall(s') else s'
    case Cancelled => if s.ready > 0 then s.(ready := s.ready - 1) else s
    case Taken => if s.ready > 0 && !s.held then s.(ready := s.ready - 1, held := true) else s
    case TakeSettled(putBack) =>
      if s.held then s.(held := false, ready := s.ready + (if putBack then 1 else 0)) else s
    case Decided(storeFails) =>
      if s.at != Waiting || s.held then s
      else if storeFails then s.(at := Failed)
      else if s.ready > 0 then s.(at := Got, ready := s.ready - 1)
      else s.(at := Empty)
    case Resumed =>
      (match s.at
       case Got =>
         var s' := s.(active := s.active + 1);
         if s'.running && s'.active < s'.concurrency then s'.(at := Waiting) else Exit(s')
       case Empty => Exit(s)
       case Failed => Exit(s.(running := false))
       case _ => s)
    case Finished =>
      if s.active == 0 then s
      else
        var s' := s.(active := s.active - 1);
        if s'.pumping then s' else PumpCall(s')
    case Stopped => s.(running := false)
    case Started => if s.running then s else PumpCall(s.(running := true))
  }

  function Run(s: Pump, events: seq<Event>): Pump {
    if events == [] then s else Exec(Run(s, events[..|events| - 1]), events[|events| - 1])
  }

  function Initial(concurrency: nat): Pump {
    Pump(concurrency, false, 0, false, false, Parked, 0, false)
  }

  /** A row is ready, or may be again without an event. */
  predicate MayHaveWork(s: Pump) {
    s.ready > 0 || s.held
  }

  ghost predicate Safe(s: Pump) {
    && s.active <= s.concurrency
    && (s.pumping <==> s.at != Parked)
    && (s.pumping ==> s.active < s.concurrency)
    // no lost wake-up
    && (s.running && !s.pumping && MayHaveWork(s) ==> s.active == s.concurrency)
    && (s.running && s.at == Empty && MayHaveWork(s) ==> s.pumpAgain)
  }

  lemma StepIsSafe(s: Pump, e: Event)
    requires Safe(s)
    ensures Safe(Exec(s, e)) && Exec(s, e).concurrency == s.concurrency
  {
  }

  /** In every interleaving: never more than `concurrency` items, and no wake-up is lost,
      although rows that another consumer puts back come without an event. */
  lemma {:induction false} EveryRunIsSafe(concurrency: nat, events: seq<Event>)
    requires concurrency >= 1
    ensures var s := Run(Initial(concurrency), events);
      && s.active <= concurrency
      && (s.running && !s.pumping && s.ready > 0 ==> s.active == concurrency)
      && (s.running && s.at == Empty && s.ready > 0 ==> s.pumpAgain)
      && Safe(s) && s.concurrency == concurrency
  {
    if events != [] {
      var before := events[..|events| - 1];
      EveryRunIsSafe(concurrency, before);
      StepIsSafe(Run(Initial(concurrency), before), events[|events| - 1]);
    }
  }

  /** The pump's own next step, when nothing else happens and the store works. */
  function PumpStep(s: Pump): Pump {
    Exec(s, if s.at == Waiting then Decided(false) else Resumed)
  }

  function PumpSteps(s: Pump, n: nat): Pump
    decreases n
  {
    if n == 0 then s else PumpSteps(PumpStep(s), n - 1)
  }

  /** Ready work and a free slot: the pump alone starts an item within four of its steps. */
  lemma ReadyWorkIsPickedUp(s: Pump)
    requires Safe(s) && s.running && s.ready > 0 && !s.held && s.active < s.concurrency && s.at != Failed
    ensures exists n: nat :: n <= 4 && PumpSteps(s, n).active == s.active + 1
  {
    var n := match s.at
      case Waiting => 2
      case Got => 1
      case Empty => 3
      case _ => 0;
    var s1 := PumpStep(s);
    var s2 := PumpStep(s1);
    var s3 := PumpStep(s2);
    assert PumpSteps(s, 1) == PumpSteps(s1, 0) == s1;
    assert PumpSteps(s, 2) == PumpSteps(s1, 1) == PumpSteps(s2, 0) == s2;
    assert PumpSteps(s, 3) == PumpSteps(s1, 2) == PumpSteps(s2, 1) == PumpSteps(s3, 0) == s3;
    assert PumpSteps(s, n).active == s.active + 1;
  }

  /** A parked pump does nothing on its own. */
  lemma {:induction false} ParkedStays(s: Pump, k: nat)
    requires s.at == Parked
    ensures PumpSteps(s, k) == s
    decreases k
  {
    if k > 0 {
      ParkedStays(s, k - 1);
    }
  }

  /** Left alone, the pump takes one of the `n` ready rows, or every slot is busy. */
  ghost predicate GetsToWork(s: Pump, n: nat) {
    exists k: nat :: PumpSteps(s, k).ready < n || PumpSteps(s, k).active == s.concurrency
  }

  lemma GetsToWorkNext(s: Pump, n: nat)
    requires s.ready == n && s.active != s.concurrency
    ensures GetsToWork(s, n) <==> GetsToWork(PumpStep(s), n)
  {
    if GetsToWork(s, n) {
      var k: nat :| PumpSteps(s, k).ready < n || PumpSteps(s, k).active == s.concurrency;
      assert PumpSteps(s, 0) == s;
      assert PumpSteps(s, k) == PumpSteps(PumpStep(s), k - 1);
    }
    if GetsToWork(PumpStep(s), n) {
      var k: nat :| PumpSteps(PumpStep(s), k).ready < n || PumpSteps(PumpStep(s), k).active == s.concurrency;
      assert PumpSteps(s, k + 1) == PumpSteps(PumpStep(s), k);
    }
  }

  lemma ParkedNeverWorks(s: Pump, n: nat)
    requires s.at == Parked && s.ready == n && s.active != s.concurrency
    ensures !GetsToWork(s, n)
  {
    forall k: nat
      ensures PumpSteps(s, k) == s
    {
      ParkedStays(s, k);
    }
  }

  /** `replaceAll` adds ready rows without an event. A running pump with a free slot gets to
      them exactly when its claim is undecided or granted, or a wake-up was noted after it
      found the queue empty; otherwise they wait for some later event. */
  lemma SilentRowsArePickedUpIff(s: Pump, n: nat)
    requires Safe(s) && s.running && s.active < s.concurrency && !MayHaveWork(s) && n > 0
    ensures GetsToWork(s.(ready := n), n) <==> s.at in {Waiting, Got} || (s.at == Empty && s.pumpAgain)
  {
    var s' := s.(ready := n);
    var s1 := PumpStep(s');
    var s2 := PumpStep(s1);
    assert PumpSteps(s', 1) == PumpSteps(s1, 0) == s1;
    assert PumpSteps(s', 2) == PumpSteps(s1, 1) == PumpSteps(s2, 0) == s2;
    match s.at
    case Parked => ParkedNeverWorks(s', n);
    case Waiting => assert PumpSteps(s', 1).ready < n;
    case Got => assert PumpSteps(s', 1).active == s.concurrency || PumpSteps(s', 2).ready < n;
    case Empty =>
      if s.pumpAgain {
        assert PumpSteps(s', 2).ready < n;
      } else {
        ParkedNeverWorks(s1, n);
        GetsToWorkNext(s', n);
      }
    case Failed =>
      ParkedNeverWorks(s1, n);
      GetsToWorkNext(s', n);
  }

  // --------------------------------------------------------- stop and start

  /** The event makes the pump call `claim`. */
  predicate BeginsClaim(s: Pump, e: Event) {
    s.at != Waiting && Exec(s, e).at == Waiting
  }

  function ClaimsBegun(s: Pump, events: seq<Event>): nat {
    if events == [] then 0
    else
      var init := events[..|events| - 1];
      ClaimsBegun(s, init) + (if BeginsClaim(Run(s, init), events[|events| - 1]) then 1 else 0)
  }

  /** A claim under way: undecided, or granted and not yet taken up. */
  function Underway(s: Pump): nat {
    if s.at in {Waiting, Got} then 1 else 0
  }

  lemma StoppedStep(s: Pump, e: Event)
    requires !s.running && e != Started
    ensures !Exec(s, e).running && !BeginsClaim(s, e)
    ensures Exec(s, e).active + Underway(Exec(s, e)) <= s.active + Underway(s)
  {
  }

  /** From a stop until the next start, in every run: the worker does not run, no claim begins, and
      at most the one claim already under way still starts an item. */
  lemma {:induction false} StopStops(s: Pump, events: seq<Event>)
    requires Started !in events
    ensures var s' := Run(Exec(s, Stopped), events);
      && !s'.running && ClaimsBegun(Exec(s, Stopped), events) == 0
      && s'.active <= s.active + Underway(s)
      && s'.active + Underway(s') <= s.active + Underway(s)
  {
    if events != [] {
      var init, last := events[..|events| - 1], events[|events| - 1];
      StopStops(s, init);
      assert last in events;
      StoppedStep(Run(Exec(s, Stopped), init), last);
    }
  }

  /** A claim that failed in the store stops the worker, as a stop would. */
  lemma FailureStops(s: Pump)
    requires Safe(s) && s.at == Failed
    ensures var s' := Exec(s, Resumed); !s'.running && s'.at == Parked && s'.active == s.active
  {
  }

  /** A start with a free slot leads to a claim: at once, or, where the pump of before the stop is
      still at a claim, when that one is over. Only a claim that has failed undoes the start. */
  lemma StartClaims(s: Pump)
    requires Safe(s) && !s.running && s.active < s.concurrency
    ensures var s' := Exec(s, Started);
      && s'.running && s'.active == s.active && s'.ready == s.ready
      && (s.at == Parked ==> BeginsClaim(s, Started))
      && (s.at == Waiting ==> s'.at == Waiting)
      && (s.at == Got ==> BeginsClaim(s', Resumed) || Exec(s', Resumed).active == s.concurrency)
      && (s.at == Empty ==> BeginsClaim(s', Resumed))
      && (s.at == Failed ==> !Exec(s', Resumed).running)
  {
  }

  /** A finished item frees its slot, and a running pump that was parked claims for it. */
  lemma FinishFrees(s: Pump)
    requires Safe(s) && s.active > 0
    ensures var s' := Exec(s, Finished);
      && s'.active == s.active - 1
      && (s.running && s.at == Parked ==> BeginsClaim(s, Finished))
      && (s.at != Parked ==> s'.at == s.at && s'.pumpAgain == s.pumpAgain)
  {
  }

  // ------------------------------------------------------------ conservation

  /** The rows that are ready, held by a consumer, granted to the pump, or being worked on. */
  function Rows(s: Pump): nat {
    s.ready + (if s.held then 1 else 0) + (if s.at == Got then 1 else 0) + s.active
  }

  /** What an event brings in, or lets go. */
  function Change(s: Pump, e: Event): int {
    match e
    case Enqueued(n) => n
    case Cancelled => if s.ready > 0 then -1 else 0
    case TakeSettled(putBack) => if s.held && !putBack then -1 else 0
    case Finished => if s.active > 0 then -1 else 0
    case _ => 0
  }

  function Changes(s: Pump, events: seq<Event>): int {
    if events == [] then 0
    else
      var init := events[..|events| - 1];
      Changes(s, init) + Change(Run(s, init), events[|events| - 1])
  }

  lemma StepConserves(s: Pump, e: Event)
    requires Safe(s)
    ensures Rows(Exec(s, e)) == Rows(s) + Change(s, e)
  {
  }

  /** No row is worked on twice and none is lost: over a run, what came in is what was cancelled,
      consumed or finished, and what is still there. */
  lemma {:induction false} RowsAreConserved(s: Pump, events: seq<Event>)
    requires Safe(s)
    ensures Safe(Run(s, events)) && Rows(Run(s, events)) == Rows(s) + Changes(s, events)
  {
    if events != [] {
      var init := events[..|events| - 1];
      RowsAreConserved(s, init);
      StepIsSafe(Run(s, init), events[|events| - 1]);
      StepConserves(Run(s, init), events[|events| - 1]);
    }
  }

  // ------------------------------------------------------------------- class

  class WorkerPump {
    const concurrency: nat
    var running: bool
    var active: nat
    var pumping: bool
    var pumpAgain: bool
    var at: Position
    var ready: nat
    var held: bool

    function State(): Pump
      reads this
    {
      Pump(concurrency, running, active, pumping, pumpAgain, at, ready, held)
    }

    constructor (concurrency: nat)
      ensures State() == Initial(concurrency)
    {
      this.concurrency := concurrency;
      running, active, pumping, pumpAgain, at, ready, held := false, 0, false, false, Parked, 0, false;
    }

    /** `pumpAsync` up to its first await. */
    method PumpAsync()
      modifies this
      ensures State() == PumpCall(old(State()))
    {
      if pumping {
        pumpAgain := true;
        return;
      }
      pumping := true;
      EnterRound();
    }

    method EnterRound()
      modifies this
      ensures State() == Round(old(State()))
    {
      pumpAgain := false;
      if running && active < concurrency {
        at := Waiting;
        return;
      }
      LeaveLoop();
    }

    /** The end of the inner loop and the `finally` block, whose restart never fires. */
    method LeaveLoop()
      modifies this
      ensures old(pumpAgain && running) ==> State() == Round(old(State()))
      ensures !old(pumpAgain && running) ==> State() == old(State()).(pumping := false, at := Parked)
    {
      if pumpAgain && running {
        pumpAgain := false;
        if running && active < concurrency {
          at := Waiting;
          return;
        }
      }
      pumping := false;
      at := Parked;
      if pumpAgain && running {
        assert false;
      }
    }

    method OnEnqueued(n: nat)
      modifies this
      ensures State() == Exec(old(State()), Enqueued(n))
    {
      ready := ready + n;
      if running {
        PumpAsync();
      }
    }

    method ClaimDecides(storeFails: bool)
      modifies this
      ensures State() == Exec(old(State()), Decided(storeFails))
    {
      if at != Waiting || held {
        return;
      }
      if storeFails {
        at := Failed;
      } else if ready > 0 {
        ready := ready - 1;
        at := Got;
      } else {
        at := Empty;
      }
    }

    /** The pump after its awaited claim settled. */
    method Resume()
      modifies this
      ensures State() == Exec(old(State()), Resumed)
    {
      match at {
        case Failed =>
          Stop();
          LeaveLoop();
        case Empty =>
          LeaveLoop();
        case Got =>
          active := active + 1;
          if running && active < concurrency {
            at := Waiting;
          } else {
            LeaveLoop();
          }
        case _ =>
      }
    }

    method FinishItem()
      modifies this
      ensures State() == Exec(old(State()), Finished)
    {
      if active == 0 {
        return;
      }
      active := active - 1;
      if !pumping {
        PumpAsync();
      }
    }

    method Stop()
      modifies this
      ensures State() == Exec(old(State()), Stopped)
    {
      running := false;
    }

    method Start()
      modifies this
      ensures State() == Exec(old(State()), Started)
    {
      if running {
        return;
      }
      running := true;
      PumpAsync();
    }
  }
}
