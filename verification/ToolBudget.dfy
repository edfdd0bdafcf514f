/**
 * Tool admission: four semaphores taken permit by permit in a fixed order, a
 * bounded queue counter, a timeout, and permits given back one at a time
 * (crates/host-core/src/tool_budget.rs). Callers interleave freely.
 */
module ToolBudget {
  import opened Sets

  const MAX_IN_FLIGHT_TOOLS: int := 16
  const MAX_IN_FLIGHT_SHELL: int := 4
  const MAX_IN_FLIGHT_READS: int := 8
  const MAX_IN_FLIGHT_MUTATIONS: int := 2
  const MAX_IN_FLIGHT_MUTATIONS_PER_SESSION: int := 1
  const MAX_IN_FLIGHT_PLUGINS: int := 4
  const MAX_IN_FLIGHT_PER_SESSION: int := 4
  const MAX_QUEUED_TOOLS: int := 64

  type SessionId = string
  type CallId = nat

  datatype ToolClass = Read | Mutation | Shell | Plugin

  function FromName(tool: string): ToolClass {
    if tool in {"Read", "Glob", "Grep"} then Read
    else if tool in {"Write", "Edit"} then Mutation
    else if tool == "Bash" then Shell
    else Plugin
  }

  datatype Semaphore = SessionMutation(session: SessionId) | Total | OfClass(class_: ToolClass) | OfSession(session: SessionId)

  function Capacity(s: Semaphore): int {
    match s
    case SessionMutation(_) => MAX_IN_FLIGHT_MUTATIONS_PER_SESSION
    case Total => MAX_IN_FLIGHT_TOOLS
    case OfClass(Read) => MAX_IN_FLIGHT_READS
    case OfClass(Mutation) => MAX_IN_FLIGHT_MUTATIONS
    case OfClass(Shell) => MAX_IN_FLIGHT_SHELL
    case OfClass(Plugin) => MAX_IN_FLIGHT_PLUGINS
    case OfSession(_) => MAX_IN_FLIGHT_PER_SESSION
  }

  /** The place of a semaphore in the order of acquisition. */
  function Level(s: Semaphore): nat {
    match s
    case SessionMutation(_) => 0
    case Total => 1
    case OfClass(_) => 2
    case OfSession(_) => 3
  }

  datatype Outcome = Finished | QueueFull(queueDepth: int) | QueueWaitTimeout

  /** Where one call stands; the number is the level it takes, or has just given back. */
  datatype Phase =
    | Trying(next: nat)
    | BackingOut(next: nat)
    | Unqueued
    | Refused(queueDepth: int)
    | Waiting(next: nat)
    | TimedOut(next: nat)
    | Granted
    | Admitted
    | Releasing(dropped: nat)
    | Done(outcome: Outcome)

  datatype Call = Call(class_: ToolClass, session: SessionId, phase: Phase) {
    /** Only mutations take the semaphore of level 0. */
    function Start(): nat {
      if class_.Mutation? then 0 else 1
    }

    function At(level: nat): Semaphore {
      if level == 0 then SessionMutation(session)
      else if level == 1 then Total
      else if level == 2 then OfClass(class_)
      else OfSession(session)
    }

    /** A permit drops its total part first and its session mutation part last. */
    predicate HoldsLevel(level: nat) {
      match phase
      case Trying(n) => level < n
      case BackingOut(n) => level < n
      case Waiting(n) => level < n
      case TimedOut(n) => level < n
      case Granted => true
      case Admitted => true
      case Releasing(n) => (level + 3) % 4 >= n
      case _ => false
    }

    predicate Holds(s: Semaphore) {
      Start() <= Level(s) && At(Level(s)) == s && HoldsLevel(Level(s))
    }

    /** Between the increment and the decrement of the queue counter. */
    predicate Counted() {
      phase.Refused? || Passed()
    }

    /** Let past the queue check and not yet out of the queue. */
    predicate Passed() {
      phase.Waiting? || phase.TimedOut? || phase.Granted?
    }

    predicate Ok() {
      match phase
      case Trying(n) => Start() <= n <= 3
      case BackingOut(n) => Start() <= n <= 3
      case Waiting(n) => Start() <= n <= 3
      case TimedOut(n) => Start() <= n <= 3
      case Releasing(n) => Start() + n <= 4
      case _ => true
    }

    /** How many of its own steps a call has left at most. */
    function Rank(): int {
      match phase
      case Trying(n) => 24 - n
      case BackingOut(n) => 14 + n
      case Unqueued => 13
      case Refused(_) => 1
      case Waiting(n) => 12 - n
      case TimedOut(n) => 2 + n
      case Granted => 7
      case Admitted => 6
      case Releasing(n) => 5 - n
      case Done(_) => 0
    }
  }

  /** A semaphore no call has asked for yet is a full one. */
  datatype State = State(free: map<Semaphore, int>, queued: int, calls: map<CallId, Call>) {
    function Free(s: Semaphore): int {
      if s in free then free[s] else Capacity(s)
    }

    function Put(id: CallId, c: Call): State {
      this.(calls := calls[id := c])
    }

    function Take(s: Semaphore): State {
      this.(free := free[s := Free(s) - 1])
    }

    function Give(s: Semaphore): State {
      this.(free := free[s := Free(s) + 1])
    }
  }

  const IDLE := State(map[], 0, map[])

  datatype Action = Arrive(class_: ToolClass, session: SessionId) | Proceed | GiveUp | Release

  datatype Event = Event(id: CallId, action: Action)

  /** A waiting call is blocked while its next semaphore is empty; an admitted one runs its tool. */
  predicate CanProceed(b: State, id: CallId) {
    && id in b.calls
    && !b.calls[id].phase.Done?
    && !b.calls[id].phase.Admitted?
    && (b.calls[id].phase.Waiting? ==> b.Free(b.calls[id].At(b.calls[id].phase.next)) > 0)
  }

  predicate Enabled(b: State, e: Event) {
    match e.action
    case Arrive(_, _) => e.id !in b.calls
    case Proceed => CanProceed(b, e.id)
    case GiveUp => e.id in b.calls && b.calls[e.id].phase.Waiting?
    case Release => e.id in b.calls && b.calls[e.id].phase.Admitted?
  }

  /** The next atomic step of a call. */
  function Advance(b: State, id: CallId): State
    requires CanProceed(b, id)
  {
    var c := b.calls[id];
    match c.phase
    case Trying(n) =>
      if b.Free(c.At(n)) > 0
      then b.Take(c.At(n)).Put(id, c.(phase := if n >= 3 then Admitted else Trying(n + 1)))
      else b.Put(id, c.(phase := BackingOut(n)))
    case BackingOut(n) =>
      if n <= c.Start() then b.Put(id, c.(phase := Unqueued))
      else b.Give(c.At(n - 1)).Put(id, c.(phase := BackingOut(n - 1)))
    case Unqueued =>
      var depth := b.queued + 1;
      b.(queued := depth).Put(id, c.(phase := if depth > MAX_QUEUED_TOOLS then Refused(depth) else Waiting(c.Start())))
    case Refused(depth) =>
      b.(queued := b.queued - 1).Put(id, c.(phase := Done(QueueFull(depth))))
    case Waiting(n) =>
      b.Take(c.At(n)).Put(id, c.(phase := if n >= 3 then Granted else Waiting(n + 1)))
    case TimedOut(n) =>
      if n <= c.Start() then b.(queued := b.queued - 1).Put(id, c.(phase := Done(QueueWaitTimeout)))
      else b.Give(c.At(n - 1)).Put(id, c.(phase := TimedOut(n - 1)))
    case Granted =>
      b.(queued := b.queued - 1).Put(id, c.(phase := Admitted))
    case Releasing(n) =>
      if c.Start() + n >= 4 then b.Put(id, c.(phase := Done(Finished)))
      else b.Give(c.At((n + 1) % 4)).Put(id, c.(phase := Releasing(n + 1)))
  }

  /** An event that is not enabled does not happen. */
  function Step(b: State, e: Event): State {
    if !Enabled(b, e) then b
    else match e.action
      case Arrive(class_, session) =>
        var c := Call(class_, session, Unqueued);
        b.Put(e.id, c.(phase := Trying(c.Start())))
      case Proceed => Advance(b, e.id)
      case GiveUp => b.Put(e.id, b.calls[e.id].(phase := TimedOut(b.calls[e.id].phase.next)))
      case Release => b.Put(e.id, b.calls[e.id].(phase := Releasing(0)))
  }

  function Run(events: seq<Event>): State {
    if events == [] then IDLE else Step(Run(events[..|events| - 1]), events[|events| - 1])
  }

  // ----- counting calls -----

  function Those(calls: map<CallId, Call>, p: Call -> bool): set<CallId> {
    set id | id in calls && p(calls[id])
  }

  function One(b: bool): int {
    if b then 1 else 0
  }

  lemma SetReplaced(before: set<CallId>, after: set<CallId>, id: CallId)
    requires before - {id} == after - {id}
    ensures |after| == |before| + One(id in after) - One(id in before)
  {
    assert before == if id in before then (before - {id}) + {id} else before - {id};
    assert after == if id in after then (after - {id}) + {id} else after - {id};
  }

  /** Changing one call changes a count by that call alone. */
  lemma CountReplaced(calls: map<CallId, Call>, id: CallId, c: Call, p: Call -> bool)
    ensures |Those(calls[id := c], p)| ==
            |Those(calls, p)| + One(p(c)) - One(id in calls && p(calls[id]))
  {
    SetReplaced(Those(calls, p), Those(calls[id := c], p), id);
  }

  function Holding(s: Semaphore): Call -> bool {
    (c: Call) => c.Holds(s)
  }

  function InQueue(): Call -> bool {
    (c: Call) => c.Counted()
  }

  function PastCheck(): Call -> bool {
    (c: Call) => c.Passed()
  }

  function Holders(b: State, s: Semaphore): set<CallId> {
    Those(b.calls, Holding(s))
  }

  function Counted(b: State): set<CallId> {
    Those(b.calls, InQueue())
  }

  function Passed(b: State): set<CallId> {
    Those(b.calls, PastCheck())
  }

  // ----- what every run keeps -----

  ghost predicate Shaped(b: State) {
    forall id :: id in b.calls ==> b.calls[id].Ok()
  }

  ghost predicate Conserved(b: State) {
    forall s {:trigger b.Free(s)} {:trigger Holders(b, s)} ::
      b.Free(s) >= 0 && b.Free(s) + |Holders(b, s)| == Capacity(s)
  }

  ghost predicate QueueBounded(b: State) {
    b.queued == |Counted(b)| && |Passed(b)| <= MAX_QUEUED_TOOLS
  }

  lemma StepOk(b: State, e: Event)
    requires Enabled(b, e) && (e.id in b.calls ==> b.calls[e.id].Ok())
    ensures e.id in Step(b, e).calls && Step(b, e).calls[e.id].Ok()
  {
    hide Capacity, Call.At, State.Free;
  }

  lemma StepChangesOne(b: State, e: Event)
    requires Enabled(b, e)
    ensures e.id in Step(b, e).calls && Step(b, e).calls == b.calls[e.id := Step(b, e).calls[e.id]]
  {}

  lemma StepDisabled(b: State, e: Event)
    requires !Enabled(b, e)
    ensures Step(b, e) == b
  {}

  lemma StepShaped(b: State, e: Event)
    requires Shaped(b)
    ensures Shaped(Step(b, e))
  {
    hide Step, Enabled, Call.Ok;
    if Enabled(b, e) {
      StepOk(b, e);
      StepChangesOne(b, e);
    } else {
      StepDisabled(b, e);
    }
  }

  /** Levels and semaphores determine each other for one call. */
  lemma OwnLevel(c: Call, s: Semaphore, n: nat)
    requires c.Start() <= n <= 3
    ensures s == c.At(n) <==> c.Start() <= Level(s) && c.At(Level(s)) == s && Level(s) == n
  {}

  lemma TakeTransfers(c: Call, next: Phase, s: Semaphore)
    requires c.Ok() && (c.phase.Trying? || c.phase.Waiting?)
    requires next == (if c.phase.Trying? then (if c.phase.next >= 3 then Admitted else Trying(c.phase.next + 1))
                      else if c.phase.next >= 3 then Granted else Waiting(c.phase.next + 1))
    ensures One(c.(phase := next).Holds(s)) == One(c.Holds(s)) + One(s == c.At(c.phase.next))
  {
    OwnLevel(c, s, c.phase.next);
  }

  lemma DropTransfers(c: Call, next: Phase, s: Semaphore)
    requires c.Ok() && (c.phase.BackingOut? || c.phase.TimedOut?) && c.phase.next > c.Start()
    requires next == if c.phase.BackingOut? then BackingOut(c.phase.next - 1) else TimedOut(c.phase.next - 1)
    ensures One(c.(phase := next).Holds(s)) + One(s == c.At(c.phase.next - 1)) == One(c.Holds(s))
  {
    OwnLevel(c, s, c.phase.next - 1);
  }

  lemma ReleaseTransfers(c: Call, s: Semaphore)
    requires c.Ok() && c.phase.Releasing? && c.Start() + c.phase.dropped < 4
    ensures One(c.(phase := Releasing(c.phase.dropped + 1)).Holds(s)) + One(s == c.At((c.phase.dropped + 1) % 4)) == One(c.Holds(s))
  {
    OwnLevel(c, s, (c.phase.dropped + 1) % 4);
  }

  predicate TouchesPermits(b: State, id: CallId) {
    id in b.calls &&
    match b.calls[id].phase
    case Trying(n) => b.Free(b.calls[id].At(n)) > 0
    case Waiting(_) => true
    case BackingOut(n) => n > b.calls[id].Start()
    case TimedOut(n) => n > b.calls[id].Start()
    case Releasing(n) => b.calls[id].Start() + n < 4
    case _ => false
  }

  lemma FreeAfterTake(b: State, t: Semaphore, s: Semaphore, id: CallId, c: Call)
    ensures b.Take(t).Put(id, c).Free(s) == b.Free(s) - One(s == t)
    ensures b.Give(t).Put(id, c).Free(s) == b.Free(s) + One(s == t)
  {
    hide Capacity;
  }

  ghost predicate Transfers(b: State, next: State, id: CallId, s: Semaphore) {
    && id in next.calls
    && next.Free(s) + One(next.calls[id].Holds(s)) == b.Free(s) + One(id in b.calls && b.calls[id].Holds(s))
  }

  lemma TakingTransfers(b: State, id: CallId, s: Semaphore)
    requires CanProceed(b, id) && TouchesPermits(b, id) && b.calls[id].Ok()
    requires b.calls[id].phase.Trying? || b.calls[id].phase.Waiting?
    ensures Transfers(b, Advance(b, id), id, s)
  {
    hide Capacity, Call.Holds, State.Free, Call.Ok;
    var c, next := b.calls[id], Advance(b, id);
    TakeTransfers(c, next.calls[id].phase, s);
    FreeAfterTake(b, c.At(c.phase.next), s, id, next.calls[id]);
  }

  lemma GivingTransfers(b: State, id: CallId, s: Semaphore)
    requires CanProceed(b, id) && TouchesPermits(b, id) && b.calls[id].Ok()
    requires !(b.calls[id].phase.Trying? || b.calls[id].phase.Waiting?)
    ensures Transfers(b, Advance(b, id), id, s)
  {
    hide Capacity, Call.Holds, State.Free, Call.Ok;
    var c, next := b.calls[id], Advance(b, id);
    if c.phase.Releasing? {
      ReleaseTransfers(c, s);
      FreeAfterTake(b, c.At((c.phase.dropped + 1) % 4), s, id, next.calls[id]);
    } else {
      DropTransfers(c, next.calls[id].phase, s);
      FreeAfterTake(b, c.At(c.phase.next - 1), s, id, next.calls[id]);
    }
  }

  lemma UntouchedTransfers(b: State, e: Event, s: Semaphore)
    requires Shaped(b) && Enabled(b, e) && !(e.action.Proceed? && TouchesPermits(b, e.id))
    ensures var next := Step(b, e);
            && e.id in next.calls && next.free == b.free
            && next.calls[e.id].Holds(s) == (e.id in b.calls && b.calls[e.id].Holds(s))
  {
    if e.id in b.calls { assert b.calls[e.id].Ok(); }
  }

  /** What a step gives to the semaphores is exactly what the call stops holding. */
  lemma StepTransfers(b: State, e: Event, s: Semaphore)
    requires Shaped(b) && Enabled(b, e)
    ensures Transfers(b, Step(b, e), e.id, s)
  {
    if e.action.Proceed? && TouchesPermits(b, e.id) {
      hide TouchesPermits, CanProceed, Advance, Capacity, Call.Holds, State.Free, Transfers;
      if b.calls[e.id].phase.Trying? || b.calls[e.id].phase.Waiting? {
        TakingTransfers(b, e.id, s);
      } else {
        GivingTransfers(b, e.id, s);
      }
    } else {
      UntouchedTransfers(b, e, s);
    }
  }

  /** A permit is taken only while one is free. */
  lemma StepStaysFree(b: State, e: Event, s: Semaphore)
    requires b.Free(s) >= 0
    ensures Step(b, e).Free(s) >= 0
  {
    hide Capacity;
  }

  lemma StepConserves(b: State, e: Event)
    requires Shaped(b) && Conserved(b)
    ensures Conserved(Step(b, e))
  {
    hide Step, Enabled, Shaped, Those, One;
    if Enabled(b, e) {
      var next := Step(b, e);
      StepChangesOne(b, e);
      forall s
        ensures next.Free(s) >= 0 && next.Free(s) + |Holders(next, s)| == Capacity(s)
      {
        StepTransfers(b, e, s);
        StepStaysFree(b, e, s);
        CountReplaced(b.calls, e.id, next.calls[e.id], Holding(s));
        assert b.Free(s) + |Holders(b, s)| == Capacity(s);
      }
    } else {
      assert Step(b, e) == b by { StepDisabled(b, e); }
    }
  }

  lemma StepCounts(b: State, e: Event)
    requires Enabled(b, e)
    ensures var next := Step(b, e);
            && e.id in next.calls
            && next.queued - b.queued == One(next.calls[e.id].Counted()) - One(e.id in b.calls && b.calls[e.id].Counted())
            && (next.calls[e.id].Passed() ==> (e.id in b.calls && b.calls[e.id].Passed()) || next.queued <= MAX_QUEUED_TOOLS)
  {}

  lemma PassedAreCounted(b: State)
    ensures |Passed(b)| <= |Counted(b)|
  {
    assert Passed(b) <= Counted(b);
    SubsetSize(Passed(b), Counted(b));
  }

  lemma StepKeepsQueue(b: State, e: Event)
    requires QueueBounded(b)
    ensures QueueBounded(Step(b, e))
  {
    hide Step, Enabled, Those;
    if Enabled(b, e) {
      var next := Step(b, e);
      StepChangesOne(b, e);
      StepCounts(b, e);
      CountReplaced(b.calls, e.id, next.calls[e.id], InQueue());
      CountReplaced(b.calls, e.id, next.calls[e.id], PastCheck());
      PassedAreCounted(next);
    } else {
      StepDisabled(b, e);
    }
  }

  ghost predicate Invariant(b: State) {
    Shaped(b) && Conserved(b) && QueueBounded(b)
  }

  lemma IdleInvariant()
    ensures Invariant(IDLE)
  {
    assert Counted(IDLE) == {} && Passed(IDLE) == {};
    forall s ensures Holders(IDLE, s) == {} {}
  }

  lemma RunEmpty()
    ensures Run([]) == IDLE
  {}

  lemma RunLast(events: seq<Event>)
    requires events != []
    ensures Run(events) == Step(Run(events[..|events| - 1]), events[|events| - 1])
  {}

  lemma InvariantStep(b: State, e: Event)
    requires Invariant(b)
    ensures Invariant(Step(b, e))
  {
    hide Step, Shaped, Conserved, QueueBounded;
    StepShaped(b, e);
    StepConserves(b, e);
    StepKeepsQueue(b, e);
  }

  /**
   * In every interleaving: free and held permits of every semaphore add up to
   * its capacity, the counter counts exactly the calls between its increment
   * and its decrement, and at most 64 calls are past the queue check.
   */
  lemma {:induction false} EveryRunKeeps(events: seq<Event>)
    ensures Invariant(Run(events))
  {
    hide *;
    if events == [] {
      IdleInvariant();
      RunEmpty();
    } else {
      EveryRunKeeps(events[..|events| - 1]);
      InvariantStep(Run(events[..|events| - 1]), events[|events| - 1]);
      RunLast(events);
    }
  }

  // ----- progress -----

  /** Runs its tool, or can take its next step now. */
  predicate Unblocked(b: State, id: CallId) {
    id in b.calls && (b.calls[id].phase.Admitted? || CanProceed(b, id))
  }

  lemma HolderOf(b: State, s: Semaphore) returns (id: CallId)
    requires Conserved(b) && b.Free(s) <= 0
    ensures id in b.calls && b.calls[id].Holds(s)
  {
    assert Capacity(s) >= 1;
    assert |Holders(b, s)| >= 1;
    id :| id in Holders(b, s);
  }

  /**
   * No deadlock: a waiting call is blocked only by permits whose holders run
   * their tool, can take a step, or wait for a semaphore of a higher level.
   */
  lemma {:induction false} NoDeadlock(b: State, id: CallId) returns (other: CallId)
    requires Invariant(b) && id in b.calls && b.calls[id].phase.Waiting?
    ensures Unblocked(b, other)
    decreases 4 - b.calls[id].phase.next
  {
    var c := b.calls[id];
    assert c.Ok();
    var s := c.At(c.phase.next);
    if b.Free(s) > 0 {
      other := id;
    } else {
      var holder := HolderOf(b, s);
      if b.calls[holder].phase.Waiting? {
        assert b.calls[holder].Ok();
        other := NoDeadlock(b, holder);
      } else {
        other := holder;
      }
    }
  }

  /** When nothing runs and no call can step, every call is over: nobody is left waiting. */
  lemma QuietMeansDone(events: seq<Event>)
    requires forall id: CallId :: !Unblocked(Run(events), id)
    ensures forall id :: id in Run(events).calls ==> Run(events).calls[id].phase.Done?
  {
    EveryRunKeeps(events);
    var b := Run(events);
    forall id | id in b.calls ensures b.calls[id].phase.Done? {
      if b.calls[id].phase.Waiting? {
        var other := NoDeadlock(b, id);
        assert false;
      } else {
        assert !Unblocked(b, id);
      }
    }
  }

  /** How often a call moved, and its arrival. */
  function StepsOf(events: seq<Event>, id: CallId): nat {
    if events == [] then 0
    else
      var front, last := events[..|events| - 1], events[|events| - 1];
      StepsOf(front, id) + (if last.id == id && Enabled(Run(front), last) then 1 else 0)
  }

  lemma StepRanks(b: State, e: Event)
    requires Shaped(b) && Enabled(b, e)
    ensures var next := Step(b, e);
            && next.calls.Keys == b.calls.Keys + {e.id}
            && (forall id :: id in b.calls && id != e.id ==> next.calls[id] == b.calls[id])
            && 0 <= next.calls[e.id].Rank() <= 24
            && (e.id in b.calls ==> next.calls[e.id].Rank() < b.calls[e.id].Rank())
  {
    if e.id in b.calls { assert b.calls[e.id].Ok(); }
  }

  /** Every call is over after at most 25 steps, so no run lasts without new arrivals. */
  lemma {:induction false} StepsAreBounded(events: seq<Event>, id: CallId)
    ensures id in Run(events).calls ==> 0 <= Run(events).calls[id].Rank() && StepsOf(events, id) + Run(events).calls[id].Rank() <= 25
    ensures id !in Run(events).calls ==> StepsOf(events, id) == 0
  {
    if events != [] {
      var front, last := events[..|events| - 1], events[|events| - 1];
      StepsAreBounded(front, id);
      EveryRunKeeps(front);
      hide Step, Enabled, Shaped, Conserved, QueueBounded;
      var b := Run(front);
      if Enabled(b, last) {
        StepRanks(b, last);
      } else {
        StepDisabled(b, last);
      }
    }
  }

  // ----- what admission bounds -----

  predicate MutationHeld(c: Call, session: SessionId) {
    c.class_.Mutation? && c.session == session && c.Holds(OfClass(Mutation))
  }

  lemma MutationHolderHoldsSession(c: Call, session: SessionId)
    requires c.Ok() && MutationHeld(c, session)
    ensures c.Holds(SessionMutation(session))
  {}

  /** One session never holds two global mutation permits, waiting, running or releasing. */
  lemma MutationsAreSerial(events: seq<Event>, a: CallId, b: CallId, session: SessionId)
    requires var calls := Run(events).calls;
             && a in calls && b in calls && MutationHeld(calls[a], session) && MutationHeld(calls[b], session)
    ensures a == b
  {
    EveryRunKeeps(events);
    var now := Run(events);
    assert now.calls[a].Ok() && now.calls[b].Ok();
    MutationHolderHoldsSession(now.calls[a], session);
    MutationHolderHoldsSession(now.calls[b], session);
    hide Run;
    var holders := Holders(now, SessionMutation(session));
    assert now.Free(SessionMutation(session)) >= 0;
    assert a in holders && b in holders && |holders| <= 1;
    if a != b {
      assert {a, b} <= holders;
      SubsetSize({a, b}, holders);
    }
  }

  /** A call that waits for its session's mutation permit keeps nothing from the others. */
  lemma QueuedMutationHoldsNothing(events: seq<Event>, id: CallId, s: Semaphore)
    requires id in Run(events).calls && Run(events).calls[id].phase.Waiting?
    requires Run(events).calls[id].At(Run(events).calls[id].phase.next).SessionMutation?
    ensures !Run(events).calls[id].Holds(s)
  {
    EveryRunKeeps(events);
    assert Run(events).calls[id].Ok();
  }

  /** A call is refused exactly when 64 others are counted, which includes others being refused. */
  lemma RefusedIff(events: seq<Event>, id: CallId)
    requires id in Run(events).calls && Run(events).calls[id].phase.Unqueued?
    ensures Step(Run(events), Event(id, Proceed)).calls[id].phase.Refused? <==>
            |Counted(Run(events))| >= MAX_QUEUED_TOOLS
  {
    EveryRunKeeps(events);
    hide Run;
  }

  datatype Snapshot = Snapshot(active: int, queued: int, total: int, shell: int, readers: int, mutations: int, plugins: int)

  function Used(b: State, s: Semaphore): int {
    Capacity(s) - b.Free(s)
  }

  function SnapshotOf(b: State): Snapshot {
    Snapshot(Used(b, Total), b.queued, MAX_IN_FLIGHT_TOOLS,
             Used(b, OfClass(Shell)), Used(b, OfClass(Read)), Used(b, OfClass(Mutation)), Used(b, OfClass(Plugin)))
  }

  function Working(): Call -> bool {
    (c: Call) => c.phase.Admitted?
  }

  function WorkingIn(session: SessionId): Call -> bool {
    (c: Call) => c.phase.Admitted? && c.session == session
  }

  /**
   * The snapshot never underflows: its figures are the numbers of permit
   * holders, so at most 16 calls run, and at most 4 of one session.
   */
  lemma SnapshotCounts(events: seq<Event>, session: SessionId)
    ensures var b := Run(events); var now := SnapshotOf(b);
            && now.active == |Holders(b, Total)| && now.shell == |Holders(b, OfClass(Shell))|
            && now.readers == |Holders(b, OfClass(Read))| && now.mutations == |Holders(b, OfClass(Mutation))|
            && now.plugins == |Holders(b, OfClass(Plugin))| && now.queued == |Counted(b)|
            && now.total == MAX_IN_FLIGHT_TOOLS
            && |Those(b.calls, Working())| <= now.active <= MAX_IN_FLIGHT_TOOLS
            && |Those(b.calls, WorkingIn(session))| <= MAX_IN_FLIGHT_PER_SESSION
  {
    EveryRunKeeps(events);
    var b := Run(events);
    hide Run;
    assert Those(b.calls, Working()) <= Holders(b, Total);
    SubsetSize(Those(b.calls, Working()), Holders(b, Total));
    assert Those(b.calls, WorkingIn(session)) <= Holders(b, OfSession(session));
    SubsetSize(Those(b.calls, WorkingIn(session)), Holders(b, OfSession(session)));
    assert b.Free(Total) >= 0 && b.Free(OfSession(session)) >= 0;
  }

  // ----- calls by the name of their tool -----

  ghost predicate ArrivesAt(events: seq<Event>, i: nat, id: CallId, tool: string, session: SessionId)
    requires i < |events|
  {
    events[i] == Event(id, Arrive(FromName(tool), session)) && id !in Run(events[..i]).calls
  }

  /** The call arrived by this name; its id was not in use. */
  ghost predicate ArrivedAs(events: seq<Event>, id: CallId, tool: string, session: SessionId) {
    exists i :: 0 <= i < |events| && ArrivesAt(events, i, id, tool, session)
  }

  lemma ClassStays(b: State, e: Event, id: CallId)
    requires id in b.calls
    ensures id in Step(b, e).calls
    ensures Step(b, e).calls[id].class_ == b.calls[id].class_ && Step(b, e).calls[id].session == b.calls[id].session
  {}

  lemma ArrivesWith(b: State, id: CallId, tool: string, session: SessionId)
    requires id !in b.calls
    ensures var after := Step(b, Event(id, Arrive(FromName(tool), session)));
            id in after.calls && after.calls[id].class_ == FromName(tool) && after.calls[id].session == session
  {
    hide FromName;
  }

  lemma {:induction false} ArrivedHasClass(events: seq<Event>, i: nat, id: CallId, tool: string, session: SessionId)
    requires i < |events| && ArrivesAt(events, i, id, tool, session)
    ensures id in Run(events).calls
    ensures Run(events).calls[id].class_ == FromName(tool) && Run(events).calls[id].session == session
  {
    var n := |events| - 1;
    var front := events[..n];
    hide Step, FromName;
    if i == n {
      ArrivesWith(Run(front), id, tool, session);
    } else {
      assert front[..i] == events[..i];
      ArrivedHasClass(front, i, id, tool, session);
      ClassStays(Run(front), events[n], id);
    }
  }

  lemma HasClass(events: seq<Event>, id: CallId, tool: string, session: SessionId)
    requires ArrivedAs(events, id, tool, session)
    ensures id in Run(events).calls
    ensures Run(events).calls[id].class_ == FromName(tool) && Run(events).calls[id].session == session
  {
    var i :| 0 <= i < |events| && ArrivesAt(events, i, id, tool, session);
    ArrivedHasClass(events, i, id, tool, session);
  }

  lemma AdmittedHolds(c: Call)
    requires c.phase.Admitted?
    ensures c.Holds(OfClass(c.class_)) && (c.class_.Mutation? ==> MutationHeld(c, c.session))
  {}

  /** Two writes or edits of one session never run together. */
  lemma WritesAreSerial(events: seq<Event>, a: CallId, b: CallId, toolA: string, toolB: string, session: SessionId)
    requires ArrivedAs(events, a, toolA, session) && ArrivedAs(events, b, toolB, session)
    requires toolA in {"Write", "Edit"} && toolB in {"Write", "Edit"}
    ensures var calls := Run(events).calls;
            a in calls && b in calls && (calls[a].phase.Admitted? && calls[b].phase.Admitted? ==> a == b)
  {
    HasClass(events, a, toolA, session);
    HasClass(events, b, toolB, session);
    var calls := Run(events).calls;
    hide Run, ArrivedAs;
    if calls[a].phase.Admitted? && calls[b].phase.Admitted? {
      AdmittedHolds(calls[a]);
      AdmittedHolds(calls[b]);
      MutationsAreSerial(events, a, b, session);
    }
  }

  /** How many calls of these tools may run at once: 4 commands, 8 reads, 2 writes or edits, 4 of all others. */
  function LimitOf(tool: string): int {
    if tool == "Bash" then 4
    else if tool == "Read" || tool == "Glob" || tool == "Grep" then 8
    else if tool == "Write" || tool == "Edit" then 2
    else 4
  }

  lemma LimitIs(tool: string)
    ensures LimitOf(tool) == Capacity(OfClass(FromName(tool)))
  {}

  /** Any calls that arrived by names of one kind and run together are at most its limit. */
  lemma RunningByName(events: seq<Event>, ids: set<CallId>, tool: string)
    requires forall id :: id in ids ==>
               exists name, session :: FromName(name) == FromName(tool) && ArrivedAs(events, id, name, session)
    requires forall id :: id in ids ==> id in Run(events).calls && Run(events).calls[id].phase.Admitted?
    ensures |ids| <= LimitOf(tool)
  {
    LimitIs(tool);
    EveryRunKeeps(events);
    var now := Run(events);
    forall id | id in ids ensures id in Holders(now, OfClass(FromName(tool))) {
      var name, session :| FromName(name) == FromName(tool) && ArrivedAs(events, id, name, session);
      HasClass(events, id, name, session);
      AdmittedHolds(now.calls[id]);
    }
    hide Run, FromName, Capacity;
    SubsetSize(ids, Holders(now, OfClass(FromName(tool))));
    assert now.Free(OfClass(FromName(tool))) >= 0;
  }

  /** The figure of a snapshot that is about a tool. */
  function FigureFor(now: Snapshot, tool: string): int {
    if tool == "Bash" then now.shell
    else if tool == "Read" || tool == "Glob" || tool == "Grep" then now.readers
    else if tool == "Write" || tool == "Edit" then now.mutations
    else now.plugins
  }

  lemma FigureIs(events: seq<Event>, tool: string)
    ensures FigureFor(SnapshotOf(Run(events)), tool) == |Holders(Run(events), OfClass(FromName(tool)))|
  {
    SnapshotCounts(events, "");
    hide Run, SnapshotOf, Holders;
  }

  /** A snapshot shows every running call in the figure of its tool. */
  lemma SnapshotShowsRunning(events: seq<Event>, ids: set<CallId>, tool: string)
    requires forall id :: id in ids ==>
               exists name, session :: FromName(name) == FromName(tool) && ArrivedAs(events, id, name, session)
    requires forall id :: id in ids ==> id in Run(events).calls && Run(events).calls[id].phase.Admitted?
    ensures |ids| <= FigureFor(SnapshotOf(Run(events)), tool)
  {
    FigureIs(events, tool);
    var now := Run(events);
    forall id | id in ids ensures id in Holders(now, OfClass(FromName(tool))) {
      var name, session :| FromName(name) == FromName(tool) && ArrivedAs(events, id, name, session);
      HasClass(events, id, name, session);
      AdmittedHolds(now.calls[id]);
    }
    hide Run, FromName, SnapshotOf, FigureFor;
    SubsetSize(ids, Holders(now, OfClass(FromName(tool))));
  }

  /** The names of one kind. */
  lemma SameKind(a: string, b: string)
    ensures FromName(a) == FromName(b) <==>
              || (a in {"Read", "Glob", "Grep"} && b in {"Read", "Glob", "Grep"})
              || (a in {"Write", "Edit"} && b in {"Write", "Edit"})
              || (a == "Bash" && b == "Bash")
              || (a !in {"Read", "Glob", "Grep", "Write", "Edit", "Bash"} && b !in {"Read", "Glob", "Grep", "Write", "Edit", "Bash"})
  {}

  /** The calls that hold their class permit but no longer a total one. */
  predicate HalfReleased(c: Call) {
    c.phase == Releasing(1)
  }

  /** A permit drops its total part first, so class figures can exceed the active figure, exactly then. */
  lemma ClassWithoutTotalIff(events: seq<Event>, id: CallId)
    requires id in Run(events).calls
    ensures var c := Run(events).calls[id];
            c.Holds(OfClass(c.class_)) && !c.Holds(Total) <==> HalfReleased(c)
  {
    EveryRunKeeps(events);
    assert Run(events).calls[id].Ok();
    hide Run, Shaped, Conserved, QueueBounded;
  }

  // ----- runs in which the differences show -----

  lemma RunSnoc(events: seq<Event>, e: Event)
    ensures Run(events + [e]) == Step(Run(events), e)
  {
    hide Step;
    assert (events + [e])[..|events|] == events;
  }

  /** A shell call alone: where it stands after so many steps of its own, the fourth being its release. */
  function Alone(k: nat): State
    requires k <= 5
  {
    var c := Call(Shell, "a", Admitted);
    if k == 0 then State(map[], 0, map[0 := c.(phase := Trying(1))])
    else if k == 1 then State(map[Total := 15], 0, map[0 := c.(phase := Trying(2))])
    else if k == 2 then State(map[Total := 15, OfClass(Shell) := 3], 0, map[0 := c.(phase := Trying(3))])
    else
      var free := map[Total := 15, OfClass(Shell) := 3, OfSession("a") := 3];
      if k == 3 then State(free, 0, map[0 := c])
      else if k == 4 then State(free, 0, map[0 := c.(phase := Releasing(0))])
      else State(free[Total := 16], 0, map[0 := c.(phase := Releasing(1))])
  }

  lemma AloneArrives()
    ensures Step(Run([]), Event(0, Arrive(Shell, "a"))) == Alone(0)
  {}

  lemma AloneTries(k: nat)
    requires k <= 2
    ensures Step(Alone(k), Event(0, Proceed)) == Alone(k + 1)
  {
    if k == 2 { assert map[Total := 15, OfClass(Shell) := 3][OfSession("a") := 3] == Alone(3).free; }
    assert Alone(k + 1).calls == map[0 := Alone(k + 1).calls[0]];
  }

  lemma AloneReleases(k: nat)
    requires 3 <= k <= 4
    ensures Step(Alone(k), Event(0, if k == 3 then Release else Proceed)) == Alone(k + 1)
  {}

  lemma {:induction false} AloneRuns(k: nat) returns (events: seq<Event>)
    requires k <= 5
    ensures Run(events) == Alone(k)
  {
    hide Step, Run, Alone;
    if k == 0 {
      AloneArrives();
      RunSnoc([], Event(0, Arrive(Shell, "a")));
      events := [] + [Event(0, Arrive(Shell, "a"))];
    } else {
      var before := AloneRuns(k - 1);
      if k <= 3 { AloneTries(k - 1); } else { AloneReleases(k - 1); }
      RunSnoc(before, Event(0, if k == 4 then Release else Proceed));
      events := before + [Event(0, if k == 4 then Release else Proceed)];
    }
  }

  lemma AloneEnd()
    ensures 0 in Alone(5).calls && HalfReleased(Alone(5).calls[0])
    ensures SnapshotOf(Alone(5)).active == 0 && SnapshotOf(Alone(5)).shell == 1
  {}

  /** A shell call that runs alone, is released, and has dropped its total permit. */
  lemma ReleasingShows() returns (events: seq<Event>)
    ensures var b := Run(events);
            && 0 in b.calls && HalfReleased(b.calls[0])
            && SnapshotOf(b).active == 0 && SnapshotOf(b).shell == 1
  {
    hide Run, Alone, SnapshotOf, HalfReleased;
    events := AloneRuns(5);
    AloneEnd();
  }

  /** One mutation of session a holds its permit, and n others of that session wait for it. */
  function CrowdCalls(n: nat): (calls: map<CallId, Call>)
    ensures forall k: CallId :: k in calls <==> k <= n
    ensures forall k: CallId :: 0 < k <= n ==> calls[k] == Call(Mutation, "a", Waiting(0))
  {
    if n == 0 then map[0 := Call(Mutation, "a", Trying(1))]
    else CrowdCalls(n - 1)[n := Call(Mutation, "a", Waiting(0))]
  }

  function Crowd(n: nat): State {
    State(map[SessionMutation("a") := 0], n, CrowdCalls(n))
  }

  lemma ComesSteps(b: State, id: CallId)
    requires b.Free(SessionMutation("a")) == 0 && id !in b.calls
    ensures Step(Step(Step(b, Event(id, Arrive(Mutation, "a"))), Event(id, Proceed)), Event(id, Proceed)) ==
            b.Put(id, Call(Mutation, "a", Unqueued))
  {
    var c := Call(Mutation, "a", Unqueued);
    var b1 := b.Put(id, c.(phase := Trying(0)));
    assert Step(b, Event(id, Arrive(Mutation, "a"))) == b1;
    var b2 := b.Put(id, c.(phase := BackingOut(0)));
    assert b1.Free(SessionMutation("a")) == 0;
    assert Step(b1, Event(id, Proceed)) == b2;
    assert Step(b2, Event(id, Proceed)) == b.Put(id, c);
  }

  /** A call that finds that permit taken comes to the queue check in three steps. */
  lemma Comes(b: State, id: CallId) returns (events: seq<Event>)
    requires b.Free(SessionMutation("a")) == 0 && id !in b.calls
    ensures forall before :: Run(before) == b ==>
              Run(before + events) == b.Put(id, Call(Mutation, "a", Unqueued))
  {
    var arrive, proceed := Event(id, Arrive(Mutation, "a")), Event(id, Proceed);
    events := [arrive, proceed, proceed];
    var c := Call(Mutation, "a", Unqueued);
    ComesSteps(b, id);
    forall before | Run(before) == b ensures Run(before + events) == b.Put(id, c) {
      hide Step, Run;
      RunSnoc(before, arrive);
      RunSnoc(before + [arrive], proceed);
      RunSnoc(before + [arrive] + [proceed], proceed);
      assert before + events == before + [arrive] + [proceed] + [proceed];
    }
  }

  lemma FirstOfCrowd()
    ensures Step(Step(Run([]), Event(0, Arrive(Mutation, "a"))), Event(0, Proceed)) == Crowd(0)
  {
    var c := Call(Mutation, "a", Trying(0));
    assert Step(IDLE, Event(0, Arrive(Mutation, "a"))) == State(map[], 0, map[0 := c]);
    assert Step(State(map[], 0, map[0 := c]), Event(0, Proceed)) ==
      State(map[SessionMutation("a") := 0], 0, map[0 := c.(phase := Trying(1))]);
    assert Crowd(0).calls == map[0 := c.(phase := Trying(1))];
  }

  lemma OneMoreWaits(n: nat)
    requires 0 < n <= MAX_QUEUED_TOOLS
    ensures Step(Crowd(n - 1).Put(n, Call(Mutation, "a", Unqueued)), Event(n, Proceed)) == Crowd(n)
  {
    var b := Crowd(n - 1).Put(n, Call(Mutation, "a", Unqueued));
    assert Step(b, Event(n, Proceed)) == State(b.free, n, b.calls[n := Call(Mutation, "a", Waiting(0))]);
    assert b.calls[n := Call(Mutation, "a", Waiting(0))] == Crowd(n).calls;
  }

  lemma {:induction false} CrowdGathers(n: nat) returns (events: seq<Event>)
    requires n <= MAX_QUEUED_TOOLS
    ensures Run(events) == Crowd(n)
  {
    if n == 0 {
      events := [Event(0, Arrive(Mutation, "a"))] + [Event(0, Proceed)];
      RunSnoc([], Event(0, Arrive(Mutation, "a")));
      assert [] + [Event(0, Arrive(Mutation, "a"))] == [Event(0, Arrive(Mutation, "a"))];
      RunSnoc([Event(0, Arrive(Mutation, "a"))], Event(0, Proceed));
      FirstOfCrowd();
    } else {
      var before := CrowdGathers(n - 1);
      var more := Comes(Crowd(n - 1), n);
      RunSnoc(before + more, Event(n, Proceed));
      OneMoreWaits(n);
      events := before + more + [Event(n, Proceed)];
    }
  }

  lemma RefusesOne(b: State, id: CallId)
    requires b.queued == MAX_QUEUED_TOOLS && id in b.calls && b.calls[id].phase.Unqueued?
    ensures Step(b, Event(id, Proceed)) == b.(queued := 65).Put(id, b.calls[id].(phase := Refused(65)))
  {}

  lemma GivesUp(b: State, id: CallId)
    requires id in b.calls && b.calls[id] == Call(Mutation, "a", Waiting(0))
    ensures Step(Step(b, Event(id, GiveUp)), Event(id, Proceed)) ==
            b.(queued := b.queued - 1).Put(id, Call(Mutation, "a", Done(QueueWaitTimeout)))
  {
    var timed := b.Put(id, Call(Mutation, "a", TimedOut(0)));
    assert Step(b, Event(id, GiveUp)) == timed;
    assert Step(timed, Event(id, Proceed)) == timed.(queued := b.queued - 1).Put(id, Call(Mutation, "a", Done(QueueWaitTimeout)));
  }

  /** What follows a full queue: one call is refused, and one waiting call gives up. */
  function Thin(): State {
    Crowd(64).Put(65, Call(Mutation, "a", Refused(65))).Put(1, Call(Mutation, "a", Done(QueueWaitTimeout)))
  }

  lemma CrowdThins()
    ensures var refused := Step(Crowd(64).Put(65, Call(Mutation, "a", Unqueued)), Event(65, Proceed));
            Step(Step(refused, Event(1, GiveUp)), Event(1, Proceed)) == Thin()
  {
    hide Step, CrowdCalls;
    var b := Crowd(64).Put(65, Call(Mutation, "a", Unqueued));
    RefusesOne(b, 65);
    var refused := b.(queued := 65).Put(65, Call(Mutation, "a", Refused(65)));
    GivesUp(refused, 1);
    assert b.calls[65 := Call(Mutation, "a", Refused(65))] == Crowd(64).calls[65 := Call(Mutation, "a", Refused(65))];
  }

  lemma ThinIs()
    ensures Thin().Free(SessionMutation("a")) == 0 && 66 !in Thin().calls
    ensures var b := Thin().Put(66, Call(Mutation, "a", Unqueued));
            && 65 in b.calls && b.calls[65].phase.Refused? && 66 in b.calls && b.calls[66].phase.Unqueued? && b.queued == 64
    ensures Crowd(64).Free(SessionMutation("a")) == 0 && 65 !in Crowd(64).calls
  {
    hide CrowdCalls;
  }

  lemma ThinIsReached() returns (events: seq<Event>)
    ensures Run(events) == Thin()
  {
    hide Step, Run, Crowd, Thin;
    var full := CrowdGathers(64);
    ThinIs();
    var more := Comes(Crowd(64), 65);
    var e := full + more;
    CrowdThins();
    RunSnoc(e, Event(65, Proceed));
    RunSnoc(e + [Event(65, Proceed)], Event(1, GiveUp));
    RunSnoc(e + [Event(65, Proceed)] + [Event(1, GiveUp)], Event(1, Proceed));
    events := e + [Event(65, Proceed)] + [Event(1, GiveUp)] + [Event(1, Proceed)];
  }

  lemma QueueFacts(events: seq<Event>)
    ensures Run(events).queued == |Counted(Run(events))|
  {
    EveryRunKeeps(events);
    hide Run;
  }

  lemma FewerPassed(b: State, id: CallId)
    requires id in b.calls && b.calls[id].phase.Refused?
    ensures |Passed(b)| < |Counted(b)|
  {
    assert Passed(b) <= Counted(b) - {id};
    SubsetSize(Passed(b), Counted(b) - {id});
  }

  /** A reachable refusal while fewer than 64 calls are past the queue check. */
  lemma RefusedWithRoom() returns (events: seq<Event>)
    ensures var b := Run(events);
            && 66 in b.calls && b.calls[66].phase.Unqueued?
            && |Passed(b)| < MAX_QUEUED_TOOLS
            && Step(b, Event(66, Proceed)).calls[66].phase.Refused?
  {
    hide Step, Run, Thin, Passed, Counted;
    var before := ThinIsReached();
    ThinIs();
    var last := Comes(Thin(), 66);
    events := before + last;
    QueueFacts(events);
    FewerPassed(Run(events), 65);
    RefusedIff(events, 66);
  }

  /** The calls held in suspended futures, and the semaphores and counter they share. */
  class Budget {
    var free: map<Semaphore, int>
    var queued: int
    var calls: map<CallId, Call>

    ghost function Now(): State
      reads this
    {
      State(free, queued, calls)
    }

    constructor ()
      ensures Now() == IDLE
    {
      free, queued, calls := map[], 0, map[];
    }

    method Available(s: Semaphore) returns (permits: int)
      ensures permits == Now().Free(s)
    {
      permits := if s in free then free[s] else Capacity(s);
    }

    method TryTake(s: Semaphore) returns (taken: bool)
      modifies this`free
      ensures taken == (old(Now()).Free(s) > 0)
      ensures Now() == if taken then old(Now()).Take(s) else old(Now())
    {
      var permits := Available(s);
      taken := permits > 0;
      if taken { free := free[s := permits - 1]; }
    }

    method GiveBack(s: Semaphore)
      modifies this`free
      ensures Now() == old(Now()).Give(s)
    {
      var permits := Available(s);
      free := free[s := permits + 1];
    }

    /** Starts an acquire. */
    method Acquire(id: CallId, tool: string, session: SessionId)
      requires id !in calls
      modifies this`calls
      ensures Now() == Step(old(Now()), Event(id, Arrive(FromName(tool), session)))
    {
      var c := Call(FromName(tool), session, Unqueued);
      calls := calls[id := c.(phase := Trying(c.Start()))];
    }

    /** try_acquire, its next permit. */
    method TryNext(id: CallId)
      requires id in calls && calls[id].phase.Trying?
      modifies this`free, this`calls
      ensures Now() == Step(old(Now()), Event(id, Proceed))
    {
      var c := calls[id];
      var n := c.phase.next;
      var taken := TryTake(c.At(n));
      calls := calls[id := c.(phase := if !taken then BackingOut(n) else if n >= 3 then Admitted else Trying(n + 1))];
    }

    /** acquire_all, its next permit; returns false while it has to wait for it. */
    method WaitNext(id: CallId) returns (granted: bool)
      requires id in calls && calls[id].phase.Waiting?
      modifies this`free, this`calls
      ensures granted == CanProceed(old(Now()), id)
      ensures Now() == Step(old(Now()), Event(id, Proceed))
    {
      var c := calls[id];
      var n := c.phase.next;
      granted := TryTake(c.At(n));
      if granted {
        calls := calls[id := c.(phase := if n >= 3 then Granted else Waiting(n + 1))];
      }
    }

    /** Drops the permit taken last, of a failed or a timed-out acquisition. */
    method BackOut(id: CallId)
      requires id in calls && (calls[id].phase.BackingOut? || calls[id].phase.TimedOut?)
      modifies this
      ensures Now() == Step(old(Now()), Event(id, Proceed))
    {
      var c := calls[id];
      var n := c.phase.next;
      if n > c.Start() {
        GiveBack(c.At(n - 1));
        calls := calls[id := c.(phase := if c.phase.TimedOut? then TimedOut(n - 1) else BackingOut(n - 1))];
      } else if c.phase.TimedOut? {
        queued := queued - 1;
        calls := calls[id := c.(phase := Done(QueueWaitTimeout))];
      } else {
        calls := calls[id := c.(phase := Unqueued)];
      }
    }

    method Enqueue(id: CallId)
      requires id in calls && calls[id].phase.Unqueued?
      modifies this`queued, this`calls
      ensures Now() == Step(old(Now()), Event(id, Proceed))
    {
      var c := calls[id];
      queued := queued + 1;
      calls := calls[id := c.(phase := if queued > MAX_QUEUED_TOOLS then Refused(queued) else Waiting(c.Start()))];
    }

    method Dequeue(id: CallId)
      requires id in calls && (calls[id].phase.Refused? || calls[id].phase.Granted?)
      modifies this`queued, this`calls
      ensures Now() == Step(old(Now()), Event(id, Proceed))
    {
      var c := calls[id];
      queued := queued - 1;
      calls := calls[id := c.(phase := if c.phase.Granted? then Admitted else Done(QueueFull(c.phase.queueDepth)))];
    }

    /** The 30 second timeout of acquire_all. */
    method TimeOut(id: CallId)
      requires id in calls && calls[id].phase.Waiting?
      modifies this`calls
      ensures Now() == Step(old(Now()), Event(id, GiveUp))
    {
      calls := calls[id := calls[id].(phase := TimedOut(calls[id].phase.next))];
    }

    method StartRelease(id: CallId)
      requires id in calls && calls[id].phase.Admitted?
      modifies this`calls
      ensures Now() == Step(old(Now()), Event(id, Release))
    {
      calls := calls[id := calls[id].(phase := Releasing(0))];
    }

    /** Drops the next field of a ToolPermit, in the order of declaration. */
    method DropNext(id: CallId)
      requires id in calls && calls[id].phase.Releasing?
      modifies this`free, this`calls
      ensures Now() == Step(old(Now()), Event(id, Proceed))
    {
      var c := calls[id];
      var n := c.phase.dropped;
      if c.Start() + n >= 4 {
        calls := calls[id := c.(phase := Done(Finished))];
      } else {
        GiveBack(c.At((n + 1) % 4));
        calls := calls[id := c.(phase := Releasing(n + 1))];
      }
    }

    method TakeSnapshot() returns (now: Snapshot)
      ensures now == SnapshotOf(Now())
    {
      var total := Available(Total);
      var shell := Available(OfClass(Shell));
      var readers := Available(OfClass(Read));
      var mutations := Available(OfClass(Mutation));
      var plugins := Available(OfClass(Plugin));
      now := Snapshot(MAX_IN_FLIGHT_TOOLS - total, queued, MAX_IN_FLIGHT_TOOLS, MAX_IN_FLIGHT_SHELL - shell,
                      MAX_IN_FLIGHT_READS - readers, MAX_IN_FLIGHT_MUTATIONS - mutations, MAX_IN_FLIGHT_PLUGINS - plugins);
    }
  }
}
