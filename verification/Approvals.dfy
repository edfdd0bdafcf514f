/**
 * Tool approvals: the broker that answers clients
 * (packages/agent-host/src/approvals.ts) composed with the host's table of
 * waiting tool calls (crates/host-core/src/permissions.rs). A resolve suspends
 * while the host answers it, so everything else may happen in between.
 */
module Approvals {
  import opened Wrappers

  const MAX_REMEMBERED_RESULTS: nat := 1000
  const PERMISSION_TIMEOUT_MS: int := 120000

  type Id = string

  datatype Decision = AllowOnce | AllowSession | Deny

  // ----- the host -----

  datatype Waiting = Waiting(createdAt: int, session: string, toolCall: string)

  datatype HostError = NotFound | PermissionTimeout

  /** The open requests, and what was sent into the channel of each request so far. */
  datatype Host = Host(pending: map<Id, Waiting>, sent: map<Id, seq<Decision>>) {
    function SentTo(id: Id): seq<Decision> {
      if id in sent then sent[id] else []
    }

    /** Takes the request out of the table and answers its waiter. */
    function Answer(id: Id, d: Decision): Host {
      Host(pending - {id}, sent[id := SentTo(id) + [d]])
    }
  }

  function Stale(w: Waiting, now: int): bool {
    now - w.createdAt > PERMISSION_TIMEOUT_MS
  }

  function HostResolve(h: Host, id: Id, d: Decision, now: int): (Host, Option<HostError>) {
    if id !in h.pending then (h, Some(NotFound))
    else if Stale(h.pending[id], now) then (h.Answer(id, Deny), Some(PermissionTimeout))
    else (h.Answer(id, d), None)
  }

  function HostCancel(h: Host, id: Id): (Host, bool) {
    if id !in h.pending then (h, false) else (h.Answer(id, Deny), true)
  }

  function StaleIds(h: Host, now: int): set<Id> {
    set id | id in h.pending && Stale(h.pending[id], now)
  }

  /** Takes some requests out of the table and denies them. */
  function DenyAll(h: Host, ids: set<Id>): Host {
    Host(h.pending - ids,
         map id | id in h.sent.Keys + ids :: if id in ids then h.SentTo(id) + [Deny] else h.SentTo(id))
  }

  function HostExpire(h: Host, now: int): Host {
    DenyAll(h, StaleIds(h, now))
  }

  lemma DenyOneMore(h: Host, ids: set<Id>, id: Id)
    requires id !in ids
    ensures DenyAll(h, ids).Answer(id, Deny) == DenyAll(h, ids + {id})
  {
    var a, b := DenyAll(h, ids).Answer(id, Deny), DenyAll(h, ids + {id});
    assert a.pending == b.pending;
    assert a.sent.Keys == b.sent.Keys;
  }

  lemma DenyNone(h: Host)
    ensures DenyAll(h, {}) == h
  {
    assert DenyAll(h, {}).sent == h.sent;
  }

  // ----- the broker -----

  datatype Status = Resolved | Expired | Canceled

  datatype ApprovalResult = ApprovalResult(
    approvalId: Id, status: Status, decision: Option<Decision>, alreadyResolved: bool, revision: int)

  datatype Request = Request(id: Id, session: string, revision: int, expiresAt: int, allowSession: bool)

  datatype Response = Response(approvalId: Id, expectedRevision: Option<int>, decision: Decision)

  datatype RacpError = NotOpen | ApprovalExpired | ApprovalStale | InvalidArgument | PortFailed

  /** Both maps keep insertion order; setting an existing key keeps its place. */
  datatype Broker = Broker(pending: seq<Request>, results: seq<ApprovalResult>)

  function Open(pending: seq<Request>, id: Id): (found: Option<Request>)
    ensures found.Some? ==> found.value in pending && found.value.id == id
    ensures found.None? ==> forall r :: r in pending ==> r.id != id
  {
    if pending == [] then None else if pending[0].id == id then Some(pending[0]) else Open(pending[1..], id)
  }

  function Closed(pending: seq<Request>, id: Id): seq<Request> {
    if pending == [] then [] else (if pending[0].id == id then [] else [pending[0]]) + Closed(pending[1..], id)
  }

  function Remembered(results: seq<ApprovalResult>, id: Id): (found: Option<ApprovalResult>)
    ensures found.Some? ==> found.value in results && found.value.approvalId == id
    ensures found.None? ==> forall r :: r in results ==> r.approvalId != id
  {
    if results == [] then None else if results[0].approvalId == id then Some(results[0]) else Remembered(results[1..], id)
  }

  function Record(results: seq<ApprovalResult>, r: ApprovalResult): seq<ApprovalResult> {
    if results == [] then [r]
    else if results[0].approvalId == r.approvalId then [r] + results[1..]
    else [results[0]] + Record(results[1..], r)
  }

  /** The newest MAX_REMEMBERED_RESULTS. */
  function Newest(results: seq<ApprovalResult>): seq<ApprovalResult> {
    if |results| > MAX_REMEMBERED_RESULTS then results[|results| - MAX_REMEMBERED_RESULTS..] else results
  }

  function Settle(b: Broker, r: ApprovalResult): Broker {
    Broker(Closed(b.pending, r.approvalId), Newest(Record(b.results, r)))
  }

  function FromToolPermission(b: Broker, r: Request): (Broker, Request) {
    var existing := Open(b.pending, r.id);
    if existing.Some? then (b, existing.value) else (b.(pending := b.pending + [r]), r)
  }

  /** What resolve does before its await. */
  datatype Begun = Told(result: ApprovalResult) | Refused(error: RacpError) | Asking

  function Begin(b: Broker, response: Response, revision: int, now: int): (Broker, Begun) {
    var remembered := Remembered(b.results, response.approvalId);
    if remembered.Some? then (b, Told(remembered.value.(alreadyResolved := true)))
    else
      var entry := Open(b.pending, response.approvalId);
      if entry.None? then (b, Refused(NotOpen))
      else if entry.value.expiresAt <= now then
        (Settle(b, ApprovalResult(response.approvalId, Expired, None, false, revision)), Refused(ApprovalExpired))
      else if response.expectedRevision.Some? && response.expectedRevision.value != entry.value.revision then
        (b, Refused(ApprovalStale))
      else if response.decision.AllowSession? && !entry.value.allowSession then (b, Refused(InvalidArgument))
      else (b, Asking)
  }

  function Sessions(pending: seq<Request>, session: string): seq<Id> {
    if pending == [] then []
    else (if pending[0].session == session then [pending[0].id] else []) + Sessions(pending[1..], session)
  }

  function SettleAll(b: Broker, ids: seq<Id>, revision: int): Broker
    decreases |ids|
  {
    if ids == [] then b
    else SettleAll(Settle(b, ApprovalResult(ids[0], Canceled, None, false, revision)), ids[1..], revision)
  }

  // ----- both together -----

  datatype Phase =
    | Suspended
    | Answered(refusal: Option<HostError>)
    | Succeeded(result: ApprovalResult)
    | Failed(error: RacpError)

  /** One resolve of a client. */
  datatype Call = Call(response: Response, revision: int, phase: Phase)

  type CallId = nat

  datatype State = State(host: Host, broker: Broker, calls: map<CallId, Call>, created: set<Id>)

  const START := State(Host(map[], map[]), Broker([], []), map[], {})

  datatype Event =
    | Create(id: Id, waiting: Waiting)
    | Offer(request: Request)
    | Resolve(call: CallId, response: Response, revision: int, now: int)
    | HostHandles(call: CallId, now: int)
    | Resume(call: CallId)
    | LoseAnswer(call: CallId)
    | ResolveCard(id: Id, decision: Decision, now: int)
    | SettleCard(result: ApprovalResult)
    | CancelTool(id: Id)
    | CancelForSession(session: string, revision: int)
    | ExpireStale(now: int)

  function WithPhase(s: State, call: CallId, phase: Phase): State
    requires call in s.calls
  {
    s.(calls := s.calls[call := s.calls[call].(phase := phase)])
  }

  /** Request ids and call ids are never reused; an event that cannot happen changes nothing. */
  function Step(s: State, e: Event): State {
    match e
    case Create(id, waiting) =>
      if id in s.created then s
      else s.(host := s.host.(pending := s.host.pending[id := waiting]), created := s.created + {id})
    case Offer(request) => s.(broker := FromToolPermission(s.broker, request).0)
    case Resolve(call, response, revision, now) =>
      if call in s.calls then s
      else
        var (broker, begun) := Begin(s.broker, response, revision, now);
        var phase := match begun case Told(r) => Succeeded(r) case Refused(err) => Failed(err) case Asking => Suspended;
        s.(broker := broker, calls := s.calls[call := Call(response, revision, phase)])
    case HostHandles(call, now) =>
      if call !in s.calls || !s.calls[call].phase.Suspended? then s
      else
        var response := s.calls[call].response;
        var (host, error) := HostResolve(s.host, response.approvalId, response.decision, now);
        WithPhase(s.(host := host), call, Answered(error))
    case Resume(call) =>
      if call !in s.calls || !s.calls[call].phase.Answered? then s
      else if s.calls[call].phase.refusal.Some? then WithPhase(s, call, Failed(PortFailed))
      else
        var c := s.calls[call];
        var result := ApprovalResult(c.response.approvalId, Resolved, Some(c.response.decision), false, c.revision);
        WithPhase(s.(broker := Settle(s.broker, result)), call, Succeeded(result))
    case LoseAnswer(call) =>
      if call !in s.calls || !(s.calls[call].phase.Suspended? || s.calls[call].phase.Answered?) then s
      else WithPhase(s, call, Failed(PortFailed))
    case ResolveCard(id, decision, now) => s.(host := HostResolve(s.host, id, decision, now).0)
    case SettleCard(result) => s.(broker := Settle(s.broker, result.(alreadyResolved := false)))
    case CancelTool(id) => s.(host := HostCancel(s.host, id).0)
    case CancelForSession(session, revision) =>
      s.(broker := SettleAll(s.broker, Sessions(s.broker.pending, session), revision))
    case ExpireStale(now) => s.(host := HostExpire(s.host, now))
  }

  function Run(events: seq<Event>): State {
    if events == [] then START else Step(Run(events[..|events| - 1]), events[|events| - 1])
  }

  // ----- at most one decision -----

  /** The host accepted this call's decision, and nothing has been lost since. */
  predicate Accepted(c: Call) {
    c.phase == Answered(None) || (c.phase.Succeeded? && !c.phase.result.alreadyResolved)
  }

  /** Two accepted calls for one request. */
  predicate Rivals(a: Call, b: Call) {
    Accepted(a) && Accepted(b) && a.response.approvalId == b.response.approvalId
  }

  ghost predicate HostInvariant(h: Host, created: set<Id>) {
    && (forall id :: id in h.pending ==> id in created && h.SentTo(id) == [])
    && (forall id :: |h.SentTo(id)| <= 1 && (h.SentTo(id) != [] ==> id in created))
  }

  ghost predicate CallsInvariant(h: Host, calls: map<CallId, Call>) {
    && (forall c :: c in calls && Accepted(calls[c]) ==> h.SentTo(calls[c].response.approvalId) == [calls[c].response.decision])
    && (forall c :: c in calls && Accepted(calls[c]) && calls[c].phase.Succeeded? ==>
          calls[c].phase.result.decision == Some(calls[c].response.decision))
    && (forall c, d :: c in calls && d in calls && Rivals(calls[c], calls[d]) ==> c == d)
  }

  /** What was said is not taken back, and what is said newly was still pending. */
  ghost predicate Extends(h: Host, after: Host) {
    && (forall id :: after.SentTo(id) == h.SentTo(id) || (id in h.pending && |after.SentTo(id)| == |h.SentTo(id)| + 1))
    && (forall id :: id in after.pending ==> id in h.pending && after.SentTo(id) == h.SentTo(id))
  }

  lemma ResolveExtends(h: Host, id: Id, d: Decision, now: int)
    ensures Extends(h, HostResolve(h, id, d, now).0)
  {}

  lemma CancelExtends(h: Host, id: Id)
    ensures Extends(h, HostCancel(h, id).0)
  {}

  lemma ExpireExtends(h: Host, now: int)
    ensures Extends(h, HostExpire(h, now))
  {}

  lemma ExtendsKeeps(h: Host, after: Host, created: set<Id>, calls: map<CallId, Call>)
    requires HostInvariant(h, created) && CallsInvariant(h, calls) && Extends(h, after)
    ensures HostInvariant(after, created) && CallsInvariant(after, calls)
  {
    hide Host.SentTo, Accepted;
    forall c | c in calls && Accepted(calls[c])
      ensures after.SentTo(calls[c].response.approvalId) == [calls[c].response.decision]
    {
      assert h.SentTo(calls[c].response.approvalId) != [];
    }
  }

  lemma CreateKeeps(h: Host, id: Id, w: Waiting, created: set<Id>, calls: map<CallId, Call>)
    requires HostInvariant(h, created) && CallsInvariant(h, calls) && id !in created
    ensures var after := h.(pending := h.pending[id := w]);
            HostInvariant(after, created + {id}) && CallsInvariant(after, calls)
  {}

  /** Changing one call to a phase that claims nothing new keeps the claims of all others. */
  lemma PhaseKeeps(h: Host, calls: map<CallId, Call>, call: CallId, c: Call)
    requires CallsInvariant(h, calls)
    requires Accepted(c) ==> call in calls && Accepted(calls[call]) && calls[call].response == c.response
    requires Accepted(c) && c.phase.Succeeded? ==> c.phase.result.decision == Some(c.response.decision)
    ensures CallsInvariant(h, calls[call := c])
  {
    hide Accepted, Host.SentTo;
  }

  lemma FirstAccepted(h: Host, calls: map<CallId, Call>, call: CallId, c: Call)
    requires CallsInvariant(h, calls) && h.SentTo(c.response.approvalId) == [c.response.decision] && !c.phase.Succeeded?
    requires forall d :: d in calls && Accepted(calls[d]) ==> calls[d].response.approvalId != c.response.approvalId
    ensures CallsInvariant(h, calls[call := c])
  {
    hide Accepted, Host.SentTo;
  }

  /** The host's answer to a call: it was accepted only if no other call of the request was. */
  lemma HandleKeeps(h: Host, created: set<Id>, calls: map<CallId, Call>, call: CallId, now: int)
    requires HostInvariant(h, created) && CallsInvariant(h, calls) && call in calls && calls[call].phase.Suspended?
    ensures var response := calls[call].response;
            var (after, error) := HostResolve(h, response.approvalId, response.decision, now);
            HostInvariant(after, created) && CallsInvariant(after, calls[call := calls[call].(phase := Answered(error))])
  {
    var response := calls[call].response;
    var (after, error) := HostResolve(h, response.approvalId, response.decision, now);
    ResolveExtends(h, response.approvalId, response.decision, now);
    ExtendsKeeps(h, after, created, calls);
    if error.Some? {
      PhaseKeeps(after, calls, call, calls[call].(phase := Answered(error)));
    } else {
      assert response.approvalId in h.pending && h.SentTo(response.approvalId) == [];
      assert after.SentTo(response.approvalId) == [response.decision];
      forall c | c in calls && Accepted(calls[c]) ensures calls[c].response.approvalId != response.approvalId {
        assert h.SentTo(calls[c].response.approvalId) != [];
      }
      FirstAccepted(after, calls, call, calls[call].(phase := Answered(None)));
    }
  }

  lemma ResolvePhase(b: Broker, response: Response, revision: int, now: int)
    ensures Begin(b, response, revision, now).1.Told? ==> Begin(b, response, revision, now).1.result.alreadyResolved
  {}

  ghost predicate Invariant(s: State) {
    HostInvariant(s.host, s.created) && CallsInvariant(s.host, s.calls)
  }

  lemma ClientStepKeeps(s: State, e: Event)
    requires Invariant(s) && (e.Resolve? || e.Resume? || e.LoseAnswer?)
    ensures Invariant(Step(s, e))
  {
    hide HostInvariant, CallsInvariant, Begin, Settle;
    match e {
      case Resolve(call, response, revision, now) =>
        ResolvePhase(s.broker, response, revision, now);
        if call !in s.calls { PhaseKeeps(s.host, s.calls, call, Step(s, e).calls[call]); }
      case Resume(call) =>
        if call in s.calls && s.calls[call].phase.Answered? { PhaseKeeps(s.host, s.calls, call, Step(s, e).calls[call]); }
      case LoseAnswer(call) =>
        if Step(s, e) != s { PhaseKeeps(s.host, s.calls, call, Step(s, e).calls[call]); }
    }
  }

  lemma HostStepKeeps(s: State, e: Event)
    requires Invariant(s) && !(e.Resolve? || e.Resume? || e.LoseAnswer?)
    ensures Invariant(Step(s, e))
  {
    hide HostInvariant, CallsInvariant, HostResolve, HostCancel, HostExpire, Extends, Settle, SettleAll, Sessions, FromToolPermission;
    match e {
      case Create(id, waiting) => if id !in s.created { CreateKeeps(s.host, id, waiting, s.created, s.calls); }
      case HostHandles(call, now) =>
        if call in s.calls && s.calls[call].phase.Suspended? { HandleKeeps(s.host, s.created, s.calls, call, now); }
      case ResolveCard(id, decision, now) =>
        ResolveExtends(s.host, id, decision, now);
        ExtendsKeeps(s.host, Step(s, e).host, s.created, s.calls);
      case CancelTool(id) =>
        CancelExtends(s.host, id);
        ExtendsKeeps(s.host, Step(s, e).host, s.created, s.calls);
      case ExpireStale(now) =>
        ExpireExtends(s.host, now);
        ExtendsKeeps(s.host, Step(s, e).host, s.created, s.calls);
      case _ =>
    }
  }

  lemma StartInvariant()
    ensures Invariant(START)
  {}

  lemma {:induction false} EveryRunKeeps(events: seq<Event>)
    ensures Invariant(Run(events))
  {
    hide Step, Invariant;
    if events == [] {
      StartInvariant();
    } else {
      var s, e := Run(events[..|events| - 1]), events[|events| - 1];
      EveryRunKeeps(events[..|events| - 1]);
      if e.Resolve? || e.Resume? || e.LoseAnswer? { ClientStepKeeps(s, e); } else { HostStepKeeps(s, e); }
    }
  }

  /** A resolve that reported its own decision, not a stored one. */
  predicate Won(s: State, call: CallId, id: Id) {
    && call in s.calls
    && s.calls[call].response.approvalId == id
    && s.calls[call].phase.Succeeded?
    && !s.calls[call].phase.result.alreadyResolved
  }

  /**
   * In every interleaving of resolves, card settlements, cancels, expiries,
   * stale offers and lost answers: the waiter of a request is sent at most one
   * decision, and a resolve that reports its decision as newly made is the only
   * one of its request, and reports what the waiter was sent.
   */
  lemma FirstDecisionWins(events: seq<Event>, id: Id, a: CallId, b: CallId)
    ensures |Run(events).host.SentTo(id)| <= 1
    ensures Won(Run(events), a, id) && Won(Run(events), b, id) ==> a == b
    ensures Won(Run(events), a, id) ==>
              Run(events).host.SentTo(id) == [Run(events).calls[a].response.decision]
              && Run(events).calls[a].phase.result.decision == Some(Run(events).calls[a].response.decision)
  {
    EveryRunKeeps(events);
    hide Run;
  }

  // ----- what one event does -----

  predicate Offers(r: Request, d: Decision) {
    d.AllowSession? ==> r.allowSession
  }

  /** Only an open, unexpired, unsettled request may ask the host, at its own revision and with an offered decision. */
  predicate MayAsk(b: Broker, response: Response, now: int) {
    var open := Open(b.pending, response.approvalId);
    && Remembered(b.results, response.approvalId).None?
    && open.Some? && open.value.expiresAt > now
    && (response.expectedRevision.None? || response.expectedRevision.value == open.value.revision)
    && Offers(open.value, response.decision)
  }

  /** A new resolve asks the host exactly under that condition; each refusal has its reason, in this order. */
  lemma ResolveAsksIff(s: State, call: CallId, response: Response, revision: int, now: int)
    requires call !in s.calls
    ensures var after := Step(s, Resolve(call, response, revision, now));
            var stored, open := Remembered(s.broker.results, response.approvalId), Open(s.broker.pending, response.approvalId);
            && after.host == s.host && after.created == s.created
            && after.calls == s.calls[call := Call(response, revision, after.calls[call].phase)]
            && var phase := after.calls[call].phase;
            && (phase == Suspended <==> MayAsk(s.broker, response, now))
            && (phase == Failed(ApprovalExpired) || after.broker == s.broker)
            && if stored.Some? then phase == Succeeded(stored.value.(alreadyResolved := true))
               else if open.None? then phase == Failed(NotOpen)
               else if open.value.expiresAt <= now then
                 && phase == Failed(ApprovalExpired)
                 && after.broker == Settle(s.broker, ApprovalResult(response.approvalId, Expired, None, false, revision))
               else if response.expectedRevision.Some? && response.expectedRevision.value != open.value.revision then
                 phase == Failed(ApprovalStale)
               else phase == if Offers(open.value, response.decision) then Suspended else Failed(InvalidArgument)
  {
    hide Remembered, Open, Settle;
  }

  predicate TooOld(w: Waiting, now: int) {
    now > w.createdAt + PERMISSION_TIMEOUT_MS
  }

  /** What an event newly sends to the waiter of a request that is pending. */
  function NewlySent(s: State, e: Event, id: Id): seq<Decision>
    requires id in s.host.pending
  {
    match e
    case HostHandles(call, now) =>
      if call in s.calls && s.calls[call].phase == Suspended && s.calls[call].response.approvalId == id
      then [if TooOld(s.host.pending[id], now) then Deny else s.calls[call].response.decision] else []
    case ResolveCard(card, d, now) => if card == id then [if TooOld(s.host.pending[id], now) then Deny else d] else []
    case CancelTool(tool) => if tool == id then [Deny] else []
    case ExpireStale(now) => if TooOld(s.host.pending[id], now) then [Deny] else []
    case _ => []
  }

  /** Every event, seen from one request: what its waiter is sent, and that it is then no longer pending. */
  lemma HostStepSends(s: State, e: Event, id: Id)
    ensures var after := Step(s, e).host; var sent := if id in s.host.pending then NewlySent(s, e, id) else [];
            && after.SentTo(id) == s.host.SentTo(id) + sent
            && (id in after.pending <==>
                  if e.Create? && e.id == id && id !in s.created then true else id in s.host.pending && sent == [])
            && (id in after.pending ==>
                  after.pending[id] == if e.Create? && e.id == id && id !in s.created then e.waiting else s.host.pending[id])
  {
    hide Begin, Settle, SettleAll, Sessions, FromToolPermission;
  }

  /** The host handles a suspended call once and tells it why if it refuses. */
  lemma HostAnswersCall(s: State, call: CallId, now: int)
    requires call in s.calls && s.calls[call].phase == Suspended
    ensures var after := Step(s, HostHandles(call, now)); var id := s.calls[call].response.approvalId;
            && after.broker == s.broker
            && after.calls == s.calls[call := s.calls[call].(phase := Answered(
                 if id !in s.host.pending then Some(NotFound)
                 else if TooOld(s.host.pending[id], now) then Some(PermissionTimeout) else None))]
  {}

  /** After its answer a call reports the decision it made, or that the host failed; nothing else is recorded. */
  lemma AnswerIsReported(s: State, call: CallId)
    requires call in s.calls && s.calls[call].phase.Answered?
    ensures var after, c := Step(s, Resume(call)), s.calls[call]; var id := c.response.approvalId;
            && after.host == s.host
            && if c.phase.refusal.Some? then after.broker == s.broker && after.calls[call].phase == Failed(PortFailed)
               else var result := ApprovalResult(id, Resolved, Some(c.response.decision), false, c.revision);
                    after.broker == Settle(s.broker, result) && after.calls[call].phase == Succeeded(result)
  {
    hide Settle;
  }

  /** If the answer is lost, the resolve fails, whatever the host did; nothing else changes. */
  lemma LostAnswerFails(s: State, call: CallId)
    requires call in s.calls && (s.calls[call].phase.Suspended? || s.calls[call].phase.Answered?)
    ensures Step(s, LoseAnswer(call)) == s.(calls := s.calls[call := s.calls[call].(phase := Failed(PortFailed))])
  {}

  /** A call that is over stays over, and a call that is not suspended never reaches the host. */
  lemma OutcomeIsFinal(s: State, e: Event, call: CallId, now: int)
    requires call in s.calls && (s.calls[call].phase.Failed? || s.calls[call].phase.Succeeded?)
    ensures call in Step(s, e).calls && Step(s, e).calls[call] == s.calls[call]
    ensures Step(s, HostHandles(call, now)) == s
  {
    hide Begin, Settle, SettleAll, Sessions, FromToolPermission, HostResolve, HostCancel, HostExpire;
  }

  // ----- the broker's memory -----

  ghost predicate DistinctResults(results: seq<ApprovalResult>) {
    forall i, j :: 0 <= i < j < |results| ==> results[i].approvalId != results[j].approvalId
  }

  ghost predicate DistinctPending(pending: seq<Request>) {
    forall i, j :: 0 <= i < j < |pending| ==> pending[i].id != pending[j].id
  }

  ghost predicate BrokerInvariant(b: Broker) {
    DistinctResults(b.results) && |b.results| <= MAX_REMEMBERED_RESULTS && DistinctPending(b.pending)
  }

  lemma {:induction false} RecordIs(results: seq<ApprovalResult>, r: ApprovalResult)
    requires DistinctResults(results)
    ensures var after := Record(results, r);
            && |after| == |results| + (if Remembered(results, r.approvalId).Some? then 0 else 1)
            && (forall k :: 0 <= k < |results| ==>
                  after[k] == if results[k].approvalId == r.approvalId then r else results[k])
            && (Remembered(results, r.approvalId).None? ==> after[|results|] == r)
  {
    if results != [] {
      var rest := results[1..];
      assert forall i, j :: 0 <= i < j < |rest| ==> rest[i].approvalId != rest[j].approvalId by {
        assert forall k :: 0 <= k < |rest| ==> rest[k] == results[k + 1];
      }
      if results[0].approvalId == r.approvalId {
        assert forall k :: 1 <= k < |results| ==> results[k].approvalId != results[0].approvalId;
      } else {
        RecordIs(rest, r);
        assert forall k :: 1 <= k < |results| ==> results[k] == rest[k - 1];
      }
    }
  }

  lemma RecordedAt(results: seq<ApprovalResult>, r: ApprovalResult) returns (k: nat)
    requires DistinctResults(results)
    ensures k < |Record(results, r)| && Record(results, r)[k] == r
    ensures Remembered(results, r.approvalId).None? ==> k + 1 == |Record(results, r)|
  {
    RecordIs(results, r);
    var found := Remembered(results, r.approvalId);
    if found.Some? {
      k :| 0 <= k < |results| && results[k] == found.value;
    } else {
      k := |results|;
    }
  }

  lemma RecordDistinct(results: seq<ApprovalResult>, r: ApprovalResult)
    requires DistinctResults(results)
    ensures DistinctResults(Record(results, r))
  {
    RecordIs(results, r);
    hide Record, Remembered;
    var after := Record(results, r);
    forall i, j | 0 <= i < j < |after| ensures after[i].approvalId != after[j].approvalId {
      if j == |results| { assert results[i] in results; }
    }
  }

  lemma {:induction false} RememberedAt(results: seq<ApprovalResult>, k: nat)
    requires DistinctResults(results) && k < |results|
    ensures Remembered(results, results[k].approvalId) == Some(results[k])
  {
    hide Remembered;
    var found := Remembered(results, results[k].approvalId);
    assert results[k] in results;
    if found.Some? {
      var j :| 0 <= j < |results| && results[j] == found.value;
    }
  }

  lemma NewestKeeps(all: seq<ApprovalResult>, k: nat)
    requires DistinctResults(all) && k < |all| && |all| - MAX_REMEMBERED_RESULTS <= k
    ensures DistinctResults(Newest(all)) && |Newest(all)| <= MAX_REMEMBERED_RESULTS
    ensures Remembered(Newest(all), all[k].approvalId) == Some(all[k])
  {
    hide Remembered;
    var kept := Newest(all);
    var dropped := |all| - |kept|;
    assert forall j :: 0 <= j < |kept| ==> kept[j] == all[j + dropped];
    RememberedAt(kept, k - dropped);
  }

  lemma RecordSize(results: seq<ApprovalResult>, r: ApprovalResult)
    requires DistinctResults(results)
    ensures |Record(results, r)| == |results| + (if Remembered(results, r.approvalId).Some? then 0 else 1)
  {
    RecordIs(results, r);
  }

  lemma {:induction false} ClosedIn(pending: seq<Request>, id: Id, r: Request)
    ensures r in Closed(pending, id) <==> r in pending && r.id != id
  {
    if pending != [] { ClosedIn(pending[1..], id, r); }
  }

  lemma TailIds(pending: seq<Request>, r: Request)
    requires DistinctPending(pending) && pending != []
    ensures DistinctPending(pending[1..]) && (r in pending[1..] ==> r.id != pending[0].id)
  {
    var rest := pending[1..];
    assert forall k :: 0 <= k < |rest| ==> rest[k] == pending[k + 1];
  }

  lemma ConsIds(r: Request, rest: seq<Request>)
    requires DistinctPending(rest) && forall k :: 0 <= k < |rest| ==> rest[k].id != r.id
    ensures DistinctPending([r] + rest)
  {}

  lemma {:induction false} ClosedDistinct(pending: seq<Request>, id: Id)
    requires DistinctPending(pending)
    ensures DistinctPending(Closed(pending, id))
  {
    if pending != [] {
      TailIds(pending, pending[0]);
      ClosedDistinct(pending[1..], id);
      var rest := Closed(pending[1..], id);
      assert Closed(pending, id) == if pending[0].id == id then rest else [pending[0]] + rest;
      hide Closed, DistinctPending;
      forall k | 0 <= k < |rest| ensures rest[k].id != pending[0].id {
        ClosedIn(pending[1..], id, rest[k]);
        TailIds(pending, rest[k]);
      }
      ConsIds(pending[0], rest);
    }
  }

  lemma ClosedIsClosed(pending: seq<Request>, id: Id)
    ensures Open(Closed(pending, id), id).None?
  {
    var found := Open(Closed(pending, id), id);
    if found.Some? { ClosedIn(pending, id, found.value); }
  }

  /** Settling remembers the outcome, whatever was remembered, and never more than 1000 outcomes. */
  lemma SettleRemembers(b: Broker, r: ApprovalResult)
    requires BrokerInvariant(b)
    ensures BrokerInvariant(Settle(b, r))
    ensures Remembered(Settle(b, r).results, r.approvalId) == Some(r)
    ensures Open(Settle(b, r).pending, r.approvalId).None?
  {
    hide Record, Remembered, Open, Closed, DistinctResults, DistinctPending, Newest;
    var k := RecordedAt(b.results, r);
    RecordSize(b.results, r);
    RecordDistinct(b.results, r);
    ClosedDistinct(b.pending, r.approvalId);
    ClosedIsClosed(b.pending, r.approvalId);
    NewestKeeps(Record(b.results, r), k);
  }

  // ----- are the two maps apart? -----

  ghost predicate Apart(b: Broker) {
    forall r :: r in b.pending ==> Remembered(b.results, r.id).None?
  }

  lemma {:induction false} RecordIn(results: seq<ApprovalResult>, r: ApprovalResult, x: ApprovalResult)
    requires x in Record(results, r)
    ensures x == r || x in results
  {
    if results != [] && results[0].approvalId != r.approvalId {
      if x != results[0] { RecordIn(results[1..], r, x); }
    }
  }

  lemma SettledIn(b: Broker, r: ApprovalResult, x: ApprovalResult)
    requires x in Settle(b, r).results
    ensures x == r || x in b.results
  {
    RecordIn(b.results, r, x);
  }

  lemma SettleApart(b: Broker, r: ApprovalResult)
    requires Apart(b)
    ensures Apart(Settle(b, r))
  {
    var after := Settle(b, r);
    forall p | p in after.pending ensures Remembered(after.results, p.id).None? {
      ClosedIn(b.pending, r.approvalId, p);
      var found := Remembered(after.results, p.id);
      if found.Some? { SettledIn(b, r, found.value); }
    }
  }

  lemma {:induction false} SettleAllApart(b: Broker, ids: seq<Id>, revision: int)
    requires Apart(b)
    ensures Apart(SettleAll(b, ids, revision))
    decreases |ids|
  {
    hide Apart, Settle;
    if ids != [] {
      SettleApart(b, ApprovalResult(ids[0], Canceled, None, false, revision));
      SettleAllApart(Settle(b, ApprovalResult(ids[0], Canceled, None, false, revision)), ids[1..], revision);
    }
  }

  /** One offer makes the two maps overlap exactly if it names a settled id, as a stale sync does. */
  lemma OfferOverlapsIff(b: Broker, r: Request)
    requires Apart(b)
    ensures Apart(FromToolPermission(b, r).0) <==> Remembered(b.results, r.id).None?
  {
    hide Remembered, Open;
    var after := FromToolPermission(b, r).0;
    if Open(b.pending, r.id).Some? {
      assert Open(b.pending, r.id).value in b.pending;
    } else {
      assert r in after.pending;
    }
  }

  lemma {:induction false} OpenSnoc(pending: seq<Request>, r: Request, x: Id)
    ensures Open(pending + [r], x) == if Open(pending, x).Some? then Open(pending, x) else if r.id == x then Some(r) else None
  {
    if pending != [] {
      OpenSnoc(pending[1..], r, x);
      assert (pending + [r])[1..] == pending[1..] + [r];
    }
  }

  /** An offer opens its request unless one of that id is open, and answers with the one that is open then. */
  lemma OfferOpens(b: Broker, r: Request, x: Id)
    ensures var (after, answer) := FromToolPermission(b, r);
            && after.results == b.results && Open(after.pending, r.id) == Some(answer)
            && Open(after.pending, x) == if x == r.id && Open(b.pending, x).None? then Some(r) else Open(b.pending, x)
  {
    OpenSnoc(b.pending, r, x);
    OpenSnoc(b.pending, r, r.id);
    hide Open;
  }

  predicate OffersSettled(s: State, e: Event) {
    e.Offer? && Remembered(s.broker.results, e.request.id).Some?
  }

  lemma BeginIs(b: Broker, response: Response, revision: int, now: int)
    ensures var after := Begin(b, response, revision, now).0;
            after == b || after == Settle(b, ApprovalResult(response.approvalId, Expired, None, false, revision))
  {
    hide Settle, Remembered, Open;
  }

  lemma StepApart(s: State, e: Event)
    requires Apart(s.broker)
    ensures Apart(Step(s, e).broker) <==> !OffersSettled(s, e)
  {
    hide Apart, Settle, SettleAll, Sessions, Begin, FromToolPermission, HostResolve, HostCancel, HostExpire;
    match e {
      case Offer(request) => OfferOverlapsIff(s.broker, request);
      case Resolve(call, response, revision, now) =>
        BeginIs(s.broker, response, revision, now);
        SettleApart(s.broker, ApprovalResult(response.approvalId, Expired, None, false, revision));
      case Resume(call) =>
        if call in s.calls {
          var c := s.calls[call];
          SettleApart(s.broker, ApprovalResult(c.response.approvalId, Resolved, Some(c.response.decision), false, c.revision));
        }
      case SettleCard(result) => SettleApart(s.broker, result.(alreadyResolved := false));
      case CancelForSession(session, revision) => SettleAllApart(s.broker, Sessions(s.broker.pending, session), revision);
      case _ =>
    }
  }

  lemma StartApart()
    ensures forall e: seq<Event> :: e == [] ==> Apart(Run(e).broker)
  {}

  lemma RunLast(events: seq<Event>)
    requires events != []
    ensures Run(events) == Step(Run(events[..|events| - 1]), events[|events| - 1])
  {
    hide Step;
  }

  /** In every run: pending and results stay apart throughout if and only if no offer names a settled id. */
  lemma {:induction false} ApartThroughoutIff(events: seq<Event>)
    ensures (forall k :: 0 <= k <= |events| ==> Apart(Run(events[..k]).broker)) <==>
            (forall k :: 0 <= k < |events| ==> !OffersSettled(Run(events[..k]), events[k]))
  {
    hide Apart, OffersSettled, Step, Run;
    if events == [] {
      StartApart();
    } else {
      var n := |events| - 1;
      ApartThroughoutIff(events[..n]);
      assert forall k :: 0 <= k <= n ==> events[..n][..k] == events[..k];
      assert events[..|events|] == events;
      RunLast(events);
      if Apart(Run(events[..n]).broker) { StepApart(Run(events[..n]), events[n]); }
    }
  }

  // ----- do the stored results tell what the waiter was sent? -----

  /** Nothing, or a denial, is what a request without a decision was sent. */
  predicate NothingAllowed(h: Host, id: Id) {
    forall k :: 0 <= k < |h.SentTo(id)| ==> h.SentTo(id)[k] == Deny
  }

  /** A stored decision is what the waiter was sent; without one the waiter was allowed nothing. */
  predicate Fits(h: Host, r: ApprovalResult) {
    if r.decision.Some? then h.SentTo(r.approvalId) == [r.decision.value] else NothingAllowed(h, r.approvalId)
  }

  ghost predicate Truthful(s: State) {
    forall r :: r in s.broker.results ==> Fits(s.host, r)
  }

  ghost predicate Whole(s: State) {
    Invariant(s) && BrokerInvariant(s.broker)
  }

  lemma RegisterKeeps(b: Broker, r: Request)
    requires BrokerInvariant(b)
    ensures BrokerInvariant(FromToolPermission(b, r).0)
  {
    hide DistinctResults;
    var after := FromToolPermission(b, r).0;
    forall i, j | 0 <= i < j < |after.pending| ensures after.pending[i].id != after.pending[j].id {
      assert b.pending[i] in b.pending;
    }
  }

  lemma {:induction false} SettleAllKeeps(b: Broker, ids: seq<Id>, revision: int)
    requires BrokerInvariant(b)
    ensures BrokerInvariant(SettleAll(b, ids, revision))
    decreases |ids|
  {
    hide BrokerInvariant, Settle;
    if ids != [] {
      SettleRemembers(b, ApprovalResult(ids[0], Canceled, None, false, revision));
      SettleAllKeeps(Settle(b, ApprovalResult(ids[0], Canceled, None, false, revision)), ids[1..], revision);
    }
  }

  lemma BrokerStepKeeps(s: State, e: Event)
    requires BrokerInvariant(s.broker)
    ensures BrokerInvariant(Step(s, e).broker)
  {
    hide BrokerInvariant, Settle, SettleAll, Sessions, Begin, FromToolPermission, HostResolve, HostCancel, HostExpire;
    match e {
      case Offer(request) => RegisterKeeps(s.broker, request);
      case Resolve(call, response, revision, now) =>
        BeginIs(s.broker, response, revision, now);
        SettleRemembers(s.broker, ApprovalResult(response.approvalId, Expired, None, false, revision));
      case Resume(call) =>
        if call in s.calls {
          var c := s.calls[call];
          SettleRemembers(s.broker, ApprovalResult(c.response.approvalId, Resolved, Some(c.response.decision), false, c.revision));
        }
      case SettleCard(result) => SettleRemembers(s.broker, result.(alreadyResolved := false));
      case CancelForSession(session, revision) => SettleAllKeeps(s.broker, Sessions(s.broker.pending, session), revision);
      case _ =>
    }
  }

  lemma StepWhole(s: State, e: Event)
    requires Whole(s)
    ensures Whole(Step(s, e))
  {
    hide Step, Invariant, BrokerInvariant;
    BrokerStepKeeps(s, e);
    if e.Resolve? || e.Resume? || e.LoseAnswer? { ClientStepKeeps(s, e); } else { HostStepKeeps(s, e); }
  }

  /** The host answers an open request in time, with more than a denial, although a result is already stored. */
  predicate AllowsSettled(s: State, id: Id, d: Decision, now: int) {
    && id in s.host.pending && !Stale(s.host.pending[id], now)
    && d != Deny && Remembered(s.broker.results, id).Some?
  }

  /** Resolve finds its request expired, and the waiter was already allowed something. */
  predicate ExpiresAllowed(s: State, call: CallId, response: Response, now: int) {
    var id := response.approvalId;
    && call !in s.calls && Remembered(s.broker.results, id).None?
    && Open(s.broker.pending, id).Some? && Open(s.broker.pending, id).value.expiresAt <= now
    && !NothingAllowed(s.host, id)
  }

  /** How far from the end the result of an id is stored: 1 for the newest. */
  function Age(results: seq<ApprovalResult>, id: Id): (age: Option<int>)
    ensures age.Some? <==> Remembered(results, id).Some?
    ensures age.Some? ==> 1 <= age.value <= |results|
  {
    if results == [] then None
    else if results[0].approvalId == id then Some(|results|)
    else Age(results[1..], id)
  }

  /** The age after n more results were appended; the oldest beyond the limit are gone. */
  function Later(age: Option<int>, n: int): Option<int> {
    if age.Some? && age.value + n <= MAX_REMEMBERED_RESULTS then Some(age.value + n) else None
  }

  /** How many results a cancel of these requests appends; those still stored at their turn are replaced in place. */
  function Appended(results: seq<ApprovalResult>, ids: seq<Id>): nat {
    if ids == [] then 0
    else
      var front := ids[..|ids| - 1];
      Appended(results, front) + (if Later(Age(results, ids[|ids| - 1]), Appended(results, front)).Some? then 0 else 1)
  }

  /** The age of the result of request k once all are canceled, told from the results stored before. */
  function CanceledAge(results: seq<ApprovalResult>, ids: seq<Id>, k: nat): Option<int>
    requires k < |ids|
  {
    var before, all := Appended(results, ids[..k]), Appended(results, ids);
    if Later(Age(results, ids[k]), before).Some? then Later(Age(results, ids[k]), all) else Later(Some(0), all - before)
  }

  /** A session cancel stores canceled, and keeps it, for a request whose waiter was already allowed something. */
  predicate CancelsAllowed(s: State, session: string) {
    var ids := Sessions(s.broker.pending, session);
    exists k :: 0 <= k < |ids| && !NothingAllowed(s.host, ids[k]) && CanceledAge(s.broker.results, ids, k).Some?
  }

  /** The events that store, or leave stored, something the waiter was not sent. */
  predicate Breaks(s: State, e: Event) {
    match e
    case HostHandles(call, now) =>
      && call in s.calls && s.calls[call].phase.Suspended?
      && AllowsSettled(s, s.calls[call].response.approvalId, s.calls[call].response.decision, now)
    case ResolveCard(id, d, now) => AllowsSettled(s, id, d, now)
    case Resolve(call, response, _, now) => ExpiresAllowed(s, call, response, now)
    case CancelForSession(session, _) => CancelsAllowed(s, session)
    case SettleCard(result) => !Fits(s.host, result)
    case _ => false
  }

  /** Storing one more result is truthful exactly if that result is. */
  lemma SettleTruthfulIff(s: State, r: ApprovalResult)
    requires Truthful(s) && BrokerInvariant(s.broker)
    ensures Truthful(s.(broker := Settle(s.broker, r))) <==> Fits(s.host, r)
  {
    hide Fits, Settle, BrokerInvariant, Remembered;
    var after := Settle(s.broker, r);
    SettleRemembers(s.broker, r);
    assert r in after.results;
    forall x | x in after.results ensures x == r || x in s.broker.results {
      SettledIn(s.broker, r, x);
    }
  }

  lemma AnswerElsewhere(h: Host, id: Id, d: Decision, r: ApprovalResult)
    requires r.approvalId != id
    ensures Fits(h.Answer(id, d), r) <==> Fits(h, r)
  {
    assert h.Answer(id, d).SentTo(r.approvalId) == h.SentTo(r.approvalId);
  }

  /** Answering an open request changes what fits for that request only. */
  lemma AnswerTruthfulIff(s: State, id: Id, d: Decision)
    requires Truthful(s) && HostInvariant(s.host, s.created) && id in s.host.pending
    ensures Truthful(s.(host := s.host.Answer(id, d))) <==> d == Deny || Remembered(s.broker.results, id).None?
  {
    hide Remembered;
    var after := s.host.Answer(id, d);
    assert s.host.SentTo(id) == [] && after.SentTo(id) == [d];
    forall r | r in s.broker.results && r.approvalId != id ensures Fits(after, r) <==> Fits(s.host, r) {
      AnswerElsewhere(s.host, id, d, r);
    }
    forall r | r in s.broker.results && r.approvalId == id ensures Fits(after, r) <==> d == Deny {
      assert Fits(s.host, r);
      assert after.SentTo(id)[0] == d;
    }
  }

  lemma HostResolveTruthfulIff(s: State, id: Id, d: Decision, now: int)
    requires Truthful(s) && HostInvariant(s.host, s.created)
    ensures Truthful(s.(host := HostResolve(s.host, id, d, now).0)) <==> !AllowsSettled(s, id, d, now)
  {
    hide Truthful, HostInvariant, Host.Answer, Remembered;
    if id in s.host.pending {
      AnswerTruthfulIff(s, id, Deny);
      AnswerTruthfulIff(s, id, d);
    } else {
      assert s.(host := s.host) == s;
    }
  }

  lemma ExpireTruthful(s: State, now: int)
    requires Truthful(s) && HostInvariant(s.host, s.created)
    ensures Truthful(s.(host := HostExpire(s.host, now)))
  {
    hide Stale;
    var after := HostExpire(s.host, now);
    forall r | r in s.broker.results ensures Fits(after, r) {
      assert Fits(s.host, r);
      if r.approvalId in StaleIds(s.host, now) {
        assert s.host.SentTo(r.approvalId) == [] && after.SentTo(r.approvalId) == [Deny];
      } else {
        assert after.SentTo(r.approvalId) == s.host.SentTo(r.approvalId);
      }
    }
  }

  lemma {:induction false} SettleAllIn(b: Broker, ids: seq<Id>, revision: int, x: ApprovalResult)
    requires x in SettleAll(b, ids, revision).results
    ensures x in b.results || (x.approvalId in ids && x == ApprovalResult(x.approvalId, Canceled, None, false, revision))
    decreases |ids|
  {
    hide Settle;
    if ids != [] {
      var r := ApprovalResult(ids[0], Canceled, None, false, revision);
      SettleAllIn(Settle(b, r), ids[1..], revision, x);
      if x in Settle(b, r).results { SettledIn(b, r, x); }
    }
  }

  lemma OnlyOne(b: Broker, x: ApprovalResult, r: ApprovalResult)
    requires BrokerInvariant(b)
    requires Remembered(b.results, r.approvalId) == Some(r) && x in b.results && x.approvalId == r.approvalId
    ensures x == r
  {
    hide Remembered;
    var results := b.results;
    var i :| 0 <= i < |results| && results[i] == x;
    var j :| 0 <= j < |results| && results[j] == r;
  }

  /** What is remembered of a canceled request afterwards is that it was canceled. */
  lemma {:induction false} SettleAllStores(b: Broker, ids: seq<Id>, revision: int, k: nat)
    requires BrokerInvariant(b) && k < |ids|
    ensures var found := Remembered(SettleAll(b, ids, revision).results, ids[k]);
            found.Some? ==> found.value == ApprovalResult(ids[k], Canceled, None, false, revision)
    decreases |ids|
  {
    hide Settle, Remembered, BrokerInvariant;
    var r := ApprovalResult(ids[0], Canceled, None, false, revision);
    var next, found := Settle(b, r), Remembered(SettleAll(b, ids, revision).results, ids[k]);
    SettleRemembers(b, r);
    if k > 0 {
      SettleAllStores(next, ids[1..], revision, k - 1);
    } else if found.Some? {
      SettleAllIn(next, ids[1..], revision, found.value);
      if found.value in next.results { OnlyOne(next, found.value, r); }
    }
  }

  // ----- which results of a session cancel stay stored -----

  ghost predicate DifferentIds(ids: seq<Id>) {
    forall i, j :: 0 <= i < j < |ids| ==> ids[i] != ids[j]
  }

  function CanceledResult(id: Id, revision: int): ApprovalResult {
    ApprovalResult(id, Canceled, None, false, revision)
  }

  /** Ages after a result was recorded, in place or at the end. */
  function RecordedAge(results: seq<ApprovalResult>, id: Id, x: Id): Option<int> {
    var age := Age(results, x);
    if Age(results, id).Some? then age
    else if x == id then Some(1)
    else if age.Some? then Some(age.value + 1) else None
  }

  lemma AgeCons(r: ApprovalResult, rest: seq<ApprovalResult>, x: Id)
    ensures Age([r] + rest, x) == if r.approvalId == x then Some(|rest| + 1) else Age(rest, x)
  {
    assert ([r] + rest)[1..] == rest;
    hide Remembered;
  }

  lemma RecordCons(first: ApprovalResult, rest: seq<ApprovalResult>, r: ApprovalResult)
    ensures Record([first] + rest, r) == if first.approvalId == r.approvalId then [r] + rest else [first] + Record(rest, r)
  {
    assert ([first] + rest)[1..] == rest;
  }

  lemma RecordNothing(r: ApprovalResult, x: Id)
    ensures Record([], r) == [r] && Age([r], x) == RecordedAge([], r.approvalId, x)
  {}

  lemma {:induction false} RecordAge(results: seq<ApprovalResult>, r: ApprovalResult, x: Id)
    ensures |Record(results, r)| == |results| + (if Age(results, r.approvalId).Some? then 0 else 1)
    ensures Age(Record(results, r), x) == RecordedAge(results, r.approvalId, x)
  {
    hide Remembered, Record, Age;
    if results == [] {
      RecordNothing(r, x);
    } else {
      var first, rest := results[0], results[1..];
      assert results == [first] + rest;
      RecordCons(first, rest, r);
      AgeCons(first, rest, x);
      AgeCons(first, rest, r.approvalId);
      if first.approvalId == r.approvalId {
        AgeCons(r, rest, x);
      } else {
        RecordAge(rest, r, x);
        AgeCons(first, Record(rest, r), x);
      }
    }
  }

  lemma TailAge(all: seq<ApprovalResult>, x: Id)
    requires DistinctResults(all) && all != []
    ensures all[0].approvalId == x ==> Age(all[1..], x).None?
  {
    var found := Remembered(all[1..], x);
    if found.Some? {
      var j :| 0 <= j < |all[1..]| && all[1..][j] == found.value;
      assert all[j + 1].approvalId == x;
    }
  }

  lemma NewestAge(all: seq<ApprovalResult>, x: Id)
    requires DistinctResults(all) && |all| <= MAX_REMEMBERED_RESULTS + 1
    ensures Age(Newest(all), x) == Later(Age(all, x), 0)
  {
    if |all| > MAX_REMEMBERED_RESULTS {
      TailAge(all, x);
      assert Newest(all) == all[1..];
    }
  }

  lemma SettleParts(b: Broker, r: ApprovalResult)
    requires BrokerInvariant(b)
    ensures Settle(b, r).results == Newest(Record(b.results, r))
    ensures DistinctResults(b.results) && |b.results| <= MAX_REMEMBERED_RESULTS
  {
    hide Newest, Record, Closed;
  }

  /** One settlement: in place, or at the end with the others one older. */
  lemma SettleAge(b: Broker, r: ApprovalResult, x: Id)
    requires BrokerInvariant(b)
    ensures Age(Settle(b, r).results, x) ==
            if Age(b.results, r.approvalId).Some? then Age(b.results, x)
            else if x == r.approvalId then Some(1) else Later(Age(b.results, x), 1)
  {
    hide Record, Newest, Closed, Settle, Remembered, Age, DistinctResults, BrokerInvariant;
    SettleParts(b, r);
    RecordAge(b.results, r, x);
    RecordDistinct(b.results, r);
    NewestAge(Record(b.results, r), x);
  }

  lemma {:induction false} SettleAllLast(b: Broker, ids: seq<Id>, revision: int)
    requires ids != []
    ensures SettleAll(b, ids, revision) ==
            Settle(SettleAll(b, ids[..|ids| - 1], revision), CanceledResult(ids[|ids| - 1], revision))
    decreases |ids|
  {
    hide Settle;
    if |ids| > 1 {
      var rest := ids[1..];
      SettleAllLast(Settle(b, CanceledResult(ids[0], revision)), rest, revision);
      assert rest[..|rest| - 1] == ids[..|ids| - 1][1..];
    }
  }

  lemma NotYet(b: Broker, revision: int, x: Id)
    requires BrokerInvariant(b)
    ensures Age(SettleAll(b, [], revision).results, x) == Later(Age(b.results, x), Appended(b.results, []))
  {
    hide Age;
  }

  lemma LaterTwice(age: Option<int>, n: int)
    ensures Later(Later(age, n), 1) == Later(age, n + 1)
  {}

  lemma AppendedLast(results: seq<ApprovalResult>, ids: seq<Id>)
    requires ids != []
    ensures var n := |ids| - 1; var before := Appended(results, ids[..n]);
            Appended(results, ids) == before + (if Later(Age(results, ids[n]), before).Some? then 0 else 1)
  {
    hide Age, Later;
  }

  predicate Among(x: Id, ids: seq<Id>) {
    x in ids
  }

  lemma FrontDiffers(ids: seq<Id>)
    requires ids != [] && DifferentIds(ids)
    ensures DifferentIds(ids[..|ids| - 1]) && !Among(ids[|ids| - 1], ids[..|ids| - 1])
  {}

  lemma FrontAmong(ids: seq<Id>, x: Id)
    requires ids != [] && !Among(x, ids)
    ensures !Among(x, ids[..|ids| - 1]) && x != ids[|ids| - 1]
  {}

  lemma CanceledId(id: Id, revision: int)
    ensures CanceledResult(id, revision).approvalId == id
  {}

  /** One more settlement after a run of them, seen from a result x that none of them is about. */
  lemma AgeStep(results: seq<ApprovalResult>, mid: Broker, r: ApprovalResult, n: int, x: Id)
    requires BrokerInvariant(mid) && x != r.approvalId
    requires Age(mid.results, x) == Later(Age(results, x), n)
    requires Age(mid.results, r.approvalId) == Later(Age(results, r.approvalId), n)
    ensures Age(Settle(mid, r).results, x) ==
            Later(Age(results, x), n + (if Later(Age(results, r.approvalId), n).Some? then 0 else 1))
  {
    hide *;
    SettleAge(mid, r, x);
    LaterTwice(Age(results, x), n);
  }

  /** A result of another request grows older by what is appended. */
  lemma {:induction false} AgeElsewhere(b: Broker, ids: seq<Id>, revision: int, x: Id)
    requires BrokerInvariant(b) && DifferentIds(ids) && !Among(x, ids)
    ensures Age(SettleAll(b, ids, revision).results, x) == Later(Age(b.results, x), Appended(b.results, ids))
    decreases |ids|
  {
    hide *;
    if ids == [] {
      NotYet(b, revision, x);
    } else {
      var front, last := ids[..|ids| - 1], ids[|ids| - 1];
      FrontDiffers(ids);
      FrontAmong(ids, x);
      AgeElsewhere(b, front, revision, x);
      AgeElsewhere(b, front, revision, last);
      SettleAllLast(b, ids, revision);
      SettleAllKeeps(b, front, revision);
      CanceledId(last, revision);
      AppendedLast(b.results, ids);
      AgeStep(b.results, SettleAll(b, front, revision), CanceledResult(last, revision), Appended(b.results, front), x);
    }
  }

  lemma CanceledAgeLast(results: seq<ApprovalResult>, ids: seq<Id>)
    requires ids != []
    ensures var n := |ids| - 1; var turn := Later(Age(results, ids[n]), Appended(results, ids[..n]));
            CanceledAge(results, ids, n) == if turn.Some? then turn else Some(1)
  {
    hide Age;
  }

  lemma CanceledAgeBefore(results: seq<ApprovalResult>, ids: seq<Id>, k: nat)
    requires k < |ids| - 1
    ensures var n := |ids| - 1; var age := CanceledAge(results, ids[..n], k);
            CanceledAge(results, ids, k) ==
            if Later(Age(results, ids[n]), Appended(results, ids[..n])).Some? then age else Later(age, 1)
  {
    hide Age;
    assert ids[..|ids| - 1][..k] == ids[..k];
  }

  /** The results of the canceled requests themselves. */
  lemma DifferentAt(ids: seq<Id>, k: nat)
    requires DifferentIds(ids) && k < |ids| - 1
    ensures ids[k] != ids[|ids| - 1]
  {}

  lemma {:induction false} AgeOfCanceled(b: Broker, ids: seq<Id>, revision: int, k: nat)
    requires BrokerInvariant(b) && DifferentIds(ids) && k < |ids|
    ensures Age(SettleAll(b, ids, revision).results, ids[k]) == CanceledAge(b.results, ids, k)
    decreases |ids|
  {
    var front, last := ids[..|ids| - 1], ids[|ids| - 1];
    hide *;
    FrontDiffers(ids);
    CanceledId(last, revision);
    AgeElsewhere(b, front, revision, last);
    SettleAllLast(b, ids, revision);
    SettleAllKeeps(b, front, revision);
    SettleAge(SettleAll(b, front, revision), CanceledResult(last, revision), ids[k]);
    if k < |ids| - 1 {
      DifferentAt(ids, k);
      AgeOfCanceled(b, front, revision, k);
      assert front[k] == ids[k];
      CanceledAgeBefore(b.results, ids, k);
    } else {
      CanceledAgeLast(b.results, ids);
    }
  }

  /** Which results of a session cancel are stored in the end, told from the results stored before. */
  lemma CancelStores(b: Broker, ids: seq<Id>, revision: int, k: nat)
    requires BrokerInvariant(b) && DifferentIds(ids) && k < |ids|
    ensures Remembered(SettleAll(b, ids, revision).results, ids[k]).Some? <==> CanceledAge(b.results, ids, k).Some?
  {
    hide *;
    AgeOfCanceled(b, ids, revision, k);
    assert Age(SettleAll(b, ids, revision).results, ids[k]).Some? <==> Remembered(SettleAll(b, ids, revision).results, ids[k]).Some?;
  }

  lemma {:induction false} SessionsIn(pending: seq<Request>, session: string, id: Id)
    requires id in Sessions(pending, session)
    ensures exists r :: r in pending && r.id == id
  {
    if pending[0].session != session || pending[0].id != id { SessionsIn(pending[1..], session, id); }
  }

  lemma {:induction false} SessionsDiffer(pending: seq<Request>, session: string)
    requires DistinctPending(pending)
    ensures DifferentIds(Sessions(pending, session))
  {
    if pending != [] {
      TailIds(pending, pending[0]);
      SessionsDiffer(pending[1..], session);
      var later := Sessions(pending[1..], session);
      forall k | 0 <= k < |later| ensures later[k] != pending[0].id {
        SessionsIn(pending[1..], session, later[k]);
        var r :| r in pending[1..] && r.id == later[k];
        TailIds(pending, r);
      }
    }
  }

  lemma OpenCons(first: Request, rest: seq<Request>, x: Id)
    ensures Open([first] + rest, x) == if first.id == x then Some(first) else Open(rest, x)
  {
    assert ([first] + rest)[1..] == rest;
  }

  lemma ClosedCons(first: Request, rest: seq<Request>, id: Id)
    ensures Closed([first] + rest, id) == if first.id == id then Closed(rest, id) else [first] + Closed(rest, id)
  {
    assert ([first] + rest)[1..] == rest;
  }

  lemma {:induction false} ClosedElsewhere(pending: seq<Request>, id: Id, x: Id)
    requires x != id
    ensures Open(Closed(pending, id), x) == Open(pending, x)
  {
    if pending != [] {
      hide Open, Closed;
      var first, rest := pending[0], pending[1..];
      assert pending == [first] + rest;
      ClosedElsewhere(rest, id, x);
      ClosedCons(first, rest, id);
      OpenCons(first, rest, x);
      OpenCons(first, Closed(rest, id), x);
    }
  }

  lemma RememberedIn(results: seq<ApprovalResult>, all: seq<ApprovalResult>, r: ApprovalResult, x: Id)
    requires DistinctResults(all) && x != r.approvalId && forall y :: y in results ==> y == r || y in all
    ensures Remembered(results, x).Some? ==> Remembered(results, x) == Remembered(all, x)
  {
    var found, old_ := Remembered(results, x), Remembered(all, x);
    if found.Some? {
      assert found.value in all && old_.Some?;
      var i :| 0 <= i < |all| && all[i] == found.value;
      var j :| 0 <= j < |all| && all[j] == old_.value;
    }
  }

  /** Settling one request leaves the others open as they were, and their results stored unless one is pushed out. */
  lemma SettleElsewhere(b: Broker, r: ApprovalResult, x: Id)
    requires BrokerInvariant(b) && x != r.approvalId
    ensures var after := Settle(b, r);
            && Open(after.pending, x) == Open(b.pending, x)
            && Remembered(after.results, x) ==
                 if Age(b.results, r.approvalId).Some? || Later(Age(b.results, x), 1).Some? then Remembered(b.results, x) else None
  {
    SettleAge(b, r, x);
    ClosedElsewhere(b.pending, r.approvalId, x);
    forall y | y in Settle(b, r).results ensures y == r || y in b.results { SettledIn(b, r, y); }
    RememberedIn(Settle(b, r).results, b.results, r, x);
    hide Remembered, Newest, Record;
  }

  lemma CancelTruthfulIff(s: State, session: string, revision: int)
    requires Truthful(s) && BrokerInvariant(s.broker)
    ensures var after := SettleAll(s.broker, Sessions(s.broker.pending, session), revision);
            Truthful(s.(broker := after)) <==> !CancelsAllowed(s, session)
  {
    var ids := Sessions(s.broker.pending, session);
    SessionsDiffer(s.broker.pending, session);
    hide BrokerInvariant, SettleAll, Sessions, Remembered, NothingAllowed, CanceledAge, DifferentIds;
    var after := SettleAll(s.broker, ids, revision);
    forall k | 0 <= k < |ids|
      ensures Remembered(after.results, ids[k]).Some? <==> CanceledAge(s.broker.results, ids, k).Some?
      ensures Remembered(after.results, ids[k]).Some? ==> Remembered(after.results, ids[k]).value.decision == None
    {
      CancelStores(s.broker, ids, revision, k);
      SettleAllStores(s.broker, ids, revision, k);
    }
    forall x | x in after.results && !Fits(s.host, x)
      ensures CancelsAllowed(s, session)
    {
      SettleAllIn(s.broker, ids, revision, x);
      var k :| 0 <= k < |ids| && ids[k] == x.approvalId;
      assert Remembered(after.results, ids[k]).Some?;
    }
  }

  lemma ExpiryTruthfulIff(s: State, call: CallId, response: Response, revision: int, now: int)
    requires Truthful(s) && BrokerInvariant(s.broker) && call !in s.calls
    ensures Truthful(s.(broker := Begin(s.broker, response, revision, now).0)) <==> !ExpiresAllowed(s, call, response, now)
  {
    hide Truthful, BrokerInvariant, Settle, Remembered, Open, NothingAllowed;
    SettleTruthfulIff(s, ApprovalResult(response.approvalId, Expired, None, false, revision));
    assert s.(broker := s.broker) == s;
  }

  lemma NotAgain(s: State, call: CallId, response: Response, now: int)
    requires call in s.calls
    ensures !ExpiresAllowed(s, call, response, now)
  {}

  lemma DecisionFits(h: Host, r: ApprovalResult)
    requires r.decision.Some? && h.SentTo(r.approvalId) == [r.decision.value]
    ensures Fits(h, r)
  {}

  lemma FlagDoesNotMatter(h: Host, r: ApprovalResult)
    ensures Fits(h, r.(alreadyResolved := false)) <==> Fits(h, r)
  {}

  lemma BrokerStepTruthfulIff(s: State, e: Event)
    requires Truthful(s) && Whole(s)
    requires e.Offer? || e.Resolve? || e.Resume? || e.LoseAnswer? || e.SettleCard? || e.CancelForSession?
    ensures Truthful(Step(s, e)) <==> !Breaks(s, e)
  {
    hide BrokerInvariant, Settle, SettleAll, Sessions, Begin, Fits, ExpiresAllowed, CancelsAllowed, HostInvariant, Open, Remembered;
    match e {
      case Offer(request) =>
      case Resolve(call, response, revision, now) =>
        if call !in s.calls { ExpiryTruthfulIff(s, call, response, revision, now); } else { NotAgain(s, call, response, now); }
      case Resume(call) =>
        if call in s.calls && s.calls[call].phase.Answered? && s.calls[call].phase.refusal.None? {
          var c := s.calls[call];
          SettleTruthfulIff(s, ApprovalResult(c.response.approvalId, Resolved, Some(c.response.decision), false, c.revision));
          assert Accepted(c);
          DecisionFits(s.host, ApprovalResult(c.response.approvalId, Resolved, Some(c.response.decision), false, c.revision));
        }
      case LoseAnswer(call) =>
      case SettleCard(result) =>
        SettleTruthfulIff(s, result.(alreadyResolved := false));
        FlagDoesNotMatter(s.host, result);
      case CancelForSession(session, revision) => CancelTruthfulIff(s, session, revision);
    }
  }

  lemma CreateFits(s: State, id: Id, w: Waiting)
    requires Truthful(s)
    ensures Truthful(s.(host := s.host.(pending := s.host.pending[id := w])))
  {
    forall r | r in s.broker.results ensures Fits(s.host.(pending := s.host.pending[id := w]), r) {
      assert Fits(s.host, r);
      assert s.host.(pending := s.host.pending[id := w]).SentTo(r.approvalId) == s.host.SentTo(r.approvalId);
    }
  }

  lemma HostStepTruthfulIff(s: State, e: Event)
    requires Truthful(s) && Whole(s)
    requires e.Create? || e.HostHandles? || e.ResolveCard? || e.CancelTool? || e.ExpireStale?
    ensures Truthful(Step(s, e)) <==> !Breaks(s, e)
  {
    hide BrokerInvariant, AllowsSettled, HostResolve, HostExpire, CallsInvariant, HostInvariant, Fits;
    match e {
      case Create(id, waiting) => CreateFits(s, id, waiting);
      case HostHandles(call, now) =>
        if call in s.calls && s.calls[call].phase.Suspended? {
          HostResolveTruthfulIff(s, s.calls[call].response.approvalId, s.calls[call].response.decision, now);
        }
      case ResolveCard(id, d, now) => HostResolveTruthfulIff(s, id, d, now);
      case CancelTool(id) => if id in s.host.pending { AnswerTruthfulIff(s, id, Deny); }
      case ExpireStale(now) => ExpireTruthful(s, now);
    }
  }

  /** The exact steps after which a stored result differs from what the waiter was sent. */
  lemma StepTruthfulIff(s: State, e: Event)
    requires Truthful(s) && Whole(s)
    ensures Truthful(Step(s, e)) <==> !Breaks(s, e)
  {
    hide Truthful, Whole, Step, Breaks;
    if e.Create? || e.HostHandles? || e.ResolveCard? || e.CancelTool? || e.ExpireStale? {
      HostStepTruthfulIff(s, e);
    } else {
      BrokerStepTruthfulIff(s, e);
    }
  }

  lemma StartTruthful()
    ensures forall e: seq<Event> :: e == [] ==> Truthful(Run(e)) && Whole(Run(e))
  {
    StartInvariant();
  }

  /**
   * In every run, all stored results tell throughout what their waiters were
   * sent, if and only if no event breaks that: a late permission for a request
   * with a stored result, an expiry or a session cancel after a permission, or
   * a card that settles with something else than was sent.
   */
  lemma {:induction false} TruthfulThroughoutIff(events: seq<Event>)
    ensures Whole(Run(events))
    ensures (forall k :: 0 <= k <= |events| ==> Truthful(Run(events[..k]))) <==>
            (forall k :: 0 <= k < |events| ==> !Breaks(Run(events[..k]), events[k]))
  {
    hide Truthful, Whole, Breaks, Step, Run;
    if events == [] {
      StartTruthful();
    } else {
      var n := |events| - 1;
      TruthfulThroughoutIff(events[..n]);
      assert forall k :: 0 <= k <= n ==> events[..n][..k] == events[..k];
      assert events[..|events|] == events;
      RunLast(events);
      StepWhole(Run(events[..n]), events[n]);
      if Truthful(Run(events[..n])) { StepTruthfulIff(Run(events[..n]), events[n]); }
    }
  }

  lemma SettleGrows(b: Broker, r: ApprovalResult)
    requires BrokerInvariant(b)
    ensures |Settle(b, r).results| <= |b.results| + 1
  {
    RecordSize(b.results, r);
    hide Record, Remembered, Closed;
  }

  lemma {:induction false} RecordRemembers(results: seq<ApprovalResult>, r: ApprovalResult, id: Id)
    requires Remembered(results, id).Some?
    ensures Remembered(Record(results, r), id).Some?
  {
    if results != [] && results[0].approvalId != r.approvalId && results[0].approvalId != id {
      RecordRemembers(results[1..], r, id);
    }
  }

  lemma RecordBound(b: Broker, r: ApprovalResult)
    requires BrokerInvariant(b)
    ensures |Record(b.results, r)| <= |b.results| + 1
  {
    RecordSize(b.results, r);
  }

  lemma {:induction false} RememberedStays(b: Broker, ids: seq<Id>, revision: int, id: Id)
    requires BrokerInvariant(b) && |b.results| + |ids| <= MAX_REMEMBERED_RESULTS && Remembered(b.results, id).Some?
    ensures Remembered(SettleAll(b, ids, revision).results, id).Some?
    decreases |ids|
  {
    hide Remembered, BrokerInvariant, Record, Closed;
    if ids != [] {
      var r := ApprovalResult(ids[0], Canceled, None, false, revision);
      SettleRemembers(b, r);
      SettleGrows(b, r);
      RecordBound(b, r);
      RecordRemembers(b.results, r, id);
      RememberedStays(Settle(b, r), ids[1..], revision, id);
    }
  }

  /** As long as the memory has room for them, a session cancel stores all its results. */
  lemma {:induction false} CancelStoresAll(b: Broker, ids: seq<Id>, revision: int, k: nat)
    requires BrokerInvariant(b) && |b.results| + |ids| <= MAX_REMEMBERED_RESULTS && k < |ids|
    ensures Remembered(SettleAll(b, ids, revision).results, ids[k]).Some?
    decreases |ids|
  {
    hide Settle, Remembered, BrokerInvariant;
    var r := ApprovalResult(ids[0], Canceled, None, false, revision);
    SettleRemembers(b, r);
    SettleGrows(b, r);
    if k > 0 {
      CancelStoresAll(Settle(b, r), ids[1..], revision, k - 1);
    } else {
      RememberedStays(Settle(b, r), ids[1..], revision, ids[0]);
    }
  }

  lemma {:induction false} AllAppended(results: seq<ApprovalResult>, ids: seq<Id>)
    requires forall k :: 0 <= k < |ids| ==> Age(results, ids[k]).None?
    ensures Appended(results, ids) == |ids|
  {
    if ids != [] { AllAppended(results, ids[..|ids| - 1]); }
  }

  lemma CanceledNew(results: seq<ApprovalResult>, ids: seq<Id>, k: nat)
    requires k < |ids| && forall j :: 0 <= j < |ids| ==> Age(results, ids[j]).None?
    ensures CanceledAge(results, ids, k).Some? <==> |ids| - k <= MAX_REMEMBERED_RESULTS
  {
    hide Age, Appended;
    AllAppended(results, ids);
    AllAppended(results, ids[..k]);
  }

  lemma {:induction false} SessionsApart(b: Broker, session: string, k: nat)
    requires Apart(b) && k < |Sessions(b.pending, session)|
    ensures Age(b.results, Sessions(b.pending, session)[k]).None?
  {
    SessionsIn(b.pending, session, Sessions(b.pending, session)[k]);
    hide Age, Remembered, Sessions;
  }

  lemma AllowedCanceled(s: State, session: string) returns (k: nat)
    requires CancelsAllowed(s, session)
    ensures var ids := Sessions(s.broker.pending, session);
            k < |ids| && !NothingAllowed(s.host, ids[k]) && CanceledAge(s.broker.results, ids, k).Some?
  {
    var ids := Sessions(s.broker.pending, session);
    hide NothingAllowed, CanceledAge, Sessions;
    k :| k < |ids| && !NothingAllowed(s.host, ids[k]) && CanceledAge(s.broker.results, ids, k).Some?;
  }

  lemma CancelAllowedAt(s: State, session: string, k: nat)
    requires var ids := Sessions(s.broker.pending, session);
             k < |ids| && !NothingAllowed(s.host, ids[k]) && CanceledAge(s.broker.results, ids, k).Some?
    ensures CancelsAllowed(s, session)
  {
    hide NothingAllowed, CanceledAge, Sessions;
  }

  /**
   * While the two maps are apart, a session cancel stores something other than
   * was sent exactly if one of the last MAX_REMEMBERED_RESULTS open requests of
   * the session was already allowed something.
   */
  lemma CancelsAllowedIff(s: State, session: string)
    requires Apart(s.broker)
    ensures var ids := Sessions(s.broker.pending, session);
            CancelsAllowed(s, session) <==>
            exists k :: 0 <= k < |ids| && |ids| - k <= MAX_REMEMBERED_RESULTS && !NothingAllowed(s.host, ids[k])
  {
    var ids, results := Sessions(s.broker.pending, session), s.broker.results;
    forall k | 0 <= k < |ids| ensures Age(results, ids[k]).None? {
      SessionsApart(s.broker, session, k);
    }
    hide *;
    if CancelsAllowed(s, session) {
      var k := AllowedCanceled(s, session);
      CanceledNew(results, ids, k);
    }
    if k: nat :| k < |ids| && |ids| - k <= MAX_REMEMBERED_RESULTS && !NothingAllowed(s.host, ids[k]) {
      CanceledNew(results, ids, k);
      CancelAllowedAt(s, session, k);
    }
  }

  lemma {:induction false} SettleAllCloses(b: Broker, ids: seq<Id>, revision: int, x: Id)
    ensures Open(SettleAll(b, ids, revision).pending, x) == if Among(x, ids) then None else Open(b.pending, x)
    decreases |ids|
  {
    hide Open, Record, Newest, Closed;
    if ids != [] {
      var r := CanceledResult(ids[0], revision);
      SettleAllCloses(Settle(b, r), ids[1..], revision, x);
      ClosedIsClosed(b.pending, ids[0]);
      if x != ids[0] { ClosedElsewhere(b.pending, ids[0], x); }
      assert Among(x, ids) <==> x == ids[0] || Among(x, ids[1..]);
    }
  }

  lemma {:induction false} SessionsAre(pending: seq<Request>, session: string, x: Id)
    requires DistinctPending(pending)
    ensures Among(x, Sessions(pending, session)) <==> Open(pending, x).Some? && Open(pending, x).value.session == session
  {
    if pending != [] {
      TailIds(pending, pending[0]);
      SessionsAre(pending[1..], session, x);
      if Among(x, Sessions(pending[1..], session)) {
        var r := Open(pending[1..], x).value;
        TailIds(pending, r);
      }
      hide DistinctPending;
      var later := Sessions(pending[1..], session);
      assert Among(x, [pending[0].id] + later) <==> x == pending[0].id || Among(x, later);
      assert [] + later == later;
    }
  }

  /** A session cancel closes exactly the requests of its session; each that stays stored is stored as canceled. */
  lemma CancelCloses(s: State, session: string, revision: int, x: Id)
    requires BrokerInvariant(s.broker)
    ensures var after := Step(s, CancelForSession(session, revision)).broker; var open := Open(s.broker.pending, x);
            if open.Some? && open.value.session == session
            then
              && Open(after.pending, x) == None
              && (Remembered(after.results, x).Some? ==>
                    Remembered(after.results, x).value == ApprovalResult(x, Canceled, None, false, revision))
            else Open(after.pending, x) == open
  {
    var ids := Sessions(s.broker.pending, session);
    SessionsAre(s.broker.pending, session, x);
    SettleAllCloses(s.broker, ids, revision, x);
    hide Sessions, SettleAll, Remembered, Open, BrokerInvariant;
    if Among(x, ids) {
      var k :| 0 <= k < |ids| && ids[k] == x;
      SettleAllStores(s.broker, ids, revision, k);
    }
  }

  /** A resolve that finds a stored result never reaches the host. */
  lemma StoredResultNeverExecutes(s: State, call: CallId, response: Response, revision: int, now: int, e: Event)
    requires call !in s.calls && Remembered(s.broker.results, response.approvalId).Some?
    ensures var after := Step(s, Resolve(call, response, revision, now));
            && after.host == s.host
            && (e == HostHandles(call, now) || e == Resume(call) || e == LoseAnswer(call) ==> Step(after, e) == after)
  {
    hide HostResolve, Remembered;
  }

  lemma RunSnoc(events: seq<Event>, e: Event)
    ensures Run(events + [e]) == Step(Run(events), e)
  {
    hide Step;
    assert (events + [e])[..|events|] == events;
  }

  lemma OfferedAndSuspended(id: Id, response: Response)
    requires response == Response(id, None, AllowOnce)
    ensures Run([Create(id, Waiting(0, "s", "t")), Offer(Request(id, "s", 0, 10, true)), Resolve(0, response, 1, 1)]) ==
            State(Host(map[id := Waiting(0, "s", "t")], map[]), Broker([Request(id, "s", 0, 10, true)], []),
                  map[0 := Call(response, 1, Suspended)], {id})
  {
    var request, host := Request(id, "s", 0, 10, true), Host(map[id := Waiting(0, "s", "t")], map[]);
    var create, offer, resolve := Create(id, Waiting(0, "s", "t")), Offer(request), Resolve(0, response, 1, 1);
    RunSnoc([], create);
    RunSnoc([create], offer);
    RunSnoc([create, offer], resolve);
    assert [] + [create] == [create] && [create] + [offer] == [create, offer] && [create, offer] + [resolve] == [create, offer, resolve];
    assert Run([]) == START;
    hide Run;
    assert Step(START, create) == State(host, Broker([], []), map[], {id});
    assert [] + [request] == [request];
    assert FromToolPermission(Broker([], []), request).0 == Broker([request], []);
    assert Begin(Broker([request], []), response, 1, 1) == (Broker([request], []), Asking);
  }

  lemma OfferedThenSettled(request: Request, stored: ApprovalResult)
    requires stored.approvalId == request.id
    ensures FromToolPermission(Broker([], []), request).0 == Broker([request], [])
    ensures Settle(Broker([request], []), stored) == Broker([], [stored])
    ensures Remembered([stored], request.id).Some?
  {
    assert [] + [request] == [request];
    assert [request][1..] == [];
    assert Closed([request], stored.approvalId) == [];
  }

  lemma BrokerSteps(s: State, request: Request, result: ApprovalResult)
    ensures Step(s, Offer(request)).broker == FromToolPermission(s.broker, request).0
    ensures Step(s, SettleCard(result)).broker == Settle(s.broker, result.(alreadyResolved := false))
  {
    hide FromToolPermission, Settle;
  }

  lemma NothingYet()
    ensures Run([]).broker == Broker([], [])
  {}

  lemma NothingPending(results: seq<ApprovalResult>)
    ensures Apart(Broker([], results))
  {}

  /** A request that is offered, settled and, by a stale sync, offered again is in both maps. */
  lemma OfferAgainOverlaps(request: Request, result: ApprovalResult)
    requires result.approvalId == request.id
    ensures !Apart(Run([Offer(request), SettleCard(result), Offer(request)]).broker)
  {
    hide *;
    var offer, settle, stored := Offer(request), SettleCard(result), result.(alreadyResolved := false);
    var first, second := [offer], [offer, settle];
    assert [] + [offer] == first && first + [settle] == second && second + [offer] == [offer, settle, offer];
    RunSnoc([], offer);
    RunSnoc(first, settle);
    RunSnoc(second, offer);
    NothingYet();
    BrokerSteps(Run([]), request, result);
    BrokerSteps(Run(first), request, result);
    BrokerSteps(Run(second), request, result);
    OfferedThenSettled(request, stored);
    NothingPending([stored]);
    OfferOverlapsIff(Broker([], [stored]), request);
  }

  lemma CancelSettles(id: Id)
    ensures var b := Broker([Request(id, "s", 0, 10, true)], []);
            SettleAll(b, Sessions(b.pending, "s"), 2) == Broker([], [ApprovalResult(id, Canceled, None, false, 2)])
  {
    var pending := [Request(id, "s", 0, 10, true)];
    assert pending[1..] == [];
    assert Sessions(pending, "s") == [id];
    assert [id][1..] == [];
    assert Closed(pending, id) == [];
  }

  /** A session cancel while a resolve is suspended: the second client reads canceled, the waiter was allowed. */
  lemma CancelDuringAwait(id: Id)
    ensures var response := Response(id, None, AllowOnce);
            var end := Run([Create(id, Waiting(0, "s", "t")), Offer(Request(id, "s", 0, 10, true)), Resolve(0, response, 1, 1)]
                           + [CancelForSession("s", 2)] + [Resolve(1, response, 3, 2)] + [HostHandles(0, 3)]);
            && 1 in end.calls && end.calls[1].phase == Succeeded(ApprovalResult(id, Canceled, None, true, 2))
            && end.host.SentTo(id) == [AllowOnce]
  {
    var response := Response(id, None, AllowOnce);
    var e := [Create(id, Waiting(0, "s", "t")), Offer(Request(id, "s", 0, 10, true)), Resolve(0, response, 1, 1)];
    OfferedAndSuspended(id, response);
    CancelSettles(id);
    RunSnoc(e, CancelForSession("s", 2));
    RunSnoc(e + [CancelForSession("s", 2)], Resolve(1, response, 3, 2));
    RunSnoc(e + [CancelForSession("s", 2)] + [Resolve(1, response, 3, 2)], HostHandles(0, 3));
    hide Run, SettleAll, Sessions, Settle;
  }

  lemma SettleIs(b: Broker, r: ApprovalResult, after: Broker)
    requires after == Broker(Closed(b.pending, r.approvalId), Newest(Record(b.results, r)))
    ensures after == Settle(b, r)
  {}

  class ApprovalBroker {
    var pending: seq<Request>
    var results: seq<ApprovalResult>

    ghost function Now(): Broker
      reads this
    {
      Broker(pending, results)
    }

    ghost predicate Valid()
      reads this
    {
      BrokerInvariant(Now())
    }

    constructor ()
      ensures Valid() && Now() == Broker([], [])
    {
      pending, results := [], [];
    }

    method Register(request: Request) returns (approval: Request)
      requires Valid()
      modifies this`pending
      ensures Valid() && (Now(), approval) == FromToolPermission(old(Now()), request)
    {
      var existing := Open(pending, request.id);
      if existing.Some? { return existing.value; }
      forall i, j | 0 <= i < j < |pending + [request]|
        ensures (pending + [request])[i].id != (pending + [request])[j].id
      {
        assert pending[i] in pending;
      }
      pending := pending + [request];
      approval := request;
    }

    /** Drops the oldest while there are too many. */
    static method Evict(all: seq<ApprovalResult>) returns (kept: seq<ApprovalResult>)
      ensures kept == Newest(all)
    {
      kept := all;
      while |kept| > MAX_REMEMBERED_RESULTS
        invariant |kept| <= |all| && kept == all[|all| - |kept|..]
        invariant |all| > MAX_REMEMBERED_RESULTS ==> |kept| >= MAX_REMEMBERED_RESULTS
        invariant |all| <= MAX_REMEMBERED_RESULTS ==> kept == all
      {
        kept := kept[1..];
      }
    }

    /** Delete, record, and evict. */
    method SettleOutcome(result: ApprovalResult)
      requires Valid()
      modifies this
      ensures Valid() && Now() == Settle(old(Now()), result)
      ensures Remembered(results, result.approvalId) == Some(result)
    {
      ghost var before := Now();
      SettleRemembers(before, result);
      hide *;
      pending := Closed(pending, result.approvalId);
      results := Record(results, result);
      results := Evict(results);
      SettleIs(before, result, Broker(pending, results));
      NowIs();
    }

    lemma NowIs()
      ensures Now() == Broker(pending, results) && (Valid() <==> BrokerInvariant(Now()))
    {}

    method BeginResolve(response: Response, revision: int, now: int) returns (begun: Begun)
      requires Valid()
      modifies this
      ensures Valid() && (Now(), begun) == Begin(old(Now()), response, revision, now)
    {
      hide BrokerInvariant, Remembered, Open, Settle;
      var remembered := Remembered(results, response.approvalId);
      if remembered.Some? { return Told(remembered.value.(alreadyResolved := true)); }
      var entry := Open(pending, response.approvalId);
      if entry.None? { return Refused(NotOpen); }
      if entry.value.expiresAt <= now {
        SettleOutcome(ApprovalResult(response.approvalId, Expired, None, false, revision));
        return Refused(ApprovalExpired);
      }
      if response.expectedRevision.Some? && response.expectedRevision.value != entry.value.revision {
        return Refused(ApprovalStale);
      }
      if response.decision.AllowSession? && !entry.value.allowSession { return Refused(InvalidArgument); }
      begun := Asking;
    }

    method CancelSession(session: string, revision: int)
      requires Valid()
      modifies this
      ensures Valid() && Now() == SettleAll(old(Now()), Sessions(old(pending), session), revision)
    {
      hide BrokerInvariant, Settle, Sessions;
      var ids := Sessions(pending, session);
      ghost var before := Now();
      for k := 0 to |ids|
        invariant Valid()
        invariant SettleAll(Now(), ids[k..], revision) == SettleAll(before, ids, revision)
      {
        assert ids[k..][0] == ids[k] && ids[k..][1..] == ids[k + 1..];
        SettleOutcome(ApprovalResult(ids[k], Canceled, None, false, revision));
      }
    }
  }

  class PermissionManager {
    var pending: map<Id, Waiting>
    ghost var sent: map<Id, seq<Decision>>

    ghost function Now(): Host
      reads this
    {
      Host(pending, sent)
    }

    constructor ()
      ensures Now() == START.host
    {
      pending, sent := map[], map[];
    }

    method CreateRequest(id: Id, session: string, toolCall: string, now: int)
      modifies this
      ensures Now() == old(Now()).(pending := old(pending)[id := Waiting(now, session, toolCall)])
    {
      pending := pending[id := Waiting(now, session, toolCall)];
    }

    method Send(id: Id, d: Decision)
      modifies this`pending, this`sent
      ensures Now() == old(Now()).Answer(id, d)
    {
      pending := pending - {id};
      sent := sent[id := Now().SentTo(id) + [d]];
    }

    method ResolveRequest(id: Id, d: Decision, now: int) returns (error: Option<HostError>)
      modifies this
      ensures (Now(), error) == HostResolve(old(Now()), id, d, now)
    {
      if id !in pending { return Some(NotFound); }
      if now - pending[id].createdAt > PERMISSION_TIMEOUT_MS {
        Send(id, Deny);
        return Some(PermissionTimeout);
      }
      Send(id, d);
      error := None;
    }

    method CancelRequest(id: Id) returns (found: bool)
      modifies this
      ensures (Now(), found) == HostCancel(old(Now()), id) && (found <==> id in old(pending))
    {
      found := id in pending;
      if found { Send(id, Deny); }
    }

    method ExpireRequests(now: int)
      modifies this
      ensures Now() == HostExpire(old(Now()), now)
    {
      ghost var before := Now();
      var stale := set id | id in pending && now - pending[id].createdAt > PERMISSION_TIMEOUT_MS;
      assert stale == StaleIds(before, now);
      ghost var done: set<Id> := {};
      DenyNone(before);
      hide DenyAll, StaleIds;
      while stale != {}
        invariant done !! stale && done + stale == StaleIds(before, now)
        invariant Now() == DenyAll(before, done)
        decreases stale
      {
        var id :| id in stale;
        Send(id, Deny);
        DenyOneMore(before, done, id);
        stale := stale - {id};
        done := done + {id};
      }
      assert done == StaleIds(before, now);
    }
  }
}
