/**
 * Stopping a Bash call: an abort signals the running process, or leaves a
 * tombstone for a call that has not been registered yet
 * (crates/host-core/src/state.rs). Times are in milliseconds of one clock.
 */
module BashAborts {
  import opened Sets

  const BASH_ABORT_TOMBSTONE_TTL: int := 60000
  const MAX_BASH_ABORT_TOMBSTONES: nat := 1024

  type Key = (string, string)

  /** A watch channel: its value, and whether somebody still listens. */
  datatype Channel = Channel(aborted: bool, open: bool)

  datatype State = State(shuttingDown: bool, active: map<Key, Channel>, tombs: map<Key, int>)

  const START := State(false, map[], map[])

  datatype Op =
    | Register(key: Key, now: int)
    | Abort(key: Key, now: int)
    | Clear(key: Key)
    | Shutdown
    | Close(key: Key)

  /** Stopped holds the channels of the executions that ran until the shutdown, as it leaves them. */
  datatype Reply =
    | Registered(aborted: bool)
    | HostShuttingDown
    | ToolBusy
    | Aborted(active: bool, queued: bool)
    | Stopped(told: map<Key, Channel>)
    | NoReply

  function Fresh(tombs: map<Key, int>, now: int): map<Key, int> {
    map k | k in tombs && now - tombs[k] < BASH_ABORT_TOMBSTONE_TTL :: tombs[k]
  }

  /** Some keys of the map are left, with their values, and none that is newer was dropped instead. */
  ghost predicate KeepsNewest(tombs: map<Key, int>, kept: map<Key, int>) {
    && kept.Keys <= tombs.Keys
    && (forall k :: k in kept ==> kept[k] == tombs[k])
    && (forall k, gone :: k in kept && gone in tombs && gone !in kept ==> tombs[gone] <= kept[k])
  }

  /** What pruning may leave: the oldest go first, but which of equally old ones is open. */
  ghost predicate Pruned(tombs: map<Key, int>, now: int, kept: map<Key, int>) {
    var live := Fresh(tombs, now);
    && KeepsNewest(live, kept)
    && |kept| == if |live| <= MAX_BASH_ABORT_TOMBSTONES then |live| else MAX_BASH_ABORT_TOMBSTONES
  }

  /** send(true): without a listener the value stays as it is. */
  function Sent(c: Channel): Channel {
    if c.open then Channel(true, true) else c
  }

  function SentToAll(active: map<Key, Channel>): map<Key, Channel> {
    map k | k in active :: Sent(active[k])
  }

  /** One operation, given what its pruning left. */
  function After(s: State, op: Op, kept: map<Key, int>): (State, Reply) {
    match op
    case Register(key, _) =>
      if s.shuttingDown then (s, HostShuttingDown)
      else if key in s.active then (s.(tombs := kept), ToolBusy)
      else (s.(active := s.active[key := Channel(key in kept, true)], tombs := kept - {key}), Registered(key in kept))
    case Abort(key, now) =>
      if key in s.active && s.active[key].open
      then (s.(active := s.active[key := Channel(true, true)], tombs := kept), Aborted(true, false))
      else (s.(tombs := kept[key := now]), Aborted(false, true))
    case Clear(key) => (s.(active := s.active - {key}, tombs := s.tombs - {key}), NoReply)
    case Shutdown => (State(true, map[], map[]), Stopped(SentToAll(s.active)))
    case Close(key) =>
      (if key in s.active then s.(active := s.active[key := s.active[key].(open := false)]) else s, NoReply)
  }

  predicate Prunes(s: State, op: Op) {
    (op.Register? && !s.shuttingDown) || op.Abort?
  }

  /** An operation that happened: what its pruning kept, and where it led. */
  datatype Step = Step(op: Op, kept: map<Key, int>, after: State, reply: Reply)

  ghost predicate Happens(s: State, step: Step) {
    && (step.after, step.reply) == After(s, step.op, step.kept)
    && (Prunes(s, step.op) ==> Pruned(s.tombs, step.op.now, step.kept))
  }

  ghost predicate IsRun(s: State, steps: seq<Step>)
    decreases |steps|
  {
    steps == [] || (Happens(s, steps[0]) && IsRun(steps[0].after, steps[1..]))
  }

  function Last(s: State, steps: seq<Step>): State
    decreases |steps|
  {
    if steps == [] then s else Last(steps[0].after, steps[1..])
  }

  // ----- what every run keeps -----

  predicate AllOpen(s: State) {
    forall k :: k in s.active ==> s.active[k].open
  }

  predicate Disjoint(s: State) {
    forall k :: k in s.active ==> k !in s.tombs
  }

  predicate Bounded(s: State) {
    |s.tombs| <= MAX_BASH_ABORT_TOMBSTONES + 1
  }

  lemma RemoveSize(m: map<Key, int>, key: Key)
    ensures |m - {key}| <= |m|
  {
    assert (m - {key}).Keys == m.Keys - {key};
    assert key in m ==> m.Keys == (m.Keys - {key}) + {key};
    assert key !in m ==> m.Keys == m.Keys - {key};
  }

  lemma InsertSize(m: map<Key, int>, key: Key, value: int)
    ensures |m[key := value]| <= |m| + 1
  {
    assert m[key := value].Keys == m.Keys + {key};
  }

  lemma PrunedSize(tombs: map<Key, int>, now: int, kept: map<Key, int>)
    requires Pruned(tombs, now, kept)
    ensures |kept| <= MAX_BASH_ABORT_TOMBSTONES
  {
    hide KeepsNewest, Fresh;
  }

  lemma StepBounded(s: State, step: Step)
    requires Bounded(s) && Happens(s, step)
    ensures Bounded(step.after)
  {
    if Prunes(s, step.op) { PrunedSize(s.tombs, step.op.now, step.kept); }
    hide Pruned;
    match step.op {
      case Register(key, now) => RemoveSize(step.kept, key);
      case Abort(key, now) => InsertSize(step.kept, key, now);
      case Clear(key) => RemoveSize(s.tombs, key);
      case _ =>
    }
  }

  /** A key is both active and a tombstone only after an abort that found nobody listening. */
  lemma StepDisjoint(s: State, step: Step)
    requires Disjoint(s) && Happens(s, step)
    ensures Disjoint(step.after) <==>
            !(step.op.Abort? && step.op.key in s.active && !s.active[step.op.key].open)
  {
    if step.op.Abort? && step.op.key in s.active && !s.active[step.op.key].open {
      assert step.op.key in step.after.active && step.op.key in step.after.tombs;
    }
  }

  lemma {:induction false} BoundedOnly(s: State, steps: seq<Step>)
    requires IsRun(s, steps) && Bounded(s)
    ensures Bounded(Last(s, steps))
    decreases |steps|
  {
    hide Happens, Bounded;
    if steps != [] {
      StepBounded(s, steps[0]);
      BoundedOnly(steps[0].after, steps[1..]);
    }
  }

  lemma StepOpen(s: State, step: Step)
    requires AllOpen(s) && Happens(s, step) && !step.op.Close?
    ensures AllOpen(step.after)
  {
    hide Pruned;
  }

  lemma NothingPruned(now: int)
    ensures Pruned(map[], now, map[])
  {
    assert Fresh(map[], now) == map[];
  }

  lemma RunCons(s: State, step: Step, rest: seq<Step>)
    requires Happens(s, step) && IsRun(step.after, rest)
    ensures IsRun(s, [step] + rest) && Last(s, [step] + rest) == Last(step.after, rest)
  {
    hide Happens;
    assert ([step] + rest)[1..] == rest;
  }

  /** An execution whose listener is gone before it is cleared, and an abort: its key is in both maps. */
  lemma SharedKeyArises(key: Key) returns (steps: seq<Step>)
    ensures IsRun(START, steps) && key in Last(START, steps).active && key in Last(START, steps).tombs
  {
    var none: map<Key, int> := map[];
    NothingPruned(0);
    assert none - {key} == none;
    var running, gone := State(false, map[key := Channel(false, true)], none), State(false, map[key := Channel(false, false)], none);
    var register := Step(Register(key, 0), none, running, Registered(false));
    var close := Step(Close(key), none, gone, NoReply);
    var abort := Step(Abort(key, 0), none, gone.(tombs := map[key := 0]), Aborted(false, true));
    assert Happens(START, register);
    assert running.active[key := Channel(false, false)] == gone.active;
    assert Happens(running, close);
    assert Happens(gone, abort);
    hide Happens;
    RunCons(gone, abort, []);
    RunCons(running, close, [abort] + []);
    RunCons(START, register, [close] + ([abort] + []));
    steps := [register] + ([close] + ([abort] + []));
  }

  /** In every run tombstones never exceed 1025, and while listeners live no key is in both maps. */
  lemma {:induction false} EveryRunKeeps(s: State, steps: seq<Step>)
    requires IsRun(s, steps) && Bounded(s) && Disjoint(s)
    ensures Bounded(Last(s, steps))
    ensures AllOpen(s) && (forall k :: 0 <= k < |steps| ==> !steps[k].op.Close?) ==> Disjoint(Last(s, steps)) && AllOpen(Last(s, steps))
    decreases |steps|
  {
    hide Happens, Bounded, Disjoint;
    if steps != [] {
      StepBounded(s, steps[0]);
      if AllOpen(s) && forall k :: 0 <= k < |steps| ==> !steps[k].op.Close? {
        assert !steps[0].op.Close?;
        StepDisjoint(s, steps[0]);
        StepOpen(s, steps[0]);
        assert forall k :: 0 <= k < |steps[1..]| ==> steps[1..][k] == steps[k + 1];
        EveryRunKeeps(steps[0].after, steps[1..]);
      } else {
        BoundedOnly(steps[0].after, steps[1..]);
      }
    }
  }

  // ----- an abort is not lost -----

  /** The abort of this time, or a later one, is remembered for the key. */
  predicate Remembered(s: State, key: Key, since: int) {
    key in s.tombs && s.tombs[key] >= since
  }

  predicate Signalled(s: State, key: Key) {
    key in s.active && s.active[key].aborted
  }

  /** Pruning dropped the key, though fresh, because 1024 others are no older. */
  ghost predicate Evicted(s: State, step: Step, key: Key) {
    && key in s.tombs && key !in step.kept
    && |step.kept| >= MAX_BASH_ABORT_TOMBSTONES
    && forall k :: k in step.kept ==> k in s.tombs && s.tombs[k] >= s.tombs[key]
  }

  predicate InTime(op: Op, since: int) {
    (op.Register? || op.Abort?) ==> op.now - since < BASH_ABORT_TOMBSTONE_TTL
  }

  /** The operations that end an abort on purpose. */
  predicate Ends(op: Op, key: Key) {
    op.Shutdown? || (op.Clear? && op.key == key)
  }

  lemma SameKeys(tombs: map<Key, int>, kept: map<Key, int>)
    requires KeepsNewest(tombs, kept) && |kept| == |tombs|
    ensures kept.Keys == tombs.Keys
  {
    assert tombs.Keys == kept.Keys + (tombs.Keys - kept.Keys);
    assert |tombs.Keys - kept.Keys| == 0;
  }

  lemma PruneKeeps(s: State, step: Step, key: Key, since: int)
    requires (step.op.Register? || step.op.Abort?) && Pruned(s.tombs, step.op.now, step.kept)
    requires Remembered(s, key, since) && InTime(step.op, since)
    ensures (key in step.kept && step.kept[key] >= since) || Evicted(s, step, key)
  {
    var live := Fresh(s.tombs, step.op.now);
    assert key in live;
    if |live| <= MAX_BASH_ABORT_TOMBSTONES { SameKeys(live, step.kept); }
  }

  /** One step keeps a remembered abort, delivers it, or evicts it. */
  lemma StepRemembers(s: State, step: Step, key: Key, since: int)
    requires Happens(s, step) && Remembered(s, key, since) && key !in s.active && !s.shuttingDown
    requires InTime(step.op, since) && !Ends(step.op, key) && (step.op.Abort? ==> step.op.now >= since)
    ensures Evicted(s, step, key)
         || (step.op.Register? && step.op.key == key && step.reply == Registered(true) && Signalled(step.after, key))
         || (!(step.op.Register? && step.op.key == key) && Remembered(step.after, key, since)
             && key !in step.after.active && !step.after.shuttingDown)
  {
    hide Evicted, Pruned;
    if Prunes(s, step.op) { PruneKeeps(s, step, key, since); }
  }

  ghost predicate SomeEviction(s: State, steps: seq<Step>, key: Key)
    decreases |steps|
  {
    steps != [] && (Evicted(s, steps[0], key) || SomeEviction(steps[0].after, steps[1..], key))
  }

  predicate AllInTime(steps: seq<Step>, key: Key, since: int) {
    forall k :: 0 <= k < |steps| ==>
      InTime(steps[k].op, since) && !Ends(steps[k].op, key) && (steps[k].op.Abort? ==> steps[k].op.now >= since)
  }

  predicate NoRegister(steps: seq<Step>, key: Key) {
    forall k :: 0 <= k < |steps| ==> !(steps[k].op.Register? && steps[k].op.key == key)
  }

  /**
   * An abort is never lost. If nobody listens for the key yet, then for every
   * continuation in which the key is neither cleared nor the host shut down,
   * the next registration of the key within 60 seconds starts cancelled,
   * unless some pruning evicted the tombstone while 1024 no older ones were kept.
   */
  lemma {:induction false} AbortIsNotLost(s: State, steps: seq<Step>, last: Step, key: Key, since: int)
    requires IsRun(s, steps + [last]) && Remembered(s, key, since) && key !in s.active && !s.shuttingDown
    requires AllInTime(steps + [last], key, since) && NoRegister(steps, key)
    requires last.op.Register? && last.op.key == key
    ensures SomeEviction(s, steps + [last], key) || (last.reply == Registered(true) && Signalled(last.after, key))
    decreases |steps|
  {
    hide Happens, Remembered, Evicted, Signalled, InTime, Ends;
    var all := steps + [last];
    assert all[0] == if steps == [] then last else steps[0];
    StepRemembers(s, all[0], key, since);
    if steps != [] && !Evicted(s, all[0], key) {
      assert all[1..] == steps[1..] + [last];
      assert forall k :: 0 <= k < |all[1..]| ==> all[1..][k] == all[k + 1];
      assert forall k :: 0 <= k < |steps[1..]| ==> steps[1..][k] == steps[k + 1];
      AbortIsNotLost(all[0].after, steps[1..], last, key, since);
    }
  }

  /** The abort itself: the process is told, or the abort is remembered from now on. */
  lemma AbortTakesEffect(s: State, step: Step)
    requires Happens(s, step) && step.op.Abort? && AllOpen(s)
    ensures step.op.key in s.active ==> step.reply == Aborted(true, false) && Signalled(step.after, step.op.key)
    ensures step.op.key !in s.active ==>
              step.reply == Aborted(false, true) && Remembered(step.after, step.op.key, step.op.now)
              && step.op.key !in step.after.active
  {}

  /** Every registration: refused, busy, or running from the start with whether its abort came first. */
  lemma RegisterReplies(s: State, step: Step)
    requires Happens(s, step) && step.op.Register?
    ensures var key, c := step.op.key, Channel(step.reply == Registered(true), true);
            && (step.reply == HostShuttingDown <==> s.shuttingDown)
            && (step.reply == ToolBusy <==> !s.shuttingDown && key in s.active)
            && (step.reply == Registered(true) <==> !s.shuttingDown && key !in s.active && key in step.kept)
            && (step.reply == Registered(false) <==> !s.shuttingDown && key !in s.active && key !in step.kept)
            && (step.reply.Registered? <==> step.after.active == s.active[key := c] && key !in s.active && !s.shuttingDown)
            && (step.reply.Registered? ==> step.after.tombs == step.kept - {key})
            && (!step.reply.Registered? ==> step.after.active == s.active)
            && (step.reply == HostShuttingDown ==> step.after == s)
  {
    hide Pruned;
  }

  /** A tombstone survives a pruning exactly if it is young, unless 1024 others no older crowd it out. */
  lemma KeptIff(tombs: map<Key, int>, now: int, kept: map<Key, int>, key: Key)
    requires Pruned(tombs, now, kept) && key in tombs
    ensures key in kept ==> now < tombs[key] + BASH_ABORT_TOMBSTONE_TTL && kept[key] == tombs[key]
    ensures key !in kept && now < tombs[key] + BASH_ABORT_TOMBSTONE_TTL ==>
              |kept| == MAX_BASH_ABORT_TOMBSTONES && forall k :: k in kept ==> kept[k] >= tombs[key]
  {
    var live := Fresh(tombs, now);
    if key !in kept && key in live {
      if |live| <= MAX_BASH_ABORT_TOMBSTONES {
        assert kept.Keys <= live.Keys - {key};
        SubsetSize(kept.Keys, live.Keys - {key});
      }
    }
  }

  /** Every abort: it signals a listener, or is remembered from now on. */
  lemma AbortReplies(s: State, step: Step)
    requires Happens(s, step) && step.op.Abort?
    ensures var key := step.op.key; var listens := key in s.active && s.active[key].open;
            && step.reply == Aborted(listens, !listens)
            && (if listens then step.after.active == s.active[key := Channel(true, true)] && step.after.tombs == step.kept
                else step.after.active == s.active && step.after.tombs == step.kept[key := step.op.now])
            && step.after.shuttingDown == s.shuttingDown
  {
    hide Pruned;
  }

  /** A signal once given stays until the execution ends. */
  lemma SignalStays(s: State, step: Step, key: Key)
    requires Happens(s, step) && Signalled(s, key) && !Ends(step.op, key)
    ensures Signalled(step.after, key)
  {}

  /** A shutdown tells every execution that still listens, leaves nothing behind, and lets nothing start. */
  lemma ShutdownTellsAll(s: State, step: Step, key: Key, now: int)
    requires Happens(s, step) && step.op.Shutdown?
    ensures step.reply.Stopped? && step.reply.told.Keys == s.active.Keys
    ensures key in s.active && s.active[key].open ==> step.reply.told[key] == Channel(true, true)
    ensures key in s.active && !s.active[key].open ==> step.reply.told[key] == s.active[key]
    ensures step.after.active == map[] && step.after.tombs == map[]
    ensures forall next :: Happens(step.after, next) && next.op == Register(key, now) ==> next.reply == HostShuttingDown
  {}

  lemma SizeWithout(m: map<Key, int>, key: Key)
    requires key in m
    ensures |m - {key}| == |m| - 1
  {
    assert (m - {key}).Keys == m.Keys - {key};
  }

  class Aborts {
    var shuttingDown: bool
    var active: map<Key, Channel>
    var tombs: map<Key, int>

    ghost function Now(): State
      reads this
    {
      State(shuttingDown, active, tombs)
    }

    constructor ()
      ensures Now() == START
    {
      shuttingDown, active, tombs := false, map[], map[];
    }

    static method Oldest(m: map<Key, int>) returns (oldest: Key)
      requires |m| > 0
      ensures oldest in m && forall k :: k in m ==> m[oldest] <= m[k]
    {
      oldest :| oldest in m;
      var rest := m.Keys;
      while rest != {}
        invariant rest <= m.Keys && oldest in m
        invariant forall k :: k in m && k !in rest ==> m[oldest] <= m[k]
        decreases rest
      {
        var k :| k in rest;
        if m[k] < m[oldest] { oldest := k; }
        rest := rest - {k};
      }
    }

    method Prune(now: int)
      modifies this`tombs
      ensures Pruned(old(tombs), now, tombs)
    {
      ghost var live := Fresh(tombs, now);
      tombs := map k | k in tombs && now - tombs[k] < BASH_ABORT_TOMBSTONE_TTL :: tombs[k];
      assert tombs == live;
      while |tombs| > MAX_BASH_ABORT_TOMBSTONES
        invariant KeepsNewest(live, tombs)
        invariant tombs == live || MAX_BASH_ABORT_TOMBSTONES <= |tombs| <= |live|
        decreases |tombs|
      {
        var oldest := Oldest(tombs);
        SizeWithout(tombs, oldest);
        tombs := tombs - {oldest};
      }
    }

    method RegisterBash(key: Key, now: int) returns (reply: Reply, ghost kept: map<Key, int>)
      modifies this
      ensures Happens(old(Now()), Step(Register(key, now), kept, Now(), reply))
    {
      kept := tombs;
      if shuttingDown { return HostShuttingDown, kept; }
      hide Pruned;
      Prune(now);
      kept := tombs;
      if key in active { return ToolBusy, kept; }
      var initiallyAborted := key in tombs;
      tombs := tombs - {key};
      active := active[key := Channel(initiallyAborted, true)];
      reply := Registered(initiallyAborted);
    }

    method AbortOrQueue(key: Key, now: int) returns (isActive: bool, queued: bool, ghost kept: map<Key, int>)
      modifies this
      ensures Happens(old(Now()), Step(Abort(key, now), kept, Now(), Aborted(isActive, queued)))
    {
      hide Pruned;
      Prune(now);
      kept := tombs;
      isActive := key in active && active[key].open;
      if isActive {
        active := active[key := Channel(true, true)];
      } else {
        tombs := tombs[key := now];
      }
      queued := !isActive;
    }

    method ClearBash(key: Key)
      modifies this
      ensures Now() == After(old(Now()), Clear(key), map[]).0
    {
      active := active - {key};
      tombs := tombs - {key};
    }

    method ShutDown() returns (told: map<Key, Channel>)
      modifies this
      ensures (Now(), Stopped(told)) == After(old(Now()), Shutdown, map[])
    {
      shuttingDown := true;
      told := active;
      var rest := active.Keys;
      while rest != {}
        invariant rest <= active.Keys && told.Keys == active.Keys && active == old(active) && shuttingDown
        invariant forall k :: k in active ==> told[k] == if k in rest then active[k] else Sent(active[k])
        decreases rest
      {
        var k :| k in rest;
        told := told[k := Sent(told[k])];
        rest := rest - {k};
      }
      assert told == SentToAll(active);
      active := map[];
      tombs := map[];
    }
  }
}
