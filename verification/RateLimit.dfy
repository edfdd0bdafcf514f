/**
 * The sliding-window brakes on plugin calls: one list of accepted instants per
 * plugin and kind of call (crates/host-core/src/state.rs). Times are in
 * milliseconds of one clock that never goes back.
 */
module RateLimit {
  const PLUGIN_IMPORT_RATE_WINDOW: int := 60000
  const PLUGIN_IMPORT_RATE_LIMIT: nat := 10
  const PLUGIN_BATCH_IMPORT_RATE_LIMIT: nat := 5
  const PLUGIN_DELETE_RATE_LIMIT: nat := 20

  type Rates = map<string, seq<int>>

  datatype Kind = Import | BatchImport | Delete

  datatype Call = Call(kind: Kind, plugin: string, now: int)

  function Limit(kind: Kind): nat {
    match kind
    case Import => PLUGIN_IMPORT_RATE_LIMIT
    case BatchImport => PLUGIN_BATCH_IMPORT_RATE_LIMIT
    case Delete => PLUGIN_DELETE_RATE_LIMIT
  }

  /** What retain keeps. */
  function Recent(entries: seq<int>, now: int): seq<int> {
    if entries == [] then []
    else
      var last := entries[|entries| - 1];
      Recent(entries[..|entries| - 1], now) + (if now - last < PLUGIN_IMPORT_RATE_WINDOW then [last] else [])
  }

  function EntriesOf(rates: Rates, plugin: string): seq<int> {
    if plugin in rates then rates[plugin] else []
  }

  function Allow(rates: Rates, plugin: string, limit: nat, now: int): (Rates, bool) {
    var entries := Recent(EntriesOf(rates, plugin), now);
    if |entries| >= limit then (rates[plugin := entries], false)
    else (rates[plugin := entries + [now]], true)
  }

  /** The three lists of the host. */
  datatype State = State(imports: Rates, batchImports: Rates, deletes: Rates) {
    function Of(kind: Kind): Rates {
      match kind
      case Import => imports
      case BatchImport => batchImports
      case Delete => deletes
    }

    function With(kind: Kind, rates: Rates): State {
      match kind
      case Import => this.(imports := rates)
      case BatchImport => this.(batchImports := rates)
      case Delete => this.(deletes := rates)
    }
  }

  function Step(s: State, c: Call): (State, bool) {
    var (rates, ok) := Allow(s.Of(c.kind), c.plugin, Limit(c.kind), c.now);
    (s.With(c.kind, rates), ok)
  }

  function Run(calls: seq<Call>): State {
    if calls == [] then State(map[], map[], map[])
    else Step(Run(calls[..|calls| - 1]), calls[|calls| - 1]).0
  }

  /** The instants at which calls of one kind and plugin were accepted. */
  function Accepted(calls: seq<Call>, kind: Kind, plugin: string): seq<int> {
    if calls == [] then []
    else
      var front, last := calls[..|calls| - 1], calls[|calls| - 1];
      Accepted(front, kind, plugin) +
      (if last.kind == kind && last.plugin == plugin && Step(Run(front), last).1 then [last.now] else [])
  }

  predicate Monotone(calls: seq<Call>) {
    forall i, j :: 0 <= i < j < |calls| ==> calls[i].now <= calls[j].now
  }

  /** The instants in the window that ends at time t. */
  function Window(accepted: seq<int>, t: int): seq<int> {
    if accepted == [] then []
    else
      var last := accepted[|accepted| - 1];
      Window(accepted[..|accepted| - 1], t) + (if t - PLUGIN_IMPORT_RATE_WINDOW < last <= t then [last] else [])
  }

  lemma {:induction false} RecentIsWindow(accepted: seq<int>, now: int)
    requires forall k :: 0 <= k < |accepted| ==> accepted[k] <= now
    ensures Recent(accepted, now) == Window(accepted, now)
  {
    if accepted != [] { RecentIsWindow(accepted[..|accepted| - 1], now); }
  }

  lemma RecentSnoc(entries: seq<int>, at: int, now: int)
    ensures Recent(entries + [at], now) == Recent(entries, now) + (if now - at < PLUGIN_IMPORT_RATE_WINDOW then [at] else [])
  {
    assert (entries + [at])[..|entries|] == entries;
  }

  /** What an earlier retain dropped, a later one would drop too. */
  lemma {:induction false} RecentTwice(entries: seq<int>, earlier: int, now: int)
    requires earlier <= now
    ensures Recent(Recent(entries, earlier), now) == Recent(entries, now)
  {
    if entries != [] {
      var front, last := entries[..|entries| - 1], entries[|entries| - 1];
      RecentTwice(front, earlier, now);
      if earlier - last < PLUGIN_IMPORT_RATE_WINDOW {
        RecentSnoc(Recent(front, earlier), last, now);
      } else {
        assert Recent(front, earlier) + [] == Recent(front, earlier);
      }
    }
  }

  lemma WindowSnoc(accepted: seq<int>, at: int, t: int)
    ensures Window(accepted + [at], t) == Window(accepted, t) + (if t - PLUGIN_IMPORT_RATE_WINDOW < at <= t then [at] else [])
  {
    assert (accepted + [at])[..|accepted|] == accepted;
  }

  /** When nothing new was accepted, a later window holds no more. */
  lemma {:induction false} LaterWindow(accepted: seq<int>, now: int, t: int)
    requires now <= t && forall k :: 0 <= k < |accepted| ==> accepted[k] <= now
    ensures |Window(accepted, t)| <= |Window(accepted, now)|
  {
    if accepted != [] { LaterWindow(accepted[..|accepted| - 1], now, t); }
  }

  /** The instants kept for one plugin are the accepted ones a retain at some earlier time left. */
  ghost predicate Tracks(entries: seq<int>, accepted: seq<int>, earlier: int) {
    entries == Recent(accepted, earlier) && forall k :: 0 <= k < |accepted| ==> accepted[k] <= earlier
  }

  lemma TracksNow(accepted: seq<int>, now: int)
    requires forall k :: 0 <= k < |accepted| ==> accepted[k] <= now
    ensures Tracks(Recent(accepted, now), accepted, now)
    ensures Tracks(Recent(accepted, now) + [now], accepted + [now], now)
  {
    RecentSnoc(accepted, now, now);
  }

  lemma TracksLater(entries: seq<int>, accepted: seq<int>, earlier: int, now: int)
    requires Tracks(entries, accepted, earlier) && earlier <= now
    ensures forall k :: 0 <= k < |accepted| ==> accepted[k] <= now
    ensures Recent(entries, now) == Recent(accepted, now) == Window(accepted, now)
  {
    RecentTwice(accepted, earlier, now);
    RecentIsWindow(accepted, now);
  }

  lemma AllowTracks(rates: Rates, plugin: string, limit: nat, now: int, accepted: seq<int>, earlier: int)
    requires Tracks(EntriesOf(rates, plugin), accepted, earlier) && earlier <= now
    ensures var (after, ok) := Allow(rates, plugin, limit, now);
            && Tracks(EntriesOf(after, plugin), if ok then accepted + [now] else accepted, now)
            && (ok <==> |Window(accepted, now)| < limit)
  {
    TracksLater(EntriesOf(rates, plugin), accepted, earlier, now);
    TracksNow(accepted, now);
    hide Recent, Window, Tracks;
  }

  lemma Here(s: State, c: Call)
    ensures var (rates, ok) := Allow(s.Of(c.kind), c.plugin, Limit(c.kind), c.now);
            Step(s, c).0.Of(c.kind) == rates && Step(s, c).1 == ok
  {
    hide Allow;
  }

  lemma AcceptedSnoc(calls: seq<Call>, kind: Kind, plugin: string)
    requires calls != []
    ensures var front, last := calls[..|calls| - 1], calls[|calls| - 1];
            Accepted(calls, kind, plugin) ==
              if last.kind == kind && last.plugin == plugin && Step(Run(front), last).1
              then Accepted(front, kind, plugin) + [last.now] else Accepted(front, kind, plugin)
  {
    hide Step, Run;
  }

  lemma Elsewhere(s: State, c: Call, kind: Kind, plugin: string)
    requires c.kind != kind || c.plugin != plugin
    ensures EntriesOf(Step(s, c).0.Of(kind), plugin) == EntriesOf(s.Of(kind), plugin)
  {}

  lemma {:induction false} RunTracks(calls: seq<Call>, kind: Kind, plugin: string, now: int) returns (earlier: int)
    requires Monotone(calls) && forall k :: 0 <= k < |calls| ==> calls[k].now <= now
    ensures earlier <= now && Tracks(EntriesOf(Run(calls).Of(kind), plugin), Accepted(calls, kind, plugin), earlier)
  {
    if calls == [] {
      earlier := now;
    } else {
      var front, last := calls[..|calls| - 1], calls[|calls| - 1];
      earlier := RunTracks(front, kind, plugin, last.now);
      hide Tracks, Allow, EntriesOf, Monotone, Accepted, Step, Limit;
      AcceptedSnoc(calls, kind, plugin);
      if last.kind == kind && last.plugin == plugin {
        var before := Run(front);
        Here(before, last);
        AllowTracks(before.Of(kind), plugin, Limit(kind), last.now, Accepted(front, kind, plugin), earlier);
        earlier := last.now;
      } else {
        Elsewhere(Run(front), last, kind, plugin);
      }
    }
  }

  /** A call is refused exactly when the window that ends with it is full. */
  lemma RefusedIffFull(calls: seq<Call>, c: Call)
    requires Monotone(calls + [c])
    ensures !Step(Run(calls), c).1 <==> |Window(Accepted(calls, c.kind, c.plugin), c.now)| >= Limit(c.kind)
    ensures Limit(c.kind) == (match c.kind case Import => 10 case BatchImport => 5 case Delete => 20)
  {
    var all := calls + [c];
    forall i, j | 0 <= i < j < |calls| ensures calls[i].now <= calls[j].now {
      assert all[i].now <= all[j].now;
    }
    forall k | 0 <= k < |calls| ensures calls[k].now <= c.now {
      assert all[k].now <= all[|calls|].now;
    }
    var earlier := RunTracks(calls, c.kind, c.plugin, c.now);
    hide Allow;
    AllowTracks(Run(calls).Of(c.kind), c.plugin, Limit(c.kind), c.now, Accepted(calls, c.kind, c.plugin), earlier);
    Here(Run(calls), c);
  }

  lemma {:induction false} AcceptedBefore(calls: seq<Call>, kind: Kind, plugin: string, now: int)
    requires forall k :: 0 <= k < |calls| ==> calls[k].now <= now
    ensures forall k :: 0 <= k < |Accepted(calls, kind, plugin)| ==> Accepted(calls, kind, plugin)[k] <= now
  {
    hide Step;
    if calls != [] { AcceptedBefore(calls[..|calls| - 1], kind, plugin, now); }
  }

  /** Any window of a minute, wherever it ends, holds at most the limit of accepted calls. */
  lemma {:induction false} WindowsAreBounded(calls: seq<Call>, kind: Kind, plugin: string, t: int)
    requires Monotone(calls)
    ensures |Window(Accepted(calls, kind, plugin), t)| <= Limit(kind)
  {
    if calls != [] {
      hide Step, Run, Window, Accepted, Limit;
      var front, last := calls[..|calls| - 1], calls[|calls| - 1];
      AcceptedSnoc(calls, kind, plugin);
      WindowsAreBounded(front, kind, plugin, t);
      if last.kind == kind && last.plugin == plugin && Step(Run(front), last).1 {
        assert front + [last] == calls;
        RefusedIffFull(front, last);
        AcceptedBefore(front, kind, plugin, last.now);
        WindowSnoc(Accepted(front, kind, plugin), last.now, t);
        if last.now <= t { LaterWindow(Accepted(front, kind, plugin), last.now, t); }
      }
    } else {
      assert Window([], t) == [];
    }
  }

  class Brakes {
    var imports: Rates
    var batchImports: Rates
    var deletes: Rates

    ghost function Now(): State
      reads this
    {
      State(imports, batchImports, deletes)
    }

    constructor ()
      ensures Now() == Run([])
    {
      imports, batchImports, deletes := map[], map[], map[];
    }

    static method RateAllowed(rates: Rates, plugin: string, limit: nat, now: int) returns (after: Rates, ok: bool)
      ensures (after, ok) == Allow(rates, plugin, limit, now)
    {
      var old_ := if plugin in rates then rates[plugin] else [];
      var entries: seq<int> := [];
      for k := 0 to |old_|
        invariant entries == Recent(old_[..k], now)
      {
        RecentSnoc(old_[..k], old_[k], now);
        assert old_[..k] + [old_[k]] == old_[..k + 1];
        if now - old_[k] < PLUGIN_IMPORT_RATE_WINDOW { entries := entries + [old_[k]]; }
      }
      assert old_[..|old_|] == old_;
      ok := |entries| < limit;
      after := rates[plugin := if ok then entries + [now] else entries];
    }

    method AllowPluginImport(plugin: string, batch: bool, now: int) returns (ok: bool)
      modifies this
      ensures (Now(), ok) == Step(old(Now()), Call(if batch then BatchImport else Import, plugin, now))
    {
      hide Recent;
      if batch {
        batchImports, ok := RateAllowed(batchImports, plugin, PLUGIN_BATCH_IMPORT_RATE_LIMIT, now);
      } else {
        imports, ok := RateAllowed(imports, plugin, PLUGIN_IMPORT_RATE_LIMIT, now);
      }
    }

    method AllowPluginDelete(plugin: string, now: int) returns (ok: bool)
      modifies this
      ensures (Now(), ok) == Step(old(Now()), Call(Delete, plugin, now))
    {
      deletes, ok := RateAllowed(deletes, plugin, PLUGIN_DELETE_RATE_LIMIT, now);
    }
  }
}
