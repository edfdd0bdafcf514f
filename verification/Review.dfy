/**
 * Change snapshots and guarded rollback (crates/host-core/src/review.rs).
 * The SHA-256 digest is modelled as an injective function of the content.
 */
module Review {
  import opened Wrappers
  import opened Bytes

  type Path = string
  type SnapshotId = string

  const MAX_SNAPSHOT_BYTES := 16 * 1024 * 1024

  datatype Node = Missing | File(data: seq<byte>) | Directory

  datatype Digest = Digest(data: seq<byte>)

  datatype ChangeStatus = Added | Modified | Deleted

  datatype ChangeState = Active | RolledBack

  /** What prepare_change remembers until the tool has run. */
  datatype Pending = Pending(id: SnapshotId, path: Path, beforeExists: bool, beforeHash: Option<Digest>, beforeCopied: bool)

  datatype Meta = Meta(path: Path, beforeExists: bool, beforeHash: Option<Digest>, afterExists: bool,
                       afterHash: Option<Digest>, reversible: bool, state: ChangeState)

  datatype Outcome = Restored | AlreadyRolledBack | Conflict | Unavailable

  datatype Failure = SnapshotNotFound | HashFailed | RestoreFailed

  /** The workspace tree, the saved copies of old contents and the snapshot records. */
  datatype Store = Store(files: map<Path, Node>, copies: map<SnapshotId, seq<byte>>, metas: map<SnapshotId, Meta>) {
    function At(path: Path): Node {
      if path in files then files[path] else Missing
    }
  }

  function HashOf(node: Node): Option<Digest> {
    if node.File? then Some(Digest(node.data)) else None
  }

  // ----- the three operations, as functions of the store -----

  /** hashed and copied: whether reading the old content for its digest, and copying it, succeeded. */
  function Prepare(s: Store, id: SnapshotId, path: Path, hashed: bool, copied: bool): (Store, Pending) {
    var node := s.At(path);
    var kept := node.File? && |node.data| <= MAX_SNAPSHOT_BYTES && copied;
    (if kept then s.(copies := s.copies[id := node.data]) else s,
     Pending(id, path, node.File?, if hashed then HashOf(node) else None, kept))
  }

  /** The tool call between prepare and finalize. */
  function ToolWrites(s: Store, path: Path, node: Node): Store {
    s.(files := s.files[path := node])
  }

  function MetaOf(s: Store, p: Pending): Meta {
    var node := s.At(p.path);
    Meta(p.path, p.beforeExists, p.beforeHash, node.File?, HashOf(node),
         if p.beforeExists then p.beforeCopied else node.File?, Active)
  }

  /** The content after the tool has to be hashed, if there is a file. */
  predicate CanFinalize(s: Store, p: Pending, readable: bool) {
    s.At(p.path).File? ==> readable
  }

  function Finalize(s: Store, p: Pending): Store {
    s.(metas := s.metas[p.id := MetaOf(s, p)])
  }

  /** The guard of rollback: the file is what it was right after the tool. */
  predicate Unchanged(s: Store, meta: Meta, readable: bool) {
    match (meta.afterHash, s.At(meta.path))
    case (Some(expected), File(data)) => readable && expected == Digest(data)
    case (None, File(_)) => false
    case (Some(_), _) => false
    case (None, _) => true
  }

  function Done(s: Store, id: SnapshotId, node: Node): Store
    requires id in s.metas
  {
    s.(files := s.files[s.metas[id].path := node],
       metas := s.metas[id := s.metas[id].(state := RolledBack)])
  }

  /** root: whether a workspace is open and the path resolves inside it. */
  function Rollback(s: Store, id: SnapshotId, root: bool, readable: bool): (Store, Result<Outcome, Failure>) {
    if id !in s.metas then (s, Err(SnapshotNotFound))
    else
      var meta := s.metas[id];
      if meta.state == RolledBack then (s, Ok(AlreadyRolledBack))
      else if !meta.reversible || !root then (s, Ok(Unavailable))
      else if !Unchanged(s, meta, readable) then (s, Ok(Conflict))
      else if meta.beforeExists then
        if id !in s.copies || |s.copies[id]| > MAX_SNAPSHOT_BYTES || s.At(meta.path).Directory? then (s, Err(RestoreFailed))
        else (Done(s, id, File(s.copies[id])), Ok(Restored))
      else if s.At(meta.path).Directory? then (s, Ok(Unavailable))
      else (Done(s, id, Missing), Ok(Restored))
  }

  // ----- single rollbacks -----

  /** What was at the path of a snapshot when it was prepared and when it was finalized. */
  datatype Seen = Seen(path: Path, before: Node, copied: bool, after: Option<Node>)

  /** When a change from one content to another can be undone at all. */
  predicate Reversible(before: Node, copied: bool, after: Node) {
    if before.File? then |before.data| <= MAX_SNAPSHOT_BYTES && copied else after.File?
  }

  /** Whatever was no file comes back as no file. */
  function RestoredTo(before: Node): Node {
    if before.File? then before else Missing
  }

  /** Snapshot id holds what prepare and finalize saw. */
  predicate Captured(s: Store, id: SnapshotId, seen: Seen) {
    && id in s.metas && seen.after.Some?
    && s.metas[id].path == seen.path
    && s.metas[id].beforeExists == seen.before.File? && s.metas[id].afterExists == seen.after.value.File?
    && (s.metas[id].beforeHash.Some? ==> s.metas[id].beforeHash == HashOf(seen.before))
    && s.metas[id].afterHash == HashOf(seen.after.value)
    && s.metas[id].reversible == Reversible(seen.before, seen.copied, seen.after.value)
    && (s.metas[id].reversible && seen.before.File? ==> id in s.copies && s.copies[id] == seen.before.data)
  }

  /** The file is, by its digest, what it was when the snapshot was finalized. */
  predicate StillAfter(s: Store, seen: Seen) {
    seen.after.Some? && HashOf(s.At(seen.path)) == HashOf(seen.after.value) && !s.At(seen.path).Directory?
  }

  /**
   * A rollback changes nothing, or it puts back the content seen by prepare. It
   * does the latter exactly when the record is active and reversible, a
   * workspace is open, and the file can be read and is what finalize saw.
   */
  lemma RollbackIsGuarded(s: Store, id: SnapshotId, seen: Seen, root: bool, readable: bool)
    requires Captured(s, id, seen)
    ensures var (t, r) := Rollback(s, id, root, readable);
            if s.metas[id].state.Active? && Reversible(seen.before, seen.copied, seen.after.value) && root &&
               StillAfter(s, seen) && (seen.after.value.File? ==> readable)
            then r == Ok(Restored) && t == Done(s, id, RestoredTo(seen.before))
            else t == s && r != Ok(Restored)
  {}

  /** The record of a change tells of the content before it what could be read: its digest, and a copy if it is small enough. */
  lemma PrepareTells(s: Store, id: SnapshotId, path: Path, hashed: bool, copied: bool, data: seq<byte>)
    ensures var (t, p) := Prepare(s, id, path, hashed, copied);
            && p.id == id && p.path == path && t.files == s.files && t.metas == s.metas
            && (s.At(path) == File(data) ==>
                  && p.beforeExists
                  && (p.beforeHash == Some(Digest(data)) <==> hashed) && (p.beforeHash == None <==> !hashed)
                  && (p.beforeCopied <==> copied && |data| <= MAX_SNAPSHOT_BYTES)
                  && (p.beforeCopied ==> t.copies == s.copies[id := data]))
            && (!s.At(path).File? ==> !p.beforeExists && p.beforeHash == None && !p.beforeCopied)
            && (!p.beforeCopied ==> t == s)
  {}

  /** Each outcome of a rollback under its own condition; a missing record is an error. */
  lemma RollbackOutcomes(s: Store, id: SnapshotId, seen: Seen, root: bool, readable: bool)
    ensures id !in s.metas ==> Rollback(s, id, root, readable) == (s, Err(SnapshotNotFound))
    ensures Captured(s, id, seen) ==>
              var r, now, after := Rollback(s, id, root, readable).1, s.At(seen.path), seen.after.value;
              var active, possible := s.metas[id].state.Active?, Reversible(seen.before, seen.copied, after) && root;
              var same := HashOf(now) == HashOf(after) && (now.File? ==> readable);
              && (r == Ok(AlreadyRolledBack) <==> !active)
              && (r == Ok(Unavailable) <==> active && !possible)
              && (r == Ok(Conflict) <==> active && possible && !same)
              && (r == Err(RestoreFailed) <==> active && possible && same && now.Directory?)
              && (r == Ok(Restored) <==> active && possible && same && !now.Directory?)
    ensures id in s.metas && s.At(s.metas[id].path).Directory? ==>
              Rollback(s, id, root, readable).0 == s && Rollback(s, id, root, readable).1 != Ok(Restored)
  {}

  // ----- every interleaving -----

  /** The store, the changes under way, and beside them what every snapshot saw. */
  datatype Log = Log(store: Store, pending: map<SnapshotId, Pending>, seen: map<SnapshotId, Seen>)

  datatype Event =
    | Begin(id: SnapshotId, path: Path, hashed: bool, copied: bool)   // prepare_change
    | Write(path: Path, node: Node)                                   // a tool, or anybody else
    | Finish(id: SnapshotId, readable: bool)                          // finalize_change
    | Discard(id: SnapshotId)                                         // discard_change
    | Undo(id: SnapshotId, root: bool, readable: bool)                // rollback_change

  /** Snapshot ids are fresh; an event that cannot happen changes nothing. */
  function Step(l: Log, e: Event): Log {
    match e
    case Begin(id, path, hashed, copied) =>
      if id in l.seen then l
      else
        var (store, p) := Prepare(l.store, id, path, hashed, copied);
        Log(store, l.pending[id := p], l.seen[id := Seen(path, l.store.At(path), copied, None)])
    case Write(path, node) => l.(store := ToolWrites(l.store, path, node))
    case Finish(id, readable) =>
      if id !in l.pending || id !in l.seen || !CanFinalize(l.store, l.pending[id], readable) then l
      else
        var p := l.pending[id];
        Log(Finalize(l.store, p), l.pending - {id}, l.seen[id := l.seen[id].(after := Some(l.store.At(p.path)))])
    case Discard(id) =>
      if id !in l.pending then l
      else l.(store := l.store.(copies := l.store.copies - {id}), pending := l.pending - {id})
    case Undo(id, root, readable) => l.(store := Rollback(l.store, id, root, readable).0)
  }

  function Run(store: Store, events: seq<Event>): Log {
    if events == [] then Log(store, map[], map[])
    else Step(Run(store, events[..|events| - 1]), events[|events| - 1])
  }

  /** A change under way remembers what prepare saw. */
  predicate Remembers(l: Log, id: SnapshotId) {
    && id in l.pending && id in l.seen && id !in l.store.metas && l.seen[id].after.None?
    && l.pending[id].id == id && l.pending[id].path == l.seen[id].path
    && l.pending[id].beforeExists == l.seen[id].before.File?
    && (l.pending[id].beforeHash.Some? ==> l.pending[id].beforeHash == HashOf(l.seen[id].before))
    && l.pending[id].beforeCopied ==
         (l.seen[id].before.File? && |l.seen[id].before.data| <= MAX_SNAPSHOT_BYTES && l.seen[id].copied)
    && (l.pending[id].beforeCopied ==> id in l.store.copies && l.store.copies[id] == l.seen[id].before.data)
  }

  ghost predicate Recorded(l: Log) {
    && (forall id :: id in l.pending ==> Remembers(l, id))
    && (forall id :: id in l.store.metas ==> id in l.seen && Captured(l.store, id, l.seen[id]))
  }

  lemma BeginRecords(l: Log, id: SnapshotId, path: Path, hashed: bool, copied: bool)
    requires Recorded(l)
    ensures Recorded(Step(l, Begin(id, path, hashed, copied)))
  {
    var m := Step(l, Begin(id, path, hashed, copied));
    if id !in l.seen {
      forall i | i in m.pending ensures Remembers(m, i) {
        if i != id { assert Remembers(l, i); }
      }
      forall i | i in m.store.metas ensures i in m.seen && Captured(m.store, i, m.seen[i]) {
        assert i in l.seen && Captured(l.store, i, l.seen[i]);
      }
    }
  }

  lemma FinishRecords(l: Log, id: SnapshotId, readable: bool)
    requires Recorded(l)
    ensures Recorded(Step(l, Finish(id, readable)))
  {
    var m := Step(l, Finish(id, readable));
    if m != l {
      assert Remembers(l, id);
      forall i | i in m.pending ensures Remembers(m, i) {
        assert Remembers(l, i);
      }
      forall i | i in m.store.metas ensures i in m.seen && Captured(m.store, i, m.seen[i]) {
        if i != id { assert i in l.seen && Captured(l.store, i, l.seen[i]); }
      }
    }
  }

  lemma DiscardRecords(l: Log, id: SnapshotId)
    requires Recorded(l)
    ensures Recorded(Step(l, Discard(id)))
  {
    var m := Step(l, Discard(id));
    if id in l.pending {
      assert Remembers(l, id);
      forall i | i in m.pending ensures Remembers(m, i) {
        assert Remembers(l, i);
      }
      forall i | i in m.store.metas ensures i in m.seen && Captured(m.store, i, m.seen[i]) {
        assert i in l.seen && Captured(l.store, i, l.seen[i]);
      }
    }
  }

  /** A rollback touches one file and the state of one record at most. */
  lemma RollbackTouches(s: Store, id: SnapshotId, root: bool, readable: bool)
    ensures var t := Rollback(s, id, root, readable).0;
            && t.copies == s.copies && t.metas.Keys == s.metas.Keys
            && (forall i :: i in s.metas ==> t.metas[i].(state := Active) == s.metas[i].(state := Active))
            && (forall i :: i in s.metas && i != id ==> t.metas[i] == s.metas[i])
            && (forall p :: (id in s.metas ==> p != s.metas[id].path) ==> t.At(p) == s.At(p))
  {
    hide Unchanged;
  }

  lemma UndoRecords(l: Log, id: SnapshotId, root: bool, readable: bool)
    requires Recorded(l)
    ensures Recorded(Step(l, Undo(id, root, readable)))
  {
    var m := Step(l, Undo(id, root, readable));
    RollbackTouches(l.store, id, root, readable);
    hide Rollback;
    forall i | i in m.pending ensures Remembers(m, i) {
      assert Remembers(l, i);
    }
    forall i | i in m.store.metas ensures i in m.seen && Captured(m.store, i, m.seen[i]) {
      assert i in l.seen && Captured(l.store, i, l.seen[i]);
    }
  }

  lemma WriteRecords(l: Log, path: Path, node: Node)
    requires Recorded(l)
    ensures Recorded(Step(l, Write(path, node)))
  {
    var m := Step(l, Write(path, node));
    forall i | i in m.pending ensures Remembers(m, i) {
      assert Remembers(l, i);
    }
    forall i | i in m.store.metas ensures i in m.seen && Captured(m.store, i, m.seen[i]) {
      assert i in l.seen && Captured(l.store, i, l.seen[i]);
    }
  }

  lemma NothingRecorded(store: Store)
    requires store.metas == map[]
    ensures Recorded(Log(store, map[], map[]))
  {}

  /** In every interleaving, of outside edits too, each record tells what prepare and finalize saw. */
  lemma {:induction false} EveryRunRecords(store: Store, events: seq<Event>)
    requires store.metas == map[]
    ensures Recorded(Run(store, events))
  {
    hide Recorded, Step;
    if events == [] {
      NothingRecorded(store);
    } else {
      var l := Run(store, events[..|events| - 1]);
      EveryRunRecords(store, events[..|events| - 1]);
      match events[|events| - 1] {
        case Begin(id, path, hashed, copied) => BeginRecords(l, id, path, hashed, copied);
        case Write(path, node) => WriteRecords(l, path, node);
        case Finish(id, readable) => FinishRecords(l, id, readable);
        case Discard(id) => DiscardRecords(l, id);
        case Undo(id, root, readable) => UndoRecords(l, id, root, readable);
      }
    }
  }

  lemma CapturedAfter(s: Store, id: SnapshotId, seen: Seen)
    requires Captured(s, id, seen)
    ensures id in s.metas && seen.after.Some?
  {}

  /** So in every run a rollback leaves the store as it is, or restores the content its prepare saw, under the guard. */
  lemma RollbackInEveryRun(store: Store, events: seq<Event>, id: SnapshotId, root: bool, readable: bool)
    requires store.metas == map[] && id in Run(store, events).store.metas
    ensures var l := Run(store, events);
            id in l.seen && l.seen[id].after.Some? &&
            var seen := l.seen[id]; var (t, r) := Rollback(l.store, id, root, readable);
            if l.store.metas[id].state.Active? && Reversible(seen.before, seen.copied, seen.after.value) && root &&
               StillAfter(l.store, seen) && (seen.after.value.File? ==> readable)
            then r == Ok(Restored) && t == Done(l.store, id, RestoredTo(seen.before))
            else t == l.store && r != Ok(Restored)
  {
    EveryRunRecords(store, events);
    hide Run, Rollback, Captured, Remembers;
    var l := Run(store, events);
    assert id in l.seen && Captured(l.store, id, l.seen[id]);
    CapturedAfter(l.store, id, l.seen[id]);
    RollbackIsGuarded(l.store, id, l.seen[id], root, readable);
  }

  // ----- rolling back in reverse order -----

  function Last<T>(s: seq<T>): T
    requires s != []
  {
    s[|s| - 1]
  }

  function DropLast<T>(s: seq<T>): seq<T>
    requires s != []
  {
    s[..|s| - 1]
  }

  /** Roll back the given snapshots, newest first, and report the content after each. */
  function Unwind(s: Store, path: Path, ids: seq<SnapshotId>): seq<(Result<Outcome, Failure>, Node)>
    decreases |ids|
  {
    if ids == [] then []
    else
      var (t, r) := Rollback(s, Last(ids), true, true);
      [(r, t.At(path))] + Unwind(t, path, DropLast(ids))
  }

  /** Snapshots of changes of one file, none rolled back yet. */
  ghost predicate Undoable(s: Store, path: Path, ids: seq<SnapshotId>, seen: seq<Seen>) {
    && |ids| == |seen|
    && (forall k :: 0 <= k < |ids| ==>
          Captured(s, ids[k], seen[k]) && seen[k].path == path && s.metas[ids[k]].state.Active? && s.metas[ids[k]].reversible)
    && (forall j, k :: 0 <= j < k < |ids| ==> ids[j] != ids[k])
  }

  /** Each change began, by its digest, where the one before it ended, and the file is where the last one ended. */
  predicate Consecutive(s: Store, seen: seq<Seen>)
    requires forall k :: 0 <= k < |seen| ==> seen[k].after.Some?
  {
    && (seen != [] ==> StillAfter(s, Last(seen)))
    && (forall k :: 0 < k < |seen| ==> HashOf(seen[k].before) == HashOf(seen[k - 1].after.value))
  }

  predicate AllRestored(steps: seq<(Result<Outcome, Failure>, Node)>) {
    forall k :: 0 <= k < |steps| ==> steps[k].0 == Ok(Restored)
  }

  lemma {:induction false} UnwindLength(s: Store, path: Path, ids: seq<SnapshotId>)
    ensures |Unwind(s, path, ids)| == |ids|
    decreases |ids|
  {
    hide Rollback;
    if ids != [] { UnwindLength(Rollback(s, Last(ids), true, true).0, path, DropLast(ids)); }
  }

  lemma UndoOne(s: Store, path: Path, ids: seq<SnapshotId>, seen: seq<Seen>)
    requires Undoable(s, path, ids, seen) && ids != []
    ensures var (t, r) := Rollback(s, Last(ids), true, true);
            && (r == Ok(Restored) <==> StillAfter(s, Last(seen)))
            && Undoable(t, path, DropLast(ids), DropLast(seen))
            && (r == Ok(Restored) ==> t.At(path) == RestoredTo(Last(seen).before))
            && (r != Ok(Restored) ==> t == s)
  {
    var n := |ids| - 1;
    var (t, r) := Rollback(s, ids[n], true, true);
    assert Captured(s, ids[n], seen[n]);
    RollbackIsGuarded(s, ids[n], seen[n], true, true);
    RollbackTouches(s, ids[n], true, true);
    hide Rollback;
    forall k | 0 <= k < n
      ensures Captured(t, ids[k], seen[k]) && t.metas[ids[k]].state.Active? && t.metas[ids[k]].reversible
    {
      assert Captured(s, ids[k], seen[k]) && ids[k] != ids[n];
    }
  }

  lemma FirstRestored(all: seq<(Result<Outcome, Failure>, Node)>, first: (Result<Outcome, Failure>, Node),
                      rest: seq<(Result<Outcome, Failure>, Node)>)
    requires all == [first] + rest
    ensures AllRestored(all) <==> first.0 == Ok(Restored) && AllRestored(rest)
  {
    assert forall k :: 0 <= k < |rest| ==> rest[k] == all[k + 1];
    assert all[0] == first;
    if first.0 == Ok(Restored) && AllRestored(rest) {
      forall k | 0 <= k < |all| ensures all[k].0 == Ok(Restored) {
        if k > 0 { assert all[k] == rest[k - 1]; }
      }
    }
    if AllRestored(all) {
      forall k | 0 <= k < |rest| ensures rest[k].0 == Ok(Restored) {
        assert all[k + 1].0 == Ok(Restored);
      }
    }
  }

  /** After the last change is undone, the file is where the one before it ended exactly if that is where it began. */
  lemma ConsecutiveFront(s: Store, t: Store, path: Path, seen: seq<Seen>)
    requires seen != [] && forall k :: 0 <= k < |seen| ==> seen[k].after.Some? && seen[k].path == path
    requires StillAfter(s, Last(seen)) && t.At(path) == RestoredTo(Last(seen).before)
    ensures Consecutive(s, seen) <==> Consecutive(t, DropLast(seen))
  {
    var front, n := DropLast(seen), |seen| - 1;
    assert forall k :: 0 <= k < n ==> front[k] == seen[k];
    if n > 0 { assert Last(front) == seen[n - 1]; }
  }

  /**
   * However the changes of a file were interleaved: rolling all of them back in
   * reverse order succeeds at every step if and only if each change began where
   * the one before it ended. Then every earlier content comes back.
   */
  lemma {:induction false} UnwindSucceedsIff(s: Store, path: Path, ids: seq<SnapshotId>, seen: seq<Seen>)
    requires Undoable(s, path, ids, seen)
    ensures var n, steps := |ids|, Unwind(s, path, ids);
            && |steps| == n && (forall k :: 0 <= k < n ==> seen[k].after.Some?)
            && (AllRestored(steps) <==> Consecutive(s, seen))
            && (AllRestored(steps) ==> forall k :: 0 <= k < n ==> steps[k].1 == RestoredTo(seen[n - 1 - k].before))
    decreases |ids|
  {
    UnwindLength(s, path, ids);
    forall k | 0 <= k < |ids| ensures seen[k].after.Some? {
      assert Captured(s, ids[k], seen[k]);
    }
    if ids != [] {
      hide Rollback, Undoable;
      var (t, r) := Rollback(s, Last(ids), true, true);
      UndoOne(s, path, ids, seen);
      UnwindSucceedsIff(t, path, DropLast(ids), DropLast(seen));
      FirstRestored(Unwind(s, path, ids), (r, t.At(path)), Unwind(t, path, DropLast(ids)));
      hide Unwind, AllRestored;
      if r == Ok(Restored) { ConsecutiveFront(s, t, path, seen); }
    }
  }

  // ----- changes that do not overlap -----

  /** Beside the log: the contents of one file so far, the snapshots between them, and the change under way. */
  datatype Tracked = Tracked(log: Log, contents: seq<Node>, ids: seq<SnapshotId>, open: Option<SnapshotId>)

  predicate CanRollBack(meta: Meta, path: Path) {
    meta.path == path && meta.state.Active? && meta.reversible
  }

  predicate Link(l: Log, path: Path, id: SnapshotId, before: Node, after: Node) {
    && id in l.store.metas && id in l.seen && CanRollBack(l.store.metas[id], path)
    && l.seen[id].path == path && l.seen[id].before == before && l.seen[id].after == Some(after)
  }

  ghost predicate Linked(t: Tracked, path: Path) {
    && |t.contents| == |t.ids| + 1
    && (forall k :: 0 <= k < |t.contents| ==> !t.contents[k].Directory?)
    && (forall k :: 0 <= k < |t.ids| ==> Link(t.log, path, t.ids[k], t.contents[k], t.contents[k + 1]))
    && (forall j, k :: 0 <= j < k < |t.ids| ==> t.ids[j] != t.ids[k])
  }

  /** The snapshots between the contents are all that can still be rolled back. */
  ghost predicate NoOthers(t: Tracked, path: Path) {
    forall id :: id in t.log.store.metas && CanRollBack(t.log.store.metas[id], path) ==> id in t.ids
  }

  /** Nothing is under way and the file is the last content, or one change is that began with it. */
  ghost predicate Opened(t: Tracked, path: Path)
    requires t.contents != []
  {
    && (forall id :: id in t.log.pending && t.log.pending[id].path == path ==> t.open == Some(id))
    && if t.open.None? then t.log.store.At(path) == Last(t.contents)
       else
         && t.open.value in t.log.pending && t.open.value in t.log.seen
         && t.log.pending[t.open.value].path == path
         && t.log.seen[t.open.value].before == Last(t.contents)
         && (Last(t.contents).File? ==> t.log.pending[t.open.value].beforeCopied)
         && !t.log.store.At(path).Directory?
  }

  ghost predicate Chain(t: Tracked, path: Path) {
    Recorded(t.log) && Linked(t, path) && NoOthers(t, path) && Opened(t, path)
  }

  /**
   * Changes of the file do not overlap, are reversible, and only they write it;
   * rollbacks of the file are of its newest change, while none is under way.
   * Work on other files is free.
   */
  ghost predicate Allowed(t: Tracked, path: Path, e: Event) {
    var now := t.log.store.At(path);
    match e
    case Begin(id, p, _, copied) =>
      id !in t.log.seen && (p == path ==> t.open.None? && (now.File? ==> |now.data| <= MAX_SNAPSHOT_BYTES && copied))
    case Write(p, node) => p == path ==> t.open.Some? && !node.Directory?
    case Finish(id, readable) =>
      t.open == Some(id) ==> t.contents != [] && (now.File? ==> readable) && (Last(t.contents).File? || now.File?)
    case Discard(id) => t.open == Some(id) ==> t.contents != [] && now == Last(t.contents)
    case Undo(id, _, _) => id in t.ids ==> t.open.None? && id == Last(t.ids)
  }

  /** The log does its work; beside it, contents and ids behave as an undo stack. */
  function Track(t: Tracked, path: Path, e: Event): Tracked {
    var next := t.(log := Step(t.log, e));
    match e
    case Begin(id, p, _, _) => if p == path then next.(open := Some(id)) else next
    case Write(_, _) => next
    case Finish(id, _) =>
      if t.open == Some(id) then Tracked(next.log, t.contents + [t.log.store.At(path)], t.ids + [id], None) else next
    case Discard(id) => if t.open == Some(id) then next.(open := None) else next
    case Undo(id, root, readable) =>
      if id in t.ids && t.contents != [] && root && (Last(t.contents).File? ==> readable)
      then next.(contents := DropLast(t.contents), ids := DropLast(t.ids)) else next
  }

  ghost predicate AllAllowed(t: Tracked, path: Path, events: seq<Event>)
    decreases |events|
  {
    events == [] || (Allowed(t, path, events[0]) && AllAllowed(Track(t, path, events[0]), path, events[1..]))
  }

  function TrackAll(t: Tracked, path: Path, events: seq<Event>): Tracked
    decreases |events|
  {
    if events == [] then t else TrackAll(Track(t, path, events[0]), path, events[1..])
  }

  lemma StepRecords(l: Log, e: Event)
    requires Recorded(l)
    ensures Recorded(Step(l, e))
  {
    hide Recorded, Step;
    match e {
      case Begin(id, path, hashed, copied) => BeginRecords(l, id, path, hashed, copied);
      case Write(path, node) => WriteRecords(l, path, node);
      case Finish(id, readable) => FinishRecords(l, id, readable);
      case Discard(id) => DiscardRecords(l, id);
      case Undo(id, root, readable) => UndoRecords(l, id, root, readable);
    }
  }

  /** Links are kept by whatever keeps the records and what they saw. */
  lemma LinksStay(t: Tracked, u: Tracked, path: Path)
    requires Linked(t, path) && u.contents == t.contents && u.ids == t.ids
    requires forall id :: id in t.ids && id in t.log.store.metas && id in t.log.seen ==>
               id in u.log.store.metas && u.log.store.metas[id] == t.log.store.metas[id] && id in u.log.seen && u.log.seen[id] == t.log.seen[id]
    ensures Linked(u, path)
  {
    forall k | 0 <= k < |u.ids| ensures Link(u.log, path, u.ids[k], u.contents[k], u.contents[k + 1]) {
      assert Link(t.log, path, t.ids[k], t.contents[k], t.contents[k + 1]);
    }
  }

  lemma LastIsThere(t: Tracked, path: Path)
    requires Linked(t, path)
    ensures t.contents != [] && !Last(t.contents).Directory?
  {}

  lemma BeginKeepsChain(t: Tracked, path: Path, e: Event)
    requires Chain(t, path) && Allowed(t, path, e) && e.Begin?
    ensures var u := Track(t, path, e); Linked(u, path) && NoOthers(u, path) && Opened(u, path)
  {
    LinksStay(t, Track(t, path, e), path);
    hide Linked, Link, Recorded;
    LastIsThere(t, path);
  }

  lemma WriteKeepsChain(t: Tracked, path: Path, e: Event)
    requires Chain(t, path) && Allowed(t, path, e) && e.Write?
    ensures var u := Track(t, path, e); Linked(u, path) && NoOthers(u, path) && Opened(u, path)
  {
    LinksStay(t, Track(t, path, e), path);
    hide Linked, Link, Recorded;
  }

  lemma DiscardKeepsChain(t: Tracked, path: Path, e: Event)
    requires Chain(t, path) && Allowed(t, path, e) && e.Discard?
    ensures var u := Track(t, path, e); Linked(u, path) && NoOthers(u, path) && Opened(u, path)
  {
    LinksStay(t, Track(t, path, e), path);
    hide Linked, Link, Recorded;
  }

  lemma LinkedHas(t: Tracked, path: Path, id: SnapshotId)
    requires Linked(t, path) && id in t.ids
    ensures id in t.log.store.metas
  {
    var k :| 0 <= k < |t.ids| && t.ids[k] == id;
    assert Link(t.log, path, t.ids[k], t.contents[k], t.contents[k + 1]);
  }

  lemma NotLinked(t: Tracked, path: Path, id: SnapshotId)
    requires Linked(t, path) && id !in t.log.store.metas
    ensures id !in t.ids
  {
    if id in t.ids { LinkedHas(t, path, id); }
  }

  lemma OpenRemembers(t: Tracked, path: Path, id: SnapshotId)
    requires Chain(t, path) && t.open == Some(id)
    ensures Remembers(t.log, id) && t.log.seen[id].path == path && t.log.seen[id].before == Last(t.contents)
    ensures id !in t.ids
  {
    assert Remembers(t.log, id);
    NotLinked(t, path, id);
  }

  lemma FinishKeepsChain(t: Tracked, path: Path, id: SnapshotId, readable: bool)
    requires Chain(t, path) && Allowed(t, path, Finish(id, readable)) && t.open == Some(id)
    ensures var u := Track(t, path, Finish(id, readable)); Linked(u, path) && NoOthers(u, path) && Opened(u, path)
  {
    var u := Track(t, path, Finish(id, readable));
    OpenRemembers(t, path, id);
    hide Recorded, Captured;
    var n := |t.ids|;
    forall k | 0 <= k < |u.ids| ensures Link(u.log, path, u.ids[k], u.contents[k], u.contents[k + 1]) {
      if k < n {
        assert Link(t.log, path, t.ids[k], t.contents[k], t.contents[k + 1]);
        assert u.ids[k] == t.ids[k] && u.ids[k] != id;
      } else {
        assert u.contents[k] == Last(t.contents);
      }
    }
    assert forall k :: 0 <= k < n ==> t.ids[k] in t.ids;
    assert id in u.ids;
  }

  lemma FinishElsewhere(t: Tracked, path: Path, id: SnapshotId, readable: bool)
    requires Chain(t, path) && t.open != Some(id)
    ensures var u := Track(t, path, Finish(id, readable)); Linked(u, path) && NoOthers(u, path) && Opened(u, path)
  {
    var u := Track(t, path, Finish(id, readable));
    if id in t.log.pending {
      assert Remembers(t.log, id);
      NotLinked(t, path, id);
    }
    LinksStay(t, u, path);
    hide Linked, Link, Recorded;
  }

  /** What a rollback of the newest change does. */
  lemma NewestRollback(t: Tracked, path: Path, root: bool, readable: bool)
    requires Chain(t, path) && t.open.None? && t.ids != []
    ensures var id, n := Last(t.ids), |t.ids| - 1; var (s, r) := Rollback(t.log.store, id, root, readable);
            && id in t.log.store.metas && t.log.store.metas[id].path == path
            && if root && (t.contents[n + 1].File? ==> readable)
               then r == Ok(Restored) && s == Done(t.log.store, id, RestoredTo(t.contents[n]))
               else s == t.log.store && r != Ok(Restored)
  {
    var id, n := Last(t.ids), |t.ids| - 1;
    assert Link(t.log, path, t.ids[n], t.contents[n], t.contents[n + 1]);
    assert Captured(t.log.store, id, t.log.seen[id]);
    RollbackIsGuarded(t.log.store, id, t.log.seen[id], root, readable);
    hide Rollback, Recorded;
  }

  lemma NotDirectory(t: Tracked, path: Path, k: nat)
    requires Linked(t, path) && k < |t.contents|
    ensures RestoredTo(t.contents[k]) == t.contents[k]
  {}

  lemma UndoNewest(t: Tracked, path: Path, id: SnapshotId, root: bool, readable: bool)
    requires Chain(t, path) && t.open.None? && id in t.ids && id == Last(t.ids)
    ensures var u := Track(t, path, Undo(id, root, readable)); Linked(u, path) && NoOthers(u, path) && Opened(u, path)
  {
    var u, n := Track(t, path, Undo(id, root, readable)), |t.ids| - 1;
    NewestRollback(t, path, root, readable);
    NotDirectory(t, path, n);
    hide Rollback, Recorded, Captured;
    forall k | 0 <= k < n ensures Link(u.log, path, t.ids[k], t.contents[k], t.contents[k + 1]) {
      assert Link(t.log, path, t.ids[k], t.contents[k], t.contents[k + 1]);
      assert t.ids[k] != t.ids[n];
    }
  }

  lemma UndoElsewhere(t: Tracked, path: Path, id: SnapshotId, root: bool, readable: bool)
    requires Chain(t, path) && id !in t.ids
    ensures var u := Track(t, path, Undo(id, root, readable)); Linked(u, path) && NoOthers(u, path) && Opened(u, path)
  {
    var s := t.log.store;
    RollbackTouches(s, id, root, readable);
    if id in s.metas {
      assert Captured(s, id, t.log.seen[id]);
      RollbackIsGuarded(s, id, t.log.seen[id], root, readable);
    }
    hide Rollback;
    LinksStay(t, Track(t, path, Undo(id, root, readable)), path);
    hide Linked, Link, Recorded, Captured;
  }

  lemma TrackLogs(t: Tracked, path: Path, e: Event)
    ensures Track(t, path, e).log == Step(t.log, e)
  {
    hide Step;
  }

  lemma TrackKeepsChain(t: Tracked, path: Path, e: Event)
    requires Chain(t, path) && Allowed(t, path, e)
    ensures Chain(Track(t, path, e), path)
  {
    StepRecords(t.log, e);
    TrackLogs(t, path, e);
    hide Recorded, Linked, NoOthers, Opened, Track, Step;
    match e {
      case Begin(_, _, _, _) => BeginKeepsChain(t, path, e);
      case Write(_, _) => WriteKeepsChain(t, path, e);
      case Finish(id, readable) =>
        if t.open == Some(id) { FinishKeepsChain(t, path, id, readable); } else { FinishElsewhere(t, path, id, readable); }
      case Discard(_) => DiscardKeepsChain(t, path, e);
      case Undo(id, root, readable) =>
        if id in t.ids { UndoNewest(t, path, id, root, readable); } else { UndoElsewhere(t, path, id, root, readable); }
    }
  }

  /**
   * Safety over whole runs: as long as changes of the file do not overlap,
   * however they, their rollbacks and all work on other files interleave, the
   * file holds the top of the undo stack whenever no change of it is under way.
   */
  lemma {:induction false} StoreIsAnUndoStack(t: Tracked, path: Path, events: seq<Event>)
    requires Chain(t, path) && AllAllowed(t, path, events)
    ensures var u := TrackAll(t, path, events);
            Chain(u, path) && u.contents != [] && (u.open.None? ==> u.log.store.At(path) == Last(u.contents))
    decreases |events|
  {
    if events != [] {
      TrackKeepsChain(t, path, events[0]);
      hide Chain, Track;
      StoreIsAnUndoStack(Track(t, path, events[0]), path, events[1..]);
    }
  }

  function SeenOf(t: Tracked, path: Path, k: nat): Seen {
    if k < |t.ids| && t.ids[k] in t.log.seen then t.log.seen[t.ids[k]] else Seen(path, Missing, false, None)
  }

  /** From there, rolling back in reverse order restores every earlier content, down to the original. */
  lemma UnwindRestoresAll(t: Tracked, path: Path)
    requires Chain(t, path) && t.open.None?
    ensures var n, steps := |t.ids|, Unwind(t.log.store, path, t.ids);
            |steps| == n && forall k :: 0 <= k < n ==> steps[k] == (Ok(Restored), t.contents[n - 1 - k])
  {
    var n, s := |t.ids|, t.log.store;
    var seen := seq(n, k requires 0 <= k < n => SeenOf(t, path, k));
    forall k | 0 <= k < n
      ensures Captured(s, t.ids[k], seen[k]) && seen[k].path == path && seen[k].before == t.contents[k] && seen[k].after == Some(t.contents[k + 1])
      ensures t.ids[k] in s.metas && CanRollBack(s.metas[t.ids[k]], path)
    {
      assert Link(t.log, path, t.ids[k], t.contents[k], t.contents[k + 1]);
    }
    hide Captured, Recorded, Unwind, Link;
    assert Undoable(s, path, t.ids, seen);
    assert Consecutive(s, seen);
    UnwindSucceedsIff(s, path, t.ids, seen);
  }

  /** A file before any change of it. */
  function Untouched(store: Store, path: Path): Tracked {
    Tracked(Log(store, map[], map[]), [store.At(path)], [], None)
  }

  lemma UntouchedIsChain(store: Store, path: Path)
    requires store.metas == map[] && !store.At(path).Directory?
    ensures Chain(Untouched(store, path), path)
  {}

  lemma StackSize(t: Tracked, path: Path)
    requires Chain(t, path)
    ensures |t.contents| == |t.ids| + 1
  {}

  /** The bottom of the stack stays. */
  lemma BottomStays(t: Tracked, path: Path, e: Event)
    requires Chain(t, path)
    ensures Track(t, path, e).contents != [] && Track(t, path, e).contents[0] == t.contents[0]
  {
    StackSize(t, path);
    hide Chain, Step;
  }

  lemma {:induction false} TrackAllKeeps(t: Tracked, path: Path, events: seq<Event>)
    requires Chain(t, path) && AllAllowed(t, path, events)
    ensures TrackAll(t, path, events).contents != [] && t.contents != []
    ensures TrackAll(t, path, events).contents[0] == t.contents[0]
    decreases |events|
  {
    StackSize(t, path);
    if events != [] {
      BottomStays(t, path, events[0]);
      TrackKeepsChain(t, path, events[0]);
      hide Chain, Track;
      TrackAllKeeps(Track(t, path, events[0]), path, events[1..]);
    }
  }

  lemma {:induction false} TrackAllLast(t: Tracked, path: Path, events: seq<Event>)
    requires events != []
    ensures TrackAll(t, path, events) == Track(TrackAll(t, path, events[..|events| - 1]), path, events[|events| - 1])
    decreases |events|
  {
    hide Track;
    if |events| > 1 {
      var rest := events[1..];
      TrackAllLast(Track(t, path, events[0]), path, rest);
      assert rest[..|rest| - 1] == events[..|events| - 1][1..];
    }
  }

  /** The log beside the stack is that of the plain run. */
  lemma {:induction false} TrackAllLogs(store: Store, path: Path, events: seq<Event>)
    ensures TrackAll(Untouched(store, path), path, events).log == Run(store, events)
    decreases |events|
  {
    if events != [] {
      hide Track, Step;
      TrackAllLast(Untouched(store, path), path, events);
      TrackAllLogs(store, path, events[..|events| - 1]);
      TrackLogs(TrackAll(Untouched(store, path), path, events[..|events| - 1]), path, events[|events| - 1]);
    }
  }

  /**
   * The whole story: from a store without records, after any run in which the
   * changes of the file do not overlap, rolling back in reverse order what was
   * not rolled back yet succeeds at every step and ends with the file as it was
   * in the beginning.
   */
  lemma EveryRunUnwinds(store: Store, path: Path, events: seq<Event>)
    requires store.metas == map[] && !store.At(path).Directory?
    requires AllAllowed(Untouched(store, path), path, events)
    ensures var u := TrackAll(Untouched(store, path), path, events); var steps := Unwind(Run(store, events).store, path, u.ids);
            && u.log == Run(store, events)
            && (u.open.None? ==>
                  && |steps| == |u.ids| && AllRestored(steps)
                  && (if steps == [] then Run(store, events).store.At(path) else Last(steps).1) == store.At(path))
  {
    var t := Untouched(store, path);
    var u := TrackAll(t, path, events);
    assert t.contents[0] == store.At(path);
    UntouchedIsChain(store, path);
    hide Chain, Untouched, TrackAll, Unwind;
    StoreIsAnUndoStack(t, path, events);
    TrackAllKeeps(t, path, events);
    TrackAllLogs(store, path, events);
    StackSize(u, path);
    if u.open.None? { UnwindRestoresAll(u, path); }
  }

  /** Two changes of a file, prepared before either is written. */
  function Overlapping(path: Path, a: Node, b: Node, c: Node): Log {
    var start := Log(Store(map[path := a], map[], map[]), map[], map[]);
    var both := Step(Step(start, Begin("1", path, true, true)), Begin("2", path, true, true));
    Step(Step(Step(Step(both, Write(path, b)), Finish("1", true)), Write(path, c)), Finish("2", true))
  }

  lemma OverlappingIs(path: Path, a: Node, b: Node, c: Node)
    requires a.File? && b.File? && c.File? && |a.data| <= MAX_SNAPSHOT_BYTES
    ensures var s := Overlapping(path, a, b, c).store;
            && s.At(path) == c
            && Undoable(s, path, ["1", "2"], [Seen(path, a, true, Some(b)), Seen(path, a, true, Some(c))])
  {
    hide Rollback;
  }

  /** Rolling them back in reverse order fails: the first change did not end where the second began. */
  lemma OverlapFails(path: Path, a: Node, b: Node, c: Node)
    requires a.File? && b.File? && c.File? && |a.data| <= MAX_SNAPSHOT_BYTES && a != b
    ensures !AllRestored(Unwind(Overlapping(path, a, b, c).store, path, ["1", "2"]))
  {
    hide Overlapping, Unwind, AllRestored, Undoable;
    var seen := [Seen(path, a, true, Some(b)), Seen(path, a, true, Some(c))];
    OverlappingIs(path, a, b, c);
    UnwindSucceedsIff(Overlapping(path, a, b, c).store, path, ["1", "2"], seen);
    assert HashOf(seen[1].before) != HashOf(seen[0].after.value);
  }

  // ----- the store itself -----

  class ReviewStore {
    var files: map<Path, Node>
    var copies: map<SnapshotId, seq<byte>>
    var metas: map<SnapshotId, Meta>

    function Current(): Store
      reads this
    {
      Store(files, copies, metas)
    }

    method PrepareChange(id: SnapshotId, path: Path, hashed: bool, copied: bool) returns (pending: Pending)
      modifies this
      ensures (Current(), pending) == Prepare(old(Current()), id, path, hashed, copied)
    {
      var node := if path in files then files[path] else Missing;
      var beforeExists := node.File?;
      var beforeHash: Option<Digest> := None;
      if beforeExists && hashed {
        beforeHash := Some(Digest(node.data));
      }
      var beforeCopied := false;
      if beforeExists && |node.data| <= MAX_SNAPSHOT_BYTES && copied {
        copies := copies[id := node.data];
        beforeCopied := true;
      }
      pending := Pending(id, path, beforeExists, beforeHash, beforeCopied);
    }

    method FinalizeChange(pending: Pending, readable: bool) returns (r: Result<(ChangeStatus, bool), Failure>)
      modifies this
      ensures r.Ok? <==> CanFinalize(old(Current()), pending, readable)
      ensures r.Err? ==> Current() == old(Current())
      ensures r.Ok? ==> Current() == Finalize(old(Current()), pending)
      ensures r.Ok? ==> r.value.1 == metas[pending.id].reversible
      ensures r.Ok? ==> (r.value.0.Added? <==> !pending.beforeExists && old(Current()).At(pending.path).File?)
      ensures r.Ok? ==> (r.value.0.Deleted? <==> pending.beforeExists && !old(Current()).At(pending.path).File?)
    {
      var node := if pending.path in files then files[pending.path] else Missing;
      var afterExists := node.File?;
      var afterHash: Option<Digest> := None;
      if afterExists {
        if !readable {
          return Err(HashFailed);
        }
        afterHash := Some(Digest(node.data));
      }
      var status := match (pending.beforeExists, afterExists)
        case (false, true) => Added
        case (true, false) => Deleted
        case _ => Modified;
      var reversible := if pending.beforeExists then pending.beforeCopied else afterExists;
      var meta := Meta(pending.path, pending.beforeExists, pending.beforeHash, afterExists, afterHash, reversible, Active);
      metas := metas[pending.id := meta];
      return Ok((status, reversible));
    }

    method DiscardChange(pending: Pending)
      modifies this`copies
      ensures Current() == old(Current()).(copies := old(copies) - {pending.id})
    {
      copies := copies - {pending.id};
    }

    method RollbackChange(id: SnapshotId, root: bool, readable: bool) returns (r: Result<Outcome, Failure>)
      modifies this
      ensures (Current(), r) == Rollback(old(Current()), id, root, readable)
    {
      if id !in metas {
        return Err(SnapshotNotFound);
      }
      var meta := metas[id];
      if meta.state == RolledBack {
        return Ok(AlreadyRolledBack);
      }
      if !meta.reversible {
        return Ok(Unavailable);
      }
      if !root {
        return Ok(Unavailable);
      }
      var target := if meta.path in files then files[meta.path] else Missing;
      var currentHash: Option<Digest> := None;
      if target.File? && readable {
        currentHash := Some(Digest(target.data));
      }
      var same := match (meta.afterHash, target.File?)
        case (Some(expected), true) => currentHash == Some(expected)
        case (None, false) => true
        case _ => false;
      if !same {
        return Ok(Conflict);
      }
      if meta.beforeExists {
        if id !in copies || |copies[id]| > MAX_SNAPSHOT_BYTES || target.Directory? {
          return Err(RestoreFailed);
        }
        files := files[meta.path := File(copies[id])];
      } else {
        if target.Directory? {
          return Ok(Unavailable);
        }
        files := files[meta.path := Missing];
      }
      metas := metas[id := meta.(state := RolledBack)];
      return Ok(Restored);
    }
  }
}
