/**
 * The queue of prompts waiting for a session: a table with a position and an
 * optional priority per row, sorted when it is read
 * (crates/host-core/src/turn_queue.rs). It behaves as two sequences a session.
 */
module TurnQueue {
  import opened Wrappers
  import opened Whitespace

  const MAX_QUEUED_TURNS_PER_SESSION: nat := 8

  type Id = string

  /** What a row carries; content stands for all the columns nothing here reads. */
  datatype Turn = Turn(id: Id, session: string, principal: string, key: Option<string>, inputHash: string, content: string)

  datatype Row = Row(turn: Turn, position: int, priority: Option<int>)

  datatype Input = Input(
    id: Option<Id>, session: string, principal: string, key: Option<string>, inputHash: string, content: string)

  datatype Direction = Up | Down

  datatype Reply =
    | Entry(row: Row)
    | SessionNotFound
    | IdempotencyConflict
    | QueueFull
    | IdTaken
    | AlreadyPrioritized
    | NotQueued
    | Done(changed: bool)

  /** The rows, in the order they were inserted. */
  type Table = seq<Row>

  // ----- the queries -----

  /** SQL's MAX over one session: NULLs do not count, and there may be nothing to maximise. */
  function MaxOf(t: Table, session: string, column: Row -> Option<int>): (m: Option<int>)
    ensures forall r :: r in t && r.turn.session == session && column(r).Some? ==> m.Some? && column(r).value <= m.value
  {
    if t == [] then None
    else
      var rest := MaxOf(t[1..], session, column);
      var here := if t[0].turn.session == session then column(t[0]) else None;
      if here.None? then rest
      else if rest.None? || rest.value < here.value then here
      else rest
  }

  function Coalesce(m: Option<int>): int {
    if m.Some? then m.value else 0
  }

  function PositionColumn(r: Row): Option<int> {
    Some(r.position)
  }

  function PriorityColumn(r: Row): Option<int> {
    r.priority
  }

  function CountIn(t: Table, session: string): nat {
    if t == [] then 0 else CountIn(t[1..], session) + (if t[0].turn.session == session then 1 else 0)
  }

  predicate SameKey(r: Row, session: string, principal: string, key: Option<string>) {
    r.turn.session == session && r.turn.principal == principal && r.turn.key == key && key.Some?
  }

  function ByKey(t: Table, session: string, principal: string, key: Option<string>): (found: Option<Row>)
    ensures found.None? ==> forall r :: r in t ==> !SameKey(r, session, principal, key)
    ensures found.Some? ==> found.value in t && SameKey(found.value, session, principal, key)
  {
    if t == [] then None
    else if SameKey(t[0], session, principal, key) then Some(t[0])
    else ByKey(t[1..], session, principal, key)
  }

  function ById(t: Table, id: Id): (found: Option<Row>)
    ensures found.None? ==> forall r :: r in t ==> r.turn.id != id
    ensures found.Some? ==> found.value in t && found.value.turn.id == id
  {
    if t == [] then None else if t[0].turn.id == id then Some(t[0]) else ById(t[1..], id)
  }

  predicate IsPlain(r: Row, session: string) {
    r.turn.session == session && r.priority.None?
  }

  /** A plain row of the session strictly on one side of a position. */
  predicate Beside(r: Row, session: string, position: int, d: Direction) {
    IsPlain(r, session) && if d.Up? then r.position < position else r.position > position
  }

  predicate Nearer(a: Row, b: Row, d: Direction) {
    if d.Up? then a.position >= b.position else a.position <= b.position
  }

  /** The nearest plain row on that side. */
  function Neighbour(t: Table, session: string, position: int, d: Direction): (found: Option<Row>)
    ensures found.None? ==> forall r :: r in t ==> !Beside(r, session, position, d)
    ensures found.Some? ==> found.value in t && Beside(found.value, session, position, d)
    ensures found.Some? ==> forall r :: r in t && Beside(r, session, position, d) ==> Nearer(found.value, r, d)
  {
    if t == [] then None
    else
      var rest := Neighbour(t[1..], session, position, d);
      if !Beside(t[0], session, position, d) then rest
      else if rest.None? || Nearer(t[0], rest.value, d) then Some(t[0])
      else rest
  }

  // ----- the updates -----

  function Delete(t: Table, id: Id): Table {
    if t == [] then [] else (if t[0].turn.id == id then [] else [t[0]]) + Delete(t[1..], id)
  }

  function SetPosition(t: Table, id: Id, position: int): Table {
    seq(|t|, k requires 0 <= k < |t| => if t[k].turn.id == id then t[k].(position := position) else t[k])
  }

  function SetPriority(t: Table, id: Id, priority: int): Table {
    seq(|t|, k requires 0 <= k < |t| => if t[k].turn.id == id then t[k].(priority := Some(priority)) else t[k])
  }

  // ----- the operations -----

  /** The id a push inserts: the client's unless it is blank. */
  function IdOf(input: Input, minted: Id): Id {
    if input.id.Some? && !IsBlank(input.id.value) then input.id.value else minted
  }

  function NewRow(t: Table, input: Input, minted: Id): Row {
    Row(Turn(IdOf(input, minted), input.session, input.principal, input.key, input.inputHash, input.content),
        Coalesce(MaxOf(t, input.session, PositionColumn)) + 1, None)
  }

  function Push(t: Table, sessions: set<string>, input: Input, minted: Id): (Table, Reply) {
    if input.session !in sessions then (t, SessionNotFound)
    else
      var existing := ByKey(t, input.session, input.principal, input.key);
      if existing.Some? then
        (t, if existing.value.turn.inputHash == input.inputHash then Entry(existing.value) else IdempotencyConflict)
      else if CountIn(t, input.session) >= MAX_QUEUED_TURNS_PER_SESSION then (t, QueueFull)
      else if ById(t, IdOf(input, minted)).Some? then (t, IdTaken)
      else
        var row := NewRow(t, input, minted);
        (t + [row], Entry(row))
  }

  function Remove(t: Table, id: Id): (Table, Reply) {
    (Delete(t, id), Done(ById(t, id).Some?))
  }

  function Prioritize(t: Table, id: Id): (Table, Reply) {
    var found := ById(t, id);
    if found.None? then (t, NotQueued)
    else if found.value.priority.Some? then (t, AlreadyPrioritized)
    else
      var next := Coalesce(MaxOf(t, found.value.turn.session, PriorityColumn)) + 1;
      (SetPriority(t, id, next), Entry(found.value.(priority := Some(next))))
  }

  function Reorder(t: Table, id: Id, d: Direction): (Table, Reply) {
    var found := ById(t, id);
    if found.None? || found.value.priority.Some? then (t, Done(false))
    else
      var other := Neighbour(t, found.value.turn.session, found.value.position, d);
      if other.None? then (t, Done(false))
      else (SetPosition(SetPosition(t, id, other.value.position), other.value.turn.id, found.value.position), Done(true))
  }

  datatype Command =
    | CPush(input: Input, minted: Id)
    | CRemove(id: Id)
    | CPrioritize(id: Id)
    | CReorder(id: Id, direction: Direction)

  function Step(t: Table, sessions: set<string>, c: Command): (Table, Reply) {
    match c
    case CPush(input, minted) => Push(t, sessions, input, minted)
    case CRemove(id) => Remove(t, id)
    case CPrioritize(id) => Prioritize(t, id)
    case CReorder(id, d) => Reorder(t, id, d)
  }

  function Run(sessions: set<string>, commands: seq<Command>): Table {
    if commands == [] then []
    else Step(Run(sessions, commands[..|commands| - 1]), sessions, commands[|commands| - 1]).0
  }

  // ----- what every run keeps -----

  /** Two rows of one table: own ids; in one session also own positions, own priorities and own keys. */
  predicate Compatible(a: Row, b: Row) {
    && a.turn.id != b.turn.id
    && (a.turn.session == b.turn.session ==>
          && a.position != b.position
          && (a.priority.Some? ==> a.priority != b.priority)
          && !(a.turn.principal == b.turn.principal && a.turn.key.Some? && a.turn.key == b.turn.key))
  }

  ghost predicate AllCompatible(t: Table) {
    forall i, j :: 0 <= i < |t| && 0 <= j < |t| && i != j ==> Compatible(t[i], t[j])
  }

  ghost predicate Sound(t: Table) {
    AllCompatible(t) && forall session :: CountIn(t, session) <= MAX_QUEUED_TURNS_PER_SESSION
  }

  lemma {:induction false} CountConcat(a: Table, b: Table, session: string)
    ensures CountIn(a + b, session) == CountIn(a, session) + CountIn(b, session)
  {
    if a == [] {
      assert a + b == b;
    } else {
      assert (a + b)[1..] == a[1..] + b;
      CountConcat(a[1..], b, session);
    }
  }

  lemma {:induction false} CountSame(a: Table, b: Table, session: string)
    requires |a| == |b| && forall k :: 0 <= k < |a| ==> a[k].turn.session == b[k].turn.session
    ensures CountIn(a, session) == CountIn(b, session)
  {
    if a != [] { CountSame(a[1..], b[1..], session); }
  }

  lemma {:induction false} DeleteKeeps(t: Table, id: Id, session: string)
    ensures forall r :: r in Delete(t, id) <==> r in t && r.turn.id != id
    ensures CountIn(Delete(t, id), session) <= CountIn(t, session)
  {
    if t != [] {
      DeleteKeeps(t[1..], id, session);
      CountConcat(if t[0].turn.id == id then [] else [t[0]], Delete(t[1..], id), session);
    }
  }

  lemma CompatibleMembers(t: Table, a: Row, b: Row)
    requires AllCompatible(t) && a in t && b in t && a != b
    ensures Compatible(a, b)
  {
    var i :| 0 <= i < |t| && t[i] == a;
    var j :| 0 <= j < |t| && t[j] == b;
  }

  lemma HeadCompatible(r: Row, t: Table, x: Row)
    requires AllCompatible([r] + t) && x in t
    ensures Compatible(r, x) && Compatible(x, r)
  {
    hide Compatible;
    var k :| 0 <= k < |t| && t[k] == x;
    assert ([r] + t)[0] == r && ([r] + t)[k + 1] == x;
  }

  lemma ConsCompatible(r: Row, t: Table, kept: Table)
    requires AllCompatible([r] + t) && AllCompatible(kept)
    requires forall x :: x in kept ==> x in t
    ensures AllCompatible([r] + kept)
  {
    hide Compatible;
    var all := [r] + kept;
    forall i, j | 0 <= i < |all| && 0 <= j < |all| && i != j ensures Compatible(all[i], all[j]) {
      if i == 0 {
        HeadCompatible(r, t, all[j]);
      } else if j == 0 {
        HeadCompatible(r, t, all[i]);
      } else {
        assert all[i] == kept[i - 1] && all[j] == kept[j - 1];
      }
    }
  }

  lemma {:induction false} DeleteCompatible(t: Table, id: Id)
    requires AllCompatible(t)
    ensures AllCompatible(Delete(t, id))
  {
    hide Compatible;
    if t != [] {
      assert forall i, j :: 0 <= i < |t[1..]| && 0 <= j < |t[1..]| && i != j ==> Compatible(t[1..][i], t[1..][j]);
      DeleteCompatible(t[1..], id);
      if t[0].turn.id != id {
        DeleteKeeps(t[1..], id, "");
        ConsCompatible(t[0], t[1..], Delete(t[1..], id));
      }
    }
  }

  /** One row changed, and still compatible with every other: the table stays compatible. */
  lemma ChangedCompatible(t: Table, after: Table, old_: Row, new_: Row)
    requires AllCompatible(t) && old_ in t && |after| == |t| && new_.turn.id == old_.turn.id
    requires forall k :: 0 <= k < |t| ==> after[k] == if t[k].turn.id == old_.turn.id then new_ else t[k]
    requires forall x :: x in t && x != old_ ==> Compatible(x, new_) && Compatible(new_, x)
    ensures AllCompatible(after)
  {
    forall i, j | 0 <= i < |after| && 0 <= j < |after| && i != j ensures Compatible(after[i], after[j]) {
      assert Compatible(t[i], t[j]);
      assert t[i] in t && t[j] in t;
    }
  }

  // ----- the two sequences -----

  function PositionKey(r: Row): int {
    r.position
  }

  function PriorityKey(r: Row): int {
    if r.priority.Some? then r.priority.value else 0
  }

  function Insert(r: Row, q: seq<Row>, key: Row -> int): seq<Row> {
    if q == [] || key(r) < key(q[0]) then [r] + q else [q[0]] + Insert(r, q[1..], key)
  }

  predicate InQueue(r: Row, session: string, promoted: bool) {
    r.turn.session == session && r.priority.Some? == promoted
  }

  function KeyOf(promoted: bool): Row -> int {
    if promoted then PriorityKey else PositionKey
  }

  /** The rows of one session, promoted or plain, sorted by their own column. */
  function Sorted(t: Table, session: string, promoted: bool): seq<Row> {
    if t == [] then []
    else
      var rest := Sorted(t[1..], session, promoted);
      if InQueue(t[0], session, promoted) then Insert(t[0], rest, KeyOf(promoted)) else rest
  }

  ghost predicate Increasing(q: seq<Row>, key: Row -> int) {
    forall i, j :: 0 <= i < j < |q| ==> key(q[i]) < key(q[j])
  }

  /** q is the promoted or the plain queue of the session. */
  ghost predicate IsQueue(t: Table, session: string, promoted: bool, q: seq<Row>) {
    && (forall r :: r in q <==> r in t && InQueue(r, session, promoted))
    && Increasing(q, KeyOf(promoted))
  }

  lemma {:induction false} InsertIn(r: Row, q: seq<Row>, key: Row -> int)
    ensures forall x :: x in Insert(r, q, key) <==> x == r || x in q
  {
    if !(q == [] || key(r) < key(q[0])) {
      InsertIn(r, q[1..], key);
      assert q == [q[0]] + q[1..];
    }
  }

  lemma {:induction false} InsertIncreasing(r: Row, q: seq<Row>, key: Row -> int)
    requires Increasing(q, key) && forall x :: x in q ==> key(x) != key(r)
    ensures Increasing(Insert(r, q, key), key)
  {
    if q == [] || key(r) < key(q[0]) {
    } else {
      InsertIncreasing(r, q[1..], key);
      InsertIn(r, q[1..], key);
      var rest := Insert(r, q[1..], key);
      assert q[0] in q;
      forall k | 0 <= k < |rest| ensures key(q[0]) < key(rest[k]) {
        assert rest[k] in rest;
      }
    }
  }

  lemma {:induction false} SortedIsQueue(t: Table, session: string, promoted: bool)
    requires AllCompatible(t)
    ensures IsQueue(t, session, promoted, Sorted(t, session, promoted))
  {
    if t != [] {
      hide Insert;
      var rest := Sorted(t[1..], session, promoted);
      SortedIsQueue(t[1..], session, promoted);
      if InQueue(t[0], session, promoted) {
        InsertIn(t[0], rest, KeyOf(promoted));
        forall x | x in rest ensures KeyOf(promoted)(x) != KeyOf(promoted)(t[0]) {
          assert x in t[1..];
          assert t == [t[0]] + t[1..];
          HeadCompatible(t[0], t[1..], x);
        }
        InsertIncreasing(t[0], rest, KeyOf(promoted));
      }
    }
  }

  lemma FirstMember(q: seq<Row>)
    ensures q != [] ==> q[0] in q
  {}

  lemma TailMembers(a: seq<Row>, key: Row -> int, r: Row)
    requires a != [] && Increasing(a, key)
    ensures r in a[1..] <==> r in a && r != a[0]
  {
    if r in a && r != a[0] {
      var k :| 0 <= k < |a| && a[k] == r;
      assert a[1..][k - 1] == r;
    }
  }

  /** A queue is determined by the rows in it. */
  lemma {:induction false} IncreasingUnique(a: seq<Row>, b: seq<Row>, key: Row -> int)
    requires Increasing(a, key) && Increasing(b, key) && forall r :: r in a <==> r in b
    ensures a == b
  {
    if a == [] {
      FirstMember(b);
    } else {
      assert a[0] in a;
      assert b != [];
      assert b[0] in b;
      assert a[0] == b[0];
      forall r ensures r in a[1..] <==> r in b[1..] {
        TailMembers(a, key, r);
        TailMembers(b, key, r);
      }
      IncreasingUnique(a[1..], b[1..], key);
    }
  }

  lemma QueueIs(t: Table, session: string, promoted: bool, q: seq<Row>)
    requires AllCompatible(t) && IsQueue(t, session, promoted, q)
    ensures Sorted(t, session, promoted) == q
  {
    SortedIsQueue(t, session, promoted);
    IncreasingUnique(Sorted(t, session, promoted), q, KeyOf(promoted));
  }

  // ----- what a client sees -----

  /** One session's turns in delivery order: the promoted ones, then the plain ones. */
  datatype View = View(promoted: seq<Turn>, plain: seq<Turn>)

  function Turns(q: seq<Row>): seq<Turn> {
    seq(|q|, k requires 0 <= k < |q| => q[k].turn)
  }

  function ViewOf(t: Table, session: string): View {
    View(Turns(Sorted(t, session, true)), Turns(Sorted(t, session, false)))
  }

  function Without(turns: seq<Turn>, id: Id): seq<Turn> {
    if turns == [] then [] else (if turns[0].id == id then [] else [turns[0]]) + Without(turns[1..], id)
  }

  function Find(turns: seq<Turn>, id: Id): (k: nat)
    ensures k <= |turns| && (k < |turns| ==> turns[k].id == id)
    ensures forall j :: 0 <= j < k ==> turns[j].id != id
  {
    if turns == [] || turns[0].id == id then 0 else 1 + Find(turns[1..], id)
  }

  function Exchange(turns: seq<Turn>, i: nat, j: nat): seq<Turn>
    requires i < |turns| && j < |turns|
  {
    turns[i := turns[j]][j := turns[i]]
  }

  function Moved(plain: seq<Turn>, id: Id, d: Direction): seq<Turn> {
    var k := Find(plain, id);
    if k == |plain| then plain
    else if d.Up? then (if k == 0 then plain else Exchange(plain, k, k - 1))
    else if k + 1 == |plain| then plain else Exchange(plain, k, k + 1)
  }

  function Promoted(v: View, id: Id): View {
    var k := Find(v.plain, id);
    if k == |v.plain| then v else View(v.promoted + [v.plain[k]], Without(v.plain, id))
  }

  /** A push is accepted into a session known, not full, with a new key and an id not in use. */
  predicate Accepts(t: Table, sessions: set<string>, input: Input, minted: Id) {
    && input.session in sessions
    && ByKey(t, input.session, input.principal, input.key).None?
    && |ViewOf(t, input.session).promoted| + |ViewOf(t, input.session).plain| < MAX_QUEUED_TURNS_PER_SESSION
    && ById(t, IdOf(input, minted)).None?
  }

  /** What a command does to one session's two sequences. */
  function ViewAfter(v: View, session: string, c: Command, accepted: bool): View {
    match c
    case CPush(input, minted) =>
      if accepted && input.session == session
      then v.(plain := v.plain + [Turn(IdOf(input, minted), session, input.principal, input.key, input.inputHash, input.content)])
      else v
    case CRemove(id) => View(Without(v.promoted, id), Without(v.plain, id))
    case CPrioritize(id) => Promoted(v, id)
    case CReorder(id, d) => v.(plain := Moved(v.plain, id, d))
  }

  // ----- remove -----

  lemma {:induction false} DeleteIncreasing(q: seq<Row>, id: Id, key: Row -> int)
    requires Increasing(q, key)
    ensures Increasing(Delete(q, id), key)
  {
    if q != [] {
      DeleteIncreasing(q[1..], id, key);
      DeleteKeeps(q[1..], id, "");
      var rest := Delete(q[1..], id);
      forall k | 0 <= k < |rest| ensures key(q[0]) < key(rest[k]) {
        assert rest[k] in rest;
      }
    }
  }

  lemma {:induction false} TurnsDelete(q: seq<Row>, id: Id)
    ensures Turns(Delete(q, id)) == Without(Turns(q), id)
  {
    if q != [] {
      TurnsDelete(q[1..], id);
      assert Turns(q)[1..] == Turns(q[1..]);
      var front := if q[0].turn.id == id then [] else [q[0]];
      assert Turns(front + Delete(q[1..], id)) == Turns(front) + Turns(Delete(q[1..], id));
    }
  }

  lemma RemoveRefines(t: Table, id: Id, session: string, promoted: bool)
    requires AllCompatible(t)
    ensures Sorted(Delete(t, id), session, promoted) == Delete(Sorted(t, session, promoted), id)
  {
    var q := Sorted(t, session, promoted);
    SortedIsQueue(t, session, promoted);
    DeleteKeeps(t, id, session);
    DeleteKeeps(q, id, session);
    DeleteIncreasing(q, id, KeyOf(promoted));
    DeleteCompatible(t, id);
    hide Delete, Sorted, InQueue, KeyOf;
    QueueIs(Delete(t, id), session, promoted, Delete(q, id));
  }

  // ----- push -----

  lemma {:induction false} MaxOfIs(t: Table, session: string)
    ensures forall r :: r in t && r.turn.session == session ==> r.position < Coalesce(MaxOf(t, session, PositionColumn)) + 1
    ensures forall r :: r in t && r.turn.session == session && r.priority.Some? ==>
              r.priority.value < Coalesce(MaxOf(t, session, PriorityColumn)) + 1
  {
    forall r | r in t && r.turn.session == session
      ensures r.position < Coalesce(MaxOf(t, session, PositionColumn)) + 1
    {
      assert PositionColumn(r).Some?;
    }
    forall r | r in t && r.turn.session == session && r.priority.Some?
      ensures r.priority.value < Coalesce(MaxOf(t, session, PriorityColumn)) + 1
    {
      assert PriorityColumn(r).Some?;
    }
  }

  /** Nothing in the table stands in the way of the new row. */
  predicate Fresh(t: Table, row: Row) {
    && row.priority.None?
    && (forall r :: r in t ==> r.turn.id != row.turn.id)
    && (forall r :: r in t && r.turn.session == row.turn.session ==> r.position < row.position)
    && (forall r :: r in t ==> !SameKey(r, row.turn.session, row.turn.principal, row.turn.key))
  }

  lemma PushCompatible(t: Table, row: Row)
    requires AllCompatible(t) && Fresh(t, row)
    ensures AllCompatible(t + [row])
  {
    var all := t + [row];
    forall i, j | 0 <= i < |all| && 0 <= j < |all| && i != j ensures Compatible(all[i], all[j]) {
      if i < |t| { assert t[i] in t; }
      if j < |t| { assert t[j] in t; }
    }
  }

  lemma PushRefines(t: Table, row: Row, session: string, promoted: bool)
    requires AllCompatible(t) && Fresh(t, row)
    ensures Sorted(t + [row], session, promoted) ==
            if !promoted && row.turn.session == session then Sorted(t, session, promoted) + [row] else Sorted(t, session, promoted)
  {
    var q := Sorted(t, session, promoted);
    SortedIsQueue(t, session, promoted);
    PushCompatible(t, row);
    hide Sorted;
    if !promoted && row.turn.session == session {
      forall k | 0 <= k < |q| ensures q[k].position < row.position {
        assert q[k] in q;
      }
    }
    QueueIs(t + [row], session, promoted, if !promoted && row.turn.session == session then q + [row] else q);
  }

  // ----- prioritize -----

  lemma SetPriorityIs(t: Table, row: Row, priority: int)
    requires AllCompatible(t) && row in t
    ensures forall r :: r in SetPriority(t, row.turn.id, priority) <==> r == row.(priority := Some(priority)) || (r in t && r != row)
  {
    var after, new_ := SetPriority(t, row.turn.id, priority), row.(priority := Some(priority));
    forall k | 0 <= k < |t| ensures after[k] == if t[k] == row then new_ else t[k] {
      if t[k] != row { CompatibleMembers(t, t[k], row); }
    }
    forall r | r in t && r != row ensures r in after {
      var k :| 0 <= k < |t| && t[k] == r;
      assert after[k] == r;
    }
    var k :| 0 <= k < |t| && t[k] == row;
    assert after[k] == new_;
  }

  lemma PrioritizeCompatible(t: Table, row: Row, priority: int)
    requires AllCompatible(t) && row in t && row.priority.None?
    requires forall r :: r in t && r.turn.session == row.turn.session && r.priority.Some? ==> r.priority.value < priority
    ensures AllCompatible(SetPriority(t, row.turn.id, priority))
  {
    var after, new_ := SetPriority(t, row.turn.id, priority), row.(priority := Some(priority));
    forall x | x in t && x != row ensures Compatible(x, new_) && Compatible(new_, x) {
      CompatibleMembers(t, x, row);
      CompatibleMembers(t, row, x);
    }
    forall k | 0 <= k < |t| ensures after[k] == if t[k].turn.id == row.turn.id then new_ else t[k] {
      assert t[k] in t;
      if t[k] != row { CompatibleMembers(t, t[k], row); }
    }
    ChangedCompatible(t, after, row, new_);
  }

  lemma DistinctIds(t: Table, a: Row, b: Row)
    requires AllCompatible(t) && a in t && b in t && a != b
    ensures a.turn.id != b.turn.id
  {
    CompatibleMembers(t, a, b);
  }

  lemma PrioritizeRefines(t: Table, row: Row, priority: int, promoted: bool)
    requires AllCompatible(t) && row in t && row.priority.None?
    requires forall r :: r in t && r.turn.session == row.turn.session && r.priority.Some? ==> r.priority.value < priority
    ensures Sorted(SetPriority(t, row.turn.id, priority), row.turn.session, promoted) ==
            if promoted then Sorted(t, row.turn.session, true) + [row.(priority := Some(priority))]
            else Delete(Sorted(t, row.turn.session, false), row.turn.id)
  {
    var session := row.turn.session;
    var q, after := Sorted(t, session, promoted), SetPriority(t, row.turn.id, priority);
    SortedIsQueue(t, session, promoted);
    PrioritizeCompatible(t, row, priority);
    SetPriorityIs(t, row, priority);
    hide Sorted, SetPriority, Delete, Compatible;
    if promoted {
      forall k | 0 <= k < |q| ensures PriorityKey(q[k]) < priority {
        assert q[k] in q;
      }
      QueueIs(after, session, promoted, q + [row.(priority := Some(priority))]);
    } else {
      DeleteKeeps(q, row.turn.id, session);
      DeleteIncreasing(q, row.turn.id, KeyOf(promoted));
      forall r | r in t && r != row ensures r.turn.id != row.turn.id {
        DistinctIds(t, r, row);
      }
      QueueIs(after, session, promoted, Delete(q, row.turn.id));
    }
  }

  /** A change to rows of one session leaves the queues of the others as they are. */
  lemma OtherSession(t: Table, after: Table, session: string, promoted: bool)
    requires AllCompatible(t) && AllCompatible(after)
    requires forall r: Row :: r.turn.session == session ==> (r in after <==> r in t)
    ensures Sorted(after, session, promoted) == Sorted(t, session, promoted)
  {
    SortedIsQueue(t, session, promoted);
    hide Sorted, AllCompatible;
    QueueIs(after, session, promoted, Sorted(t, session, promoted));
  }

  // ----- reorder -----

  function Swap(t: Table, a: Row, b: Row): Table {
    SetPosition(SetPosition(t, a.turn.id, b.position), b.turn.id, a.position)
  }

  function Exchanged(r: Row, a: Row, b: Row): Row {
    if r == a then a.(position := b.position) else if r == b then b.(position := a.position) else r
  }

  lemma SwapIs(t: Table, a: Row, b: Row)
    requires AllCompatible(t) && a in t && b in t && a != b
    ensures |Swap(t, a, b)| == |t|
    ensures forall k :: 0 <= k < |t| ==> Swap(t, a, b)[k] == Exchanged(t[k], a, b)
  {
    DistinctIds(t, a, b);
    forall k | 0 <= k < |t|
      ensures Swap(t, a, b)[k] == Exchanged(t[k], a, b)
    {
      assert t[k] in t;
      if t[k] != a { DistinctIds(t, t[k], a); }
      if t[k] != b { DistinctIds(t, t[k], b); }
    }
  }

  lemma SwapMembers(t: Table, a: Row, b: Row)
    requires AllCompatible(t) && a in t && b in t && a != b
    ensures forall r :: r in Swap(t, a, b) <==>
              r == a.(position := b.position) || r == b.(position := a.position) || (r in t && r != a && r != b)
  {
    SwapIs(t, a, b);
    hide Swap, AllCompatible;
    var after := Swap(t, a, b);
    forall r | r in t && r != a && r != b ensures r in after {
      var k :| 0 <= k < |t| && t[k] == r;
      assert after[k] == r;
    }
    var k :| 0 <= k < |t| && t[k] == a;
    assert after[k] == a.(position := b.position);
    var l :| 0 <= l < |t| && t[l] == b;
    assert after[l] == b.(position := a.position);
  }

  lemma SwapCompatible(t: Table, a: Row, b: Row)
    requires AllCompatible(t) && a in t && b in t && a != b && a.turn.session == b.turn.session
    ensures AllCompatible(Swap(t, a, b))
  {
    SwapIs(t, a, b);
    hide Swap;
    var after := Swap(t, a, b);
    CompatibleMembers(t, a, b);
    CompatibleMembers(t, b, a);
    forall i, j | 0 <= i < |after| && 0 <= j < |after| && i != j ensures Compatible(after[i], after[j]) {
      assert Compatible(t[i], t[j]);
      if t[i] != a { CompatibleMembers(t, t[i], a); }
      if t[i] != b { CompatibleMembers(t, t[i], b); }
      if t[j] != a { CompatibleMembers(t, a, t[j]); }
      if t[j] != b { CompatibleMembers(t, b, t[j]); }
    }
  }

  lemma PlaceIn(q: seq<Row>, r: Row) returns (j: nat)
    requires r in q
    ensures j < |q| && q[j] == r && PositionKey(q[j]) == r.position && j < |Turns(q)| && Turns(q)[j] == r.turn
  {
    j :| 0 <= j < |q| && q[j] == r;
  }

  lemma NearestIs(t: Table, session: string, q: seq<Row>, k: nat, m: nat, d: Direction)
    requires IsQueue(t, session, false, q)
    requires k < |q| && m < |q| && if d.Up? then m + 1 == k else m == k + 1
    ensures Neighbour(t, session, q[k].position, d) == Some(q[m])
  {
    hide Neighbour;
    var found := Neighbour(t, session, q[k].position, d);
    assert q[m] in q;
    assert PositionKey(q[m]) == q[m].position && PositionKey(q[k]) == q[k].position;
    assert Beside(q[m], session, q[k].position, d);
    assert found.Some?;
    var j := PlaceIn(q, found.value);
    assert PositionKey(q[j]) == q[j].position;
  }

  lemma NoneNear(t: Table, session: string, q: seq<Row>, k: nat, d: Direction)
    requires IsQueue(t, session, false, q)
    requires k < |q| && if d.Up? then k == 0 else k + 1 == |q|
    ensures Neighbour(t, session, q[k].position, d) == None
  {
    hide Neighbour;
    var found := Neighbour(t, session, q[k].position, d);
    assert PositionKey(q[k]) == q[k].position;
    if found.Some? {
      var j := PlaceIn(q, found.value);
    }
  }

  /** The nearest plain row on a side is the neighbour in the plain queue. */
  lemma NeighbourIs(t: Table, session: string, k: nat, d: Direction)
    requires AllCompatible(t) && k < |Sorted(t, session, false)|
    ensures var q := Sorted(t, session, false);
            Neighbour(t, session, q[k].position, d) ==
              if d.Up? then (if k == 0 then None else Some(q[k - 1]))
              else if k + 1 == |q| then None else Some(q[k + 1])
  {
    hide *;
    var q := Sorted(t, session, false);
    SortedIsQueue(t, session, false);
    if if d.Up? then k == 0 else k + 1 == |q| {
      NoneNear(t, session, q, k, d);
    } else {
      NearestIs(t, session, q, k, if d.Up? then k - 1 else k + 1, d);
    }
  }

  /** The rows at two places exchange places, but the positions stay where they are. */
  function SwappedAt(q: seq<Row>, i: nat, j: nat): seq<Row>
    requires i < |q| && j < |q|
  {
    q[i := q[j].(position := q[i].position)][j := q[i].(position := q[j].position)]
  }

  lemma SwappedMembers(q: seq<Row>, i: nat, j: nat)
    requires i < |q| && j < |q| && i != j && Increasing(q, PositionKey)
    ensures Increasing(SwappedAt(q, i, j), PositionKey)
    ensures forall r :: r in SwappedAt(q, i, j) <==>
              r == q[i].(position := q[j].position) || r == q[j].(position := q[i].position) ||
              (r in q && r != q[i] && r != q[j])
  {
    var after := SwappedAt(q, i, j);
    assert forall k :: 0 <= k < |q| ==> PositionKey(after[k]) == PositionKey(q[k]);
    assert after[i] in after && after[j] in after;
    forall r | r in q && r != q[i] && r != q[j] ensures r in after {
      var k :| 0 <= k < |q| && q[k] == r;
      assert after[k] == r;
    }
    forall r | r in after && r != after[i] && r != after[j] ensures r in q && r != q[i] && r != q[j] {
      var k :| 0 <= k < |q| && after[k] == r;
      assert PositionKey(q[k]) != PositionKey(q[i]) && PositionKey(q[k]) != PositionKey(q[j]);
    }
  }

  lemma SwapRefines(t: Table, session: string, i: nat, j: nat)
    requires AllCompatible(t)
    requires i < |Sorted(t, session, false)| && j < |Sorted(t, session, false)| && i != j
    ensures var q := Sorted(t, session, false);
            && q[i] in t && q[j] in t && q[i] != q[j]
            && q[i].turn.session == q[j].turn.session == session
            && AllCompatible(Swap(t, q[i], q[j]))
            && Sorted(Swap(t, q[i], q[j]), session, false) == SwappedAt(q, i, j)
  {
    var q := Sorted(t, session, false);
    SortedIsQueue(t, session, false);
    hide Sorted, Swap, AllCompatible;
    assert q[i] in q && q[j] in q;
    assert PositionKey(q[i]) != PositionKey(q[j]);
    SwapMembers(t, q[i], q[j]);
    SwapCompatible(t, q[i], q[j]);
    SwappedMembers(q, i, j);
    QueueIs(Swap(t, q[i], q[j]), session, false, SwappedAt(q, i, j));
  }

  // ----- every command -----

  lemma {:induction false} InsertLength(r: Row, q: seq<Row>, key: Row -> int)
    ensures |Insert(r, q, key)| == |q| + 1
  {
    if !(q == [] || key(r) < key(q[0])) { InsertLength(r, q[1..], key); }
  }

  lemma {:induction false} QueueLengths(t: Table, session: string)
    ensures |Sorted(t, session, true)| + |Sorted(t, session, false)| == CountIn(t, session)
  {
    if t != [] {
      QueueLengths(t[1..], session);
      InsertLength(t[0], Sorted(t[1..], session, true), KeyOf(true));
      InsertLength(t[0], Sorted(t[1..], session, false), KeyOf(false));
    }
  }

  /** A push inserts its row exactly when the view says so. */
  lemma PushAccepted(t: Table, sessions: set<string>, input: Input, minted: Id)
    requires Sound(t)
    ensures var (after, reply) := Push(t, sessions, input, minted);
            if Accepts(t, sessions, input, minted)
            then after == t + [NewRow(t, input, minted)] && Fresh(t, NewRow(t, input, minted)) && reply == Entry(NewRow(t, input, minted))
            else after == t
  {
    QueueLengths(t, input.session);
    MaxOfIs(t, input.session);
    hide MaxOf, Sorted, ByKey, ById, AllCompatible;
  }

  lemma PushStep(t: Table, sessions: set<string>, input: Input, minted: Id, session: string)
    requires Sound(t)
    ensures ViewOf(Push(t, sessions, input, minted).0, session) ==
            ViewAfter(ViewOf(t, session), session, CPush(input, minted), Accepts(t, sessions, input, minted))
  {
    PushAccepted(t, sessions, input, minted);
    hide Push, Accepts, Sorted, Fresh, MaxOf;
    if Accepts(t, sessions, input, minted) {
      var row := NewRow(t, input, minted);
      PushRefines(t, row, session, true);
      PushRefines(t, row, session, false);
      assert Turns(Sorted(t, session, false) + [row]) == Turns(Sorted(t, session, false)) + [row.turn];
    }
  }

  lemma RemoveStep(t: Table, id: Id, session: string)
    requires Sound(t)
    ensures ViewOf(Remove(t, id).0, session) == ViewAfter(ViewOf(t, session), session, CRemove(id), false)
  {
    hide Sorted, Delete, Without;
    RemoveRefines(t, id, session, true);
    RemoveRefines(t, id, session, false);
    TurnsDelete(Sorted(t, session, true), id);
    TurnsDelete(Sorted(t, session, false), id);
  }

  /** Where a row with this id is in a queue, its turn is in the turns. */
  lemma FindIs(t: Table, session: string, id: Id)
    requires AllCompatible(t)
    ensures var q := Sorted(t, session, false); var found := ById(t, id); var k := Find(Turns(q), id);
            if found.Some? && IsPlain(found.value, session) then k < |q| && q[k] == found.value else k == |q|
  {
    var q, found := Sorted(t, session, false), ById(t, id);
    var k := Find(Turns(q), id);
    SortedIsQueue(t, session, false);
    hide Sorted, ById, Find, AllCompatible;
    if k < |q| {
      assert q[k] in q && Turns(q)[k] == q[k].turn;
      assert found.Some?;
      if found.value != q[k] { DistinctIds(t, found.value, q[k]); }
    } else if found.Some? && IsPlain(found.value, session) {
      var j := PlaceIn(q, found.value);
    }
  }

  /** The next priority is above every one of the session. */
  lemma NextIsAbove(t: Table, row: Row)
    requires AllCompatible(t) && row in t && row.priority.None?
    ensures var next := Coalesce(MaxOf(t, row.turn.session, PriorityColumn)) + 1;
            && (forall r :: r in t && r.turn.session == row.turn.session && r.priority.Some? ==> r.priority.value < next)
            && AllCompatible(SetPriority(t, row.turn.id, next))
  {
    var next := Coalesce(MaxOf(t, row.turn.session, PriorityColumn)) + 1;
    MaxOfIs(t, row.turn.session);
    PrioritizeCompatible(t, row, next);
  }

  /** Prioritizing moves the turn to the end of the promoted ones of its session. */
  lemma PrioritizeOwn(t: Table, row: Row, next: int)
    requires AllCompatible(t) && row in t && row.priority.None?
    requires forall r :: r in t && r.turn.session == row.turn.session && r.priority.Some? ==> r.priority.value < next
    ensures var v := ViewOf(t, row.turn.session);
            ViewOf(SetPriority(t, row.turn.id, next), row.turn.session) ==
            View(v.promoted + [row.turn], Without(v.plain, row.turn.id))
  {
    var session, id := row.turn.session, row.turn.id;
    hide Sorted, Delete, SetPriority, AllCompatible, Without;
    PrioritizeRefines(t, row, next, true);
    PrioritizeRefines(t, row, next, false);
    TurnsDelete(Sorted(t, session, false), id);
    var p, promoted := Sorted(t, session, true), row.(priority := Some(next));
    assert Turns(p + [promoted]) == Turns(p) + [row.turn];
  }

  lemma PrioritizeElsewhere(t: Table, row: Row, next: int, session: string)
    requires AllCompatible(t) && row in t && AllCompatible(SetPriority(t, row.turn.id, next)) && session != row.turn.session
    ensures ViewOf(SetPriority(t, row.turn.id, next), session) == ViewOf(t, session)
  {
    SetPriorityIs(t, row, next);
    hide Sorted, SetPriority, AllCompatible;
    OtherSession(t, SetPriority(t, row.turn.id, next), session, true);
    OtherSession(t, SetPriority(t, row.turn.id, next), session, false);
  }

  lemma PrioritizeStep(t: Table, id: Id, session: string)
    requires Sound(t)
    ensures ViewOf(Prioritize(t, id).0, session) == ViewAfter(ViewOf(t, session), session, CPrioritize(id), false)
  {
    FindIs(t, session, id);
    hide Sorted, MaxOf, SetPriority, AllCompatible, Without, Find;
    var found := ById(t, id);
    if found.Some? && found.value.priority.None? {
      var row := found.value;
      NextIsAbove(t, row);
      var next := Coalesce(MaxOf(t, row.turn.session, PriorityColumn)) + 1;
      if row.turn.session == session {
        PrioritizeOwn(t, row, next);
      } else {
        PrioritizeElsewhere(t, row, next, session);
      }
    }
  }

  lemma TurnsSwapped(q: seq<Row>, i: nat, j: nat)
    requires i < |q| && j < |q| && i != j
    ensures Turns(SwappedAt(q, i, j)) == Exchange(Turns(q), i, j)
  {}

  /** Exchanging plain rows moves no promoted row. */
  lemma SwapPromoted(t: Table, a: Row, b: Row, session: string)
    requires AllCompatible(t) && a in t && b in t && a != b && a.priority.None? && b.priority.None?
    requires AllCompatible(Swap(t, a, b))
    ensures Sorted(Swap(t, a, b), session, true) == Sorted(t, session, true)
  {
    SortedIsQueue(t, session, true);
    hide Sorted, AllCompatible, Swap;
    SwapMembers(t, a, b);
    QueueIs(Swap(t, a, b), session, true, Sorted(t, session, true));
  }

  lemma SortedPlain(t: Table, session: string, k: nat)
    requires AllCompatible(t) && k < |Sorted(t, session, false)|
    ensures IsPlain(Sorted(t, session, false)[k], session)
  {
    SortedIsQueue(t, session, false);
    hide Sorted;
    assert Sorted(t, session, false)[k] in Sorted(t, session, false);
  }

  lemma ReorderStep(t: Table, id: Id, d: Direction, session: string)
    requires Sound(t)
    ensures ViewOf(Reorder(t, id, d).0, session) == ViewAfter(ViewOf(t, session), session, CReorder(id, d), false)
  {
    hide Sorted, ById, Neighbour, AllCompatible, Find, SetPosition;
    FindIs(t, session, id);
    var found := ById(t, id);
    if found.Some? && found.value.priority.None? {
      var home := found.value.turn.session;
      FindIs(t, home, id);
      var q := Sorted(t, home, false);
      var k := Find(Turns(q), id);
      NeighbourIs(t, home, k, d);
      if Neighbour(t, home, q[k].position, d).Some? {
        var m := if d.Up? then k - 1 else k + 1;
        SwapRefines(t, home, k, m);
        SortedPlain(t, home, k);
        SortedPlain(t, home, m);
        SwapPromoted(t, q[k], q[m], session);
        if home == session {
          TurnsSwapped(q, k, m);
        } else {
          SwapMembers(t, q[k], q[m]);
          OtherSession(t, Swap(t, q[k], q[m]), session, false);
        }
      }
    }
  }

  lemma StepRefines(t: Table, sessions: set<string>, c: Command, session: string)
    requires Sound(t)
    ensures ViewOf(Step(t, sessions, c).0, session) ==
            ViewAfter(ViewOf(t, session), session, c, c.CPush? && Accepts(t, sessions, c.input, c.minted))
  {
    hide Push, Remove, Prioritize, Reorder, ViewOf, Accepts, Sound;
    match c {
      case CPush(input, minted) => PushStep(t, sessions, input, minted, session);
      case CRemove(id) => RemoveStep(t, id, session);
      case CPrioritize(id) => PrioritizeStep(t, id, session);
      case CReorder(id, d) => ReorderStep(t, id, d, session);
    }
  }

  // ----- every run -----

  lemma SwapSound(t: Table, a: Row, b: Row)
    requires Sound(t) && a in t && b in t && a != b && a.turn.session == b.turn.session
    ensures Sound(Swap(t, a, b))
  {
    SwapCompatible(t, a, b);
    hide Swap, AllCompatible;
    forall session ensures CountIn(Swap(t, a, b), session) == CountIn(t, session) {
      SwapIs(t, a, b);
      CountSame(Swap(t, a, b), t, session);
    }
  }

  lemma CountOne(r: Row, session: string)
    ensures CountIn([r], session) == if r.turn.session == session then 1 else 0
  {
    assert [r][1..] == [];
  }

  lemma PushSound(t: Table, sessions: set<string>, input: Input, minted: Id)
    requires Sound(t)
    ensures Sound(Push(t, sessions, input, minted).0)
  {
    PushAccepted(t, sessions, input, minted);
    hide Push, Fresh, MaxOf, AllCompatible;
    if Accepts(t, sessions, input, minted) {
      var row := NewRow(t, input, minted);
      PushCompatible(t, row);
      QueueLengths(t, input.session);
      forall session ensures CountIn(t + [row], session) <= MAX_QUEUED_TURNS_PER_SESSION {
        CountConcat(t, [row], session);
        CountOne(row, session);
      }
    }
  }

  lemma PrioritizeSound(t: Table, id: Id)
    requires Sound(t)
    ensures Sound(Prioritize(t, id).0)
  {
    var found := ById(t, id);
    if found.Some? && found.value.priority.None? {
      MaxOfIs(t, found.value.turn.session);
      var next := Coalesce(MaxOf(t, found.value.turn.session, PriorityColumn)) + 1;
      PrioritizeCompatible(t, found.value, next);
      hide MaxOf, ById, AllCompatible;
      forall session ensures CountIn(SetPriority(t, id, next), session) == CountIn(t, session) {
        CountSame(SetPriority(t, id, next), t, session);
      }
    }
  }

  lemma RemoveSound(t: Table, id: Id)
    requires Sound(t)
    ensures Sound(Remove(t, id).0)
  {
    hide AllCompatible, Delete, CountIn;
    DeleteCompatible(t, id);
    forall session ensures CountIn(Delete(t, id), session) <= CountIn(t, session) {
      DeleteKeeps(t, id, session);
    }
  }

  lemma ReorderSound(t: Table, id: Id, d: Direction)
    requires Sound(t)
    ensures Sound(Reorder(t, id, d).0)
  {
    var found := ById(t, id);
    if found.Some? && found.value.priority.None? {
      var a := found.value;
      var other := Neighbour(t, a.turn.session, a.position, d);
      hide Sound, ById, Neighbour, SetPosition;
      if other.Some? { SwapSound(t, a, other.value); }
    }
  }

  lemma StepSound(t: Table, sessions: set<string>, c: Command)
    requires Sound(t)
    ensures Sound(Step(t, sessions, c).0)
  {
    hide Push, Remove, Prioritize, Reorder, Sound;
    match c {
      case CPush(input, minted) => PushSound(t, sessions, input, minted);
      case CRemove(id) => RemoveSound(t, id);
      case CPrioritize(id) => PrioritizeSound(t, id);
      case CReorder(id, d) => ReorderSound(t, id, d);
    }
  }

  // ----- the machine of sequences alone -----

  /** The two sequences of every session used so far. */
  type Views = map<string, View>

  function At(vs: Views, session: string): View {
    if session in vs then vs[session] else View([], [])
  }

  predicate HasKey(v: View, principal: string, key: Option<string>) {
    exists turn :: turn in v.promoted + v.plain && turn.principal == principal && turn.key == key && key.Some?
  }

  predicate HasId(v: View, id: Id) {
    exists turn :: turn in v.promoted + v.plain && turn.id == id
  }

  /** Acceptance, read off the sequences. */
  predicate Admits(vs: Views, sessions: set<string>, input: Input, minted: Id) {
    var v := At(vs, input.session);
    && input.session in sessions
    && !HasKey(v, input.principal, input.key)
    && |v.promoted| + |v.plain| < MAX_QUEUED_TURNS_PER_SESSION
    && forall session :: session in vs ==> !HasId(vs[session], IdOf(input, minted))
  }

  function Reached(vs: Views, c: Command): set<string> {
    vs.Keys + (if c.CPush? then {c.input.session} else {})
  }

  function ViewsStep(vs: Views, sessions: set<string>, c: Command): Views {
    map session | session in Reached(vs, c) ::
      ViewAfter(At(vs, session), session, c, c.CPush? && Admits(vs, sessions, c.input, c.minted))
  }

  function ViewsRun(sessions: set<string>, commands: seq<Command>): Views {
    if commands == [] then map[]
    else ViewsStep(ViewsRun(sessions, commands[..|commands| - 1]), sessions, commands[|commands| - 1])
  }

  /** The sequences are those of the table, and no session of the table is missing. */
  ghost predicate Shows(t: Table, vs: Views) {
    && (forall session :: ViewOf(t, session) == At(vs, session))
    && (forall r :: r in t ==> r.turn.session in vs)
  }

  lemma TurnsIn(q: seq<Row>, turn: Turn)
    ensures turn in Turns(q) <==> exists r :: r in q && r.turn == turn
  {
    if turn in Turns(q) {
      var k :| 0 <= k < |Turns(q)| && Turns(q)[k] == turn;
      assert q[k] in q;
    }
    if exists r :: r in q && r.turn == turn {
      var r :| r in q && r.turn == turn;
      var k :| 0 <= k < |q| && q[k] == r;
      assert Turns(q)[k] == turn;
    }
  }

  /** A turn is in the view of a session exactly if a row of the session carries it. */
  lemma TurnIsInView(t: Table, session: string, turn: Turn)
    requires AllCompatible(t)
    ensures turn in ViewOf(t, session).promoted + ViewOf(t, session).plain <==>
            exists r :: r in t && r.turn == turn && turn.session == session
  {
    SortedIsQueue(t, session, true);
    SortedIsQueue(t, session, false);
    TurnsIn(Sorted(t, session, true), turn);
    TurnsIn(Sorted(t, session, false), turn);
    hide Sorted, Turns, AllCompatible, Increasing;
    if exists r :: r in t && r.turn == turn && turn.session == session {
      var r :| r in t && r.turn == turn && turn.session == session;
      assert r in Sorted(t, session, r.priority.Some?);
    }
  }

  lemma KeyIff(t: Table, session: string, principal: string, key: Option<string>)
    requires AllCompatible(t)
    ensures HasKey(ViewOf(t, session), principal, key) <==> ByKey(t, session, principal, key).Some?
  {
    hide ViewOf, ByKey, AllCompatible;
    var v, found := ViewOf(t, session), ByKey(t, session, principal, key);
    if found.Some? {
      TurnIsInView(t, session, found.value.turn);
      assert found.value.turn in v.promoted + v.plain;
    }
    if HasKey(v, principal, key) {
      var turn :| turn in v.promoted + v.plain && turn.principal == principal && turn.key == key && key.Some?;
      TurnIsInView(t, session, turn);
      var r :| r in t && r.turn == turn && turn.session == session;
      assert SameKey(r, session, principal, key);
    }
  }

  lemma IdIff(t: Table, vs: Views, id: Id)
    requires AllCompatible(t) && Shows(t, vs)
    ensures (exists session :: session in vs && HasId(vs[session], id)) <==> ById(t, id).Some?
  {
    hide ViewOf, ById, AllCompatible;
    var found := ById(t, id);
    if found.Some? {
      var session := found.value.turn.session;
      TurnIsInView(t, session, found.value.turn);
      assert ViewOf(t, session) == At(vs, session);
      assert found.value.turn in vs[session].promoted + vs[session].plain;
      assert HasId(vs[session], id);
    }
    if exists session :: session in vs && HasId(vs[session], id) {
      var session :| session in vs && HasId(vs[session], id);
      assert ViewOf(t, session) == At(vs, session);
      var turn :| turn in vs[session].promoted + vs[session].plain && turn.id == id;
      TurnIsInView(t, session, turn);
    }
  }

  lemma AcceptsIffAdmits(t: Table, vs: Views, sessions: set<string>, input: Input, minted: Id)
    requires AllCompatible(t) && Shows(t, vs)
    ensures Accepts(t, sessions, input, minted) <==> Admits(vs, sessions, input, minted)
  {
    hide ViewOf, ByKey, ById, AllCompatible, HasKey, HasId;
    KeyIff(t, input.session, input.principal, input.key);
    IdIff(t, vs, IdOf(input, minted));
    assert ViewOf(t, input.session) == At(vs, input.session);
  }

  lemma {:induction false} DeleteIn(t: Table, id: Id, r: Row)
    requires r in Delete(t, id)
    ensures r in t
  {
    DeleteKeeps(t, id, "");
  }

  lemma SameSessions(t: Table, after: Table)
    requires |after| == |t| && forall k :: 0 <= k < |t| ==> after[k].turn == t[k].turn
    ensures forall r :: r in after ==> exists x :: x in t && x.turn.session == r.turn.session
  {
    forall r | r in after ensures exists x :: x in t && x.turn.session == r.turn.session {
      var k :| 0 <= k < |after| && after[k] == r;
      assert t[k] in t;
    }
  }

  /** A command brings in no session but that of a push. */
  lemma StepReaches(t: Table, sessions: set<string>, c: Command, r: Row)
    requires r in Step(t, sessions, c).0
    ensures (exists x :: x in t && x.turn.session == r.turn.session) || (c.CPush? && r.turn.session == c.input.session)
  {
    hide MaxOf, CountIn, ByKey, ById, Neighbour, Delete;
    match c {
      case CPush(input, minted) => assert r in t || r == NewRow(t, input, minted);
      case CRemove(id) => DeleteIn(t, id, r);
      case CPrioritize(id) => SameSessions(t, Prioritize(t, id).0);
      case CReorder(id, d) => SameSessions(t, Reorder(t, id, d).0);
    }
  }

  lemma ViewsOutside(session: string, c: Command, accepted: bool)
    requires c.CPush? ==> c.input.session != session
    ensures ViewAfter(View([], []), session, c, accepted) == View([], [])
  {}

  lemma SoundIs(t: Table)
    requires Sound(t)
    ensures AllCompatible(t)
  {}

  lemma StepShows(t: Table, vs: Views, sessions: set<string>, c: Command)
    requires Sound(t) && Shows(t, vs)
    ensures Shows(Step(t, sessions, c).0, ViewsStep(vs, sessions, c))
  {
    hide Step, ViewAfter, ViewOf, Accepts, Admits, Sound;
    var after, views := Step(t, sessions, c).0, ViewsStep(vs, sessions, c);
    assert AllCompatible(t) by { SoundIs(t); }
    if c.CPush? { AcceptsIffAdmits(t, vs, sessions, c.input, c.minted); }
    forall session ensures ViewOf(after, session) == At(views, session) {
      StepRefines(t, sessions, c, session);
      assert ViewOf(t, session) == At(vs, session);
      if session !in Reached(vs, c) {
        ViewsOutside(session, c, c.CPush? && Accepts(t, sessions, c.input, c.minted));
      }
    }
    forall r | r in after ensures r.turn.session in views {
      StepReaches(t, sessions, c, r);
    }
  }

  lemma EmptyTable()
    ensures Sound([]) && Shows([], map[])
  {}

  /**
   * Every run of the table is a run of two sequences per session, which need
   * nothing of the table: ids, positions, priorities and idempotency keys stay
   * distinct, no session holds more than 8 entries, and sorting the table gives
   * exactly those sequences.
   */
  lemma {:induction false} EveryRunRefines(sessions: set<string>, commands: seq<Command>)
    ensures Sound(Run(sessions, commands))
    ensures Shows(Run(sessions, commands), ViewsRun(sessions, commands))
  {
    hide Sound, Step, Shows, ViewsStep;
    if commands == [] {
      EmptyTable();
    } else {
      var front, last := commands[..|commands| - 1], commands[|commands| - 1];
      EveryRunRefines(sessions, front);
      StepSound(Run(sessions, front), sessions, last);
      StepShows(Run(sessions, front), ViewsRun(sessions, front), sessions, last);
    }
  }

  // ----- list -----

  /** ORDER BY (priority IS NULL), priority, position. */
  predicate Before(a: Row, b: Row) {
    if a.priority.Some? != b.priority.Some? then a.priority.Some?
    else if a.priority.Some? && a.priority.value != b.priority.value then a.priority.value < b.priority.value
    else a.position < b.position
  }

  /** An answer to list: every row of the session once, in the order of ORDER BY. */
  ghost predicate IsListing(t: Table, session: string, q: seq<Row>) {
    && (forall r :: r in q <==> r in t && r.turn.session == session)
    && (forall i, j :: 0 <= i < j < |q| ==> q[i] != q[j] && !Before(q[j], q[i]))
  }

  /** The first row that is not promoted. */
  function FirstPlain(q: seq<Row>): (n: nat)
    ensures n <= |q| && (forall k :: 0 <= k < n ==> q[k].priority.Some?) && (n < |q| ==> q[n].priority.None?)
  {
    if q == [] || q[0].priority.None? then 0 else 1 + FirstPlain(q[1..])
  }

  lemma PartMembers(t: Table, session: string, q: seq<Row>, n: nat)
    requires n <= |q| && forall r :: r in q <==> r in t && r.turn.session == session
    requires (forall k :: 0 <= k < n ==> q[k].priority.Some?) && (forall k :: n <= k < |q| ==> q[k].priority.None?)
    ensures forall r :: r in q[..n] <==> r in t && InQueue(r, session, true)
    ensures forall r :: r in q[n..] <==> r in t && InQueue(r, session, false)
  {
    assert q == q[..n] + q[n..];
    assert forall r :: r in q <==> r in q[..n] || r in q[n..];
  }

  lemma ListingParts(t: Table, session: string, q: seq<Row>)
    requires AllCompatible(t) && IsListing(t, session, q)
    ensures var n := FirstPlain(q);
            IsQueue(t, session, true, q[..n]) && IsQueue(t, session, false, q[n..])
  {
    hide FirstPlain;
    var n := FirstPlain(q);
    forall k | n <= k < |q| ensures q[k].priority.None? {
      assert k > n ==> !Before(q[k], q[n]);
    }
    forall i, j | 0 <= i < j < |q| ensures Compatible(q[i], q[j]) {
      assert q[i] in q && q[j] in q;
      CompatibleMembers(t, q[i], q[j]);
    }
    hide AllCompatible;
    PartMembers(t, session, q, n);
    assert forall k :: 0 <= k < |q| ==> q[k] in q;
  }

  /** The listing is unique: the promoted rows in click order, then the plain ones by position. */
  lemma ListIsDelivery(t: Table, session: string, q: seq<Row>)
    requires AllCompatible(t) && IsListing(t, session, q)
    ensures q == Sorted(t, session, true) + Sorted(t, session, false)
  {
    hide *;
    ListingParts(t, session, q);
    QueueIs(t, session, true, q[..FirstPlain(q)]);
    QueueIs(t, session, false, q[FirstPlain(q)..]);
  }

  // ----- what one call undoes, or does not repeat -----

  lemma ByIdIs(t: Table, r: Row)
    requires AllCompatible(t) && r in t
    ensures ById(t, r.turn.id) == Some(r)
  {
    hide ById;
    var found := ById(t, r.turn.id);
    if found.Some? && found.value != r { DistinctIds(t, found.value, r); }
  }

  lemma SwapBack(t: Table, a: Row, b: Row)
    requires AllCompatible(t) && a in t && b in t && a != b && AllCompatible(Swap(t, a, b))
    ensures Swap(Swap(t, a, b), a.(position := b.position), b.(position := a.position)) == t
  {
    var mid, moved, other := Swap(t, a, b), a.(position := b.position), b.(position := a.position);
    SwapIs(t, a, b);
    SwapMembers(t, a, b);
    DistinctIds(t, a, b);
    SwapIs(mid, moved, other);
    hide Swap;
    forall k | 0 <= k < |t| ensures Swap(mid, moved, other)[k] == t[k] {
      assert t[k] in t;
      if t[k] != a { DistinctIds(t, t[k], a); }
      if t[k] != b { DistinctIds(t, t[k], b); }
    }
  }

  /** Moving an entry one way and back leaves the table as it was. */
  lemma ReorderRoundTrip(t: Table, id: Id, d: Direction)
    requires Sound(t) && Reorder(t, id, d).1 == Done(true)
    ensures Reorder(Reorder(t, id, d).0, id, if d.Up? then Down else Up) == (t, Done(true))
  {
    hide Sorted, ById, Neighbour, AllCompatible, Find, SetPosition, CountIn;
    var back := if d.Up? then Down else Up;
    var a := ById(t, id).value;
    var session := a.turn.session;
    FindIs(t, session, id);
    var q := Sorted(t, session, false);
    var k := Find(Turns(q), id);
    NeighbourIs(t, session, k, d);
    var m := if d.Up? then k - 1 else k + 1;
    var b := q[m];
    SwapRefines(t, session, k, m);
    var mid, moved, other := Swap(t, a, b), a.(position := b.position), b.(position := a.position);
    SwapMembers(t, a, b);
    ByIdIs(mid, moved);
    NeighbourIs(mid, session, m, back);
    SwapBack(t, a, b);
  }

  lemma SameKeyTwice(t: Table, a: Row, b: Row, input: Input)
    requires Sound(t) && a in t && b in t
    requires SameKey(a, input.session, input.principal, input.key) && SameKey(b, input.session, input.principal, input.key)
    ensures a == b
  {
    if a != b { CompatibleMembers(t, a, b); }
  }

  /** Repeating a push with its idempotency key returns the entry and inserts nothing. */
  lemma PushIsIdempotent(t: Table, sessions: set<string>, input: Input, minted: Id, again: Input, minted2: Id)
    requires Sound(t) && input.key.Some? && Push(t, sessions, input, minted).1.Entry?
    requires again.(id := input.id, content := input.content) == input
    ensures var (after, reply) := Push(t, sessions, input, minted);
            Push(after, sessions, again, minted2) == (after, reply)
  {
    PushSound(t, sessions, input, minted);
    PushAccepted(t, sessions, input, minted);
    hide Sorted, ById, MaxOf, CountIn, ByKey, Fresh, Sound;
    var (after, reply) := Push(t, sessions, input, minted);
    var found := ByKey(after, input.session, input.principal, input.key);
    assert reply.row in after && SameKey(reply.row, input.session, input.principal, input.key);
    if found.Some? && found.value != reply.row { SameKeyTwice(after, found.value, reply.row, input); }
  }

  lemma ListingSkip(t: Table, k: nat, session: string, q: seq<Row>)
    requires k < |t| && t[k].turn.session != session && IsListing(t[..k], session, q)
    ensures IsListing(t[..k + 1], session, q)
  {
    assert t[..k + 1] == t[..k] + [t[k]];
  }

  lemma NotYetListed(t: Table, k: nat, session: string, q: seq<Row>)
    requires AllCompatible(t) && k < |t| && IsListing(t[..k], session, q)
    ensures forall i :: 0 <= i < |q| ==> q[i] != t[k]
  {
    hide Before;
    forall i | 0 <= i < |q| ensures q[i] != t[k] {
      assert q[i] in t[..k];
      var j :| 0 <= j < k && t[j] == q[i];
      assert Compatible(t[j], t[k]);
    }
  }

  lemma InsertMembers(q: seq<Row>, n: nat, r: Row)
    requires n <= |q|
    ensures forall x :: x in q[..n] + [r] + q[n..] <==> x in q || x == r
  {
    assert q == q[..n] + q[n..];
  }

  lemma BeforeAfter(q: seq<Row>, n: nat, r: Row)
    requires n <= |q| && (n < |q| ==> !Before(q[n], r))
    requires forall i, j :: 0 <= i < j < |q| ==> q[i] != q[j] && !Before(q[j], q[i])
    ensures forall i :: n <= i < |q| ==> !Before(q[i], r)
  {
    forall i | n <= i < |q| ensures !Before(q[i], r) {
      if i > n { assert !Before(q[i], q[n]); }
    }
  }

  lemma BeforeAntisymmetric(a: Row, b: Row)
    requires Before(a, b)
    ensures !Before(b, a)
  {}

  lemma InsertOrdered(q: seq<Row>, n: nat, r: Row)
    requires n <= |q| && (forall i :: 0 <= i < n ==> Before(q[i], r)) && (forall i :: n <= i < |q| ==> !Before(q[i], r))
    requires forall i :: 0 <= i < |q| ==> q[i] != r
    requires forall i, j :: 0 <= i < j < |q| ==> q[i] != q[j] && !Before(q[j], q[i])
    ensures var all := q[..n] + [r] + q[n..]; forall i, j :: 0 <= i < j < |all| ==> all[i] != all[j] && !Before(all[j], all[i])
  {
    hide Before;
    var all := q[..n] + [r] + q[n..];
    forall i, j | 0 <= i < j < |all| ensures all[i] != all[j] && !Before(all[j], all[i]) {
      if i < n && j == n { BeforeAntisymmetric(q[i], r); }
    }
  }

  lemma ListingInsert(t: Table, k: nat, session: string, q: seq<Row>, n: nat)
    requires AllCompatible(t) && k < |t| && t[k].turn.session == session && IsListing(t[..k], session, q)
    requires n <= |q| && (forall i :: 0 <= i < n ==> Before(q[i], t[k])) && (n < |q| ==> !Before(q[n], t[k]))
    ensures IsListing(t[..k + 1], session, q[..n] + [t[k]] + q[n..])
  {
    NotYetListed(t, k, session, q);
    hide AllCompatible;
    assert t[..k + 1] == t[..k] + [t[k]];
    InsertMembers(q, n, t[k]);
    BeforeAfter(q, n, t[k]);
    InsertOrdered(q, n, t[k]);
  }

  // ----- every reply, told from the rows -----

  /** One more than the largest value of the session, or 1 if there is none. */
  ghost predicate IsNext(t: Table, session: string, column: Row -> Option<int>, next: int) {
    && (forall r :: r in t && r.turn.session == session && column(r).Some? ==> column(r).value < next)
    && (next == 1 || exists r :: r in t && r.turn.session == session && column(r) == Some(next - 1))
    && ((exists r :: r in t && r.turn.session == session && column(r).Some?) ==>
          exists r :: r in t && r.turn.session == session && column(r) == Some(next - 1))
  }

  lemma {:induction false} MaxIsTaken(t: Table, session: string, column: Row -> Option<int>)
    ensures var m := MaxOf(t, session, column);
            if m.Some? then exists r :: r in t && r.turn.session == session && column(r) == m
            else forall r :: r in t && r.turn.session == session ==> column(r).None?
  {
    if t != [] {
      MaxIsTaken(t[1..], session, column);
      assert forall r :: r in t <==> r == t[0] || r in t[1..];
    }
  }

  lemma MaxIsNext(t: Table, session: string, column: Row -> Option<int>)
    ensures IsNext(t, session, column, Coalesce(MaxOf(t, session, column)) + 1)
  {
    MaxIsTaken(t, session, column);
    var m := MaxOf(t, session, column);
    hide MaxOf;
  }

  /** A row of the same session, principal and idempotency key. */
  predicate Repeats(r: Row, input: Input) {
    && input.key.Some?
    && r.turn.session == input.session && r.turn.principal == input.principal && r.turn.key == input.key
  }

  ghost predicate Repeated(t: Table, input: Input) {
    exists r :: r in t && Repeats(r, input)
  }

  ghost predicate HasRow(t: Table, id: Id) {
    exists r :: r in t && r.turn.id == id
  }

  /** The client's id unless it is missing or nothing but white space. */
  lemma IdOfIs(input: Input, minted: Id)
    ensures var id := IdOf(input, minted);
            if input.id.Some? && exists k :: 0 <= k < |input.id.value| && !IsWhitespace(input.id.value[k])
            then Some(id) == input.id else id == minted
  {
    hide IsWhitespace;
  }

  lemma OneRepeat(t: Table, input: Input, a: Row, b: Row)
    requires AllCompatible(t) && a in t && b in t && Repeats(a, input) && Repeats(b, input)
    ensures a == b
  {
    if a != b { CompatibleMembers(t, a, b); }
  }

  /**
   * Every reply of a push, and what it does: a repeated key answers with the
   * old row if the hash is the same and conflicts otherwise, before the limit
   * and the id are looked at.
   */
  lemma PushReplies(t: Table, sessions: set<string>, input: Input, minted: Id)
    requires Sound(t)
    ensures var (after, reply) := Push(t, sessions, input, minted);
            var known, full := input.session in sessions, CountIn(t, input.session) >= MAX_QUEUED_TURNS_PER_SESSION;
            && (reply == SessionNotFound <==> !known)
            && (reply == IdempotencyConflict <==>
                  known && exists r :: r in t && Repeats(r, input) && r.turn.inputHash != input.inputHash)
            && (forall r :: r in t && Repeats(r, input) && known ==> (reply == Entry(r) <==> r.turn.inputHash == input.inputHash))
            && (reply == QueueFull <==> known && !Repeated(t, input) && full)
            && (reply == IdTaken <==> known && !Repeated(t, input) && !full && HasRow(t, IdOf(input, minted)))
            && (if known && !Repeated(t, input) && !full && !HasRow(t, IdOf(input, minted))
                then
                  && reply.Entry? && after == t + [reply.row] && reply.row.priority == None
                  && reply.row.turn == Turn(IdOf(input, minted), input.session, input.principal, input.key, input.inputHash, input.content)
                  && IsNext(t, input.session, PositionColumn, reply.row.position)
                else after == t)
  {
    MaxIsNext(t, input.session, PositionColumn);
    forall a, b | a in t && b in t && Repeats(a, input) && Repeats(b, input) ensures a == b {
      OneRepeat(t, input, a, b);
    }
    hide Sound, AllCompatible, MaxOf, CountIn, ByKey, ById, IdOf, IsNext;
    var existing := ByKey(t, input.session, input.principal, input.key);
    assert existing.Some? ==> Repeats(existing.value, input);
    assert existing.None? ==> forall r :: r in t ==> !SameKey(r, input.session, input.principal, input.key);
    assert forall r :: Repeats(r, input) <==> SameKey(r, input.session, input.principal, input.key);
  }

  /** Every reply of prioritize: the row with the next priority, and only that row changes. */
  lemma PrioritizeReplies(t: Table, id: Id)
    requires Sound(t)
    ensures var (after, reply) := Prioritize(t, id);
            && (reply == NotQueued <==> !HasRow(t, id))
            && (reply == AlreadyPrioritized <==> exists r :: r in t && r.turn.id == id && r.priority.Some?)
            && (reply == NotQueued || reply == AlreadyPrioritized ==> after == t)
            && (forall r :: r in t && r.turn.id == id && r.priority.None? ==>
                  && reply.Entry? && reply.row.priority.Some? && reply.row == r.(priority := reply.row.priority)
                  && IsNext(t, r.turn.session, PriorityColumn, reply.row.priority.value)
                  && |after| == |t|
                  && forall k :: 0 <= k < |t| ==> after[k] == if t[k].turn.id == id then reply.row else t[k])
  {
    var found := ById(t, id);
    if found.Some? {
      MaxIsNext(t, found.value.turn.session, PriorityColumn);
      forall r | r in t && r.turn.id == id ensures r == found.value {
        if r != found.value { DistinctIds(t, r, found.value); }
      }
      hide Sound, AllCompatible, MaxOf, ById, IsNext;
      assert forall k :: 0 <= k < |t| ==> t[k] in t;
    }
  }

  lemma {:induction false} DeleteMembers(t: Table, id: Id)
    ensures forall r :: r in Delete(t, id) <==> r in t && r.turn.id != id
  {
    if t != [] {
      DeleteMembers(t[1..], id);
      assert forall r :: r in t <==> r == t[0] || r in t[1..];
    }
  }

  /** Remove says whether there was such a row, and takes exactly it. */
  lemma RemoveReplies(t: Table, id: Id)
    ensures var (after, reply) := Remove(t, id);
            && (reply == Done(true) <==> HasRow(t, id)) && (reply == Done(false) <==> !HasRow(t, id))
            && forall r :: r in after <==> r in t && r.turn.id != id
  {
    DeleteMembers(t, id);
    hide Delete, ById;
  }

  ghost predicate HasBeside(t: Table, r: Row, d: Direction) {
    exists o :: o in t && o.turn.session == r.turn.session && o.priority.None? &&
                if d.Up? then o.position < r.position else o.position > r.position
  }

  /** Reorder moves a plain row that has a plain one on that side, and says so; otherwise nothing changes. */
  lemma ReorderReplies(t: Table, id: Id, d: Direction)
    requires Sound(t)
    ensures var (after, reply) := Reorder(t, id, d);
            && (reply == Done(true) <==> exists r :: r in t && r.turn.id == id && r.priority.None? && HasBeside(t, r, d))
            && (reply == Done(true) || (reply == Done(false) && after == t))
  {
    var found := ById(t, id);
    if found.Some? {
      forall r | r in t && r.turn.id == id ensures r == found.value {
        if r != found.value { DistinctIds(t, r, found.value); }
      }
      hide Sound, AllCompatible, ById, Neighbour, SetPosition;
      var o := Neighbour(t, found.value.turn.session, found.value.position, d);
      assert o.Some? ==> Beside(o.value, found.value.turn.session, found.value.position, d);
    }
  }

  class Queue {
    var rows: Table
    var sessions: set<string>

    ghost predicate Valid()
      reads this
    {
      Sound(rows)
    }

    constructor (known: set<string>)
      ensures Valid() && rows == [] && sessions == known
    {
      rows, sessions := [], known;
      new;
      EmptyTable();
    }

    method PushTurn(input: Input, minted: Id) returns (reply: Reply)
      requires Valid()
      modifies this`rows
      ensures Valid() && (rows, reply) == Push(old(rows), sessions, input, minted)
      ensures forall s :: ViewOf(rows, s) ==
                          ViewAfter(old(ViewOf(rows, s)), s, CPush(input, minted), Accepts(old(rows), sessions, input, minted))
    {
      PushSound(rows, sessions, input, minted);
      forall s { PushStep(rows, sessions, input, minted, s); }
      hide Sound, ViewOf, Accepts, MaxOf, CountIn, ByKey, ById;
      if input.session !in sessions { return SessionNotFound; }
      if input.key.Some? {
        var existing := ByKey(rows, input.session, input.principal, input.key);
        if existing.Some? {
          return if existing.value.turn.inputHash == input.inputHash then Entry(existing.value) else IdempotencyConflict;
        }
      }
      if CountIn(rows, input.session) >= MAX_QUEUED_TURNS_PER_SESSION { return QueueFull; }
      var row := NewRow(rows, input, minted);
      if ById(rows, row.turn.id).Some? { return IdTaken; }
      rows := rows + [row];
      reply := Entry(row);
    }

    /** The rows of one session sorted by ORDER BY, one insertion per row. */
    method List(session: string) returns (q: seq<Row>)
      requires Valid()
      ensures q == Sorted(rows, session, true) + Sorted(rows, session, false)
    {
      q := [];
      var k := 0;
      while k < |rows|
        invariant k <= |rows|
        invariant IsListing(rows[..k], session, q)
      {
        hide Sound, Before;
        if rows[k].turn.session == session {
          var n := 0;
          while n < |q| && Before(q[n], rows[k])
            invariant n <= |q|
            invariant forall i :: 0 <= i < n ==> Before(q[i], rows[k])
          {
            n := n + 1;
          }
          ListingInsert(rows, k, session, q, n);
          q := q[..n] + [rows[k]] + q[n..];
        } else {
          ListingSkip(rows, k, session, q);
        }
        k := k + 1;
      }
      assert rows[..|rows|] == rows;
      ListIsDelivery(rows, session, q);
    }

    method RemoveTurn(id: Id) returns (removed: bool)
      requires Valid()
      modifies this`rows
      ensures Valid() && removed == ById(old(rows), id).Some?
      ensures forall s :: ViewOf(rows, s) == ViewAfter(old(ViewOf(rows, s)), s, CRemove(id), false)
    {
      RemoveSound(rows, id);
      forall s { RemoveStep(rows, id, s); }
      hide Sound, ViewOf, Delete, ById;
      removed := ById(rows, id).Some?;
      rows := Delete(rows, id);
    }

    method PrioritizeTurn(id: Id) returns (reply: Reply)
      requires Valid()
      modifies this`rows
      ensures Valid() && (rows, reply) == Prioritize(old(rows), id)
      ensures forall s :: ViewOf(rows, s) == ViewAfter(old(ViewOf(rows, s)), s, CPrioritize(id), false)
    {
      PrioritizeSound(rows, id);
      forall s { PrioritizeStep(rows, id, s); }
      hide Sound, ViewOf, MaxOf, ById, SetPriority;
      var found := ById(rows, id);
      if found.None? { return NotQueued; }
      if found.value.priority.Some? { return AlreadyPrioritized; }
      var next := Coalesce(MaxOf(rows, found.value.turn.session, PriorityColumn)) + 1;
      rows := SetPriority(rows, id, next);
      reply := Entry(found.value.(priority := Some(next)));
    }

    method ReorderTurn(id: Id, d: Direction) returns (moved: bool)
      requires Valid()
      modifies this`rows
      ensures Valid() && (rows, Done(moved)) == Reorder(old(rows), id, d)
      ensures forall s :: ViewOf(rows, s) == ViewAfter(old(ViewOf(rows, s)), s, CReorder(id, d), false)
    {
      ReorderSound(rows, id, d);
      forall s { ReorderStep(rows, id, d, s); }
      hide Sound, ViewOf, SetPosition, ById, Neighbour;
      var found := ById(rows, id);
      if found.None? || found.value.priority.Some? { return false; }
      var other := Neighbour(rows, found.value.turn.session, found.value.position, d);
      if other.None? { return false; }
      rows := SetPosition(rows, id, other.value.position);
      rows := SetPosition(rows, other.value.turn.id, found.value.position);
      moved := true;
    }
  }
}
