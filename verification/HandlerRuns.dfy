/** Whole programs over completion handlers: who owns what, and what became of it. */
module HandlerRuns {
  import opened Machine
  import opened CompletionHandlers

  /** A place for a wrapper; `None` before its construction and after its destruction. */
  type Slot = Option<Pointers>

  datatype World = World(slots: seq<Slot>, objects: Objects)

  datatype Op =
    | ConstructEmpty(i: nat)
    | ConstructTarget(i: nat, t: HandlerType, throws: bool)
    | MoveConstruct(i: nat, j: nat)
    | MoveAssign(i: nat, j: nat)
    | AssignNull(i: nat)
    | Swap(i: nat, j: nat)
    | Call(i: nat, throws: bool)
    | Destruct(i: nat)

  predicate Vacant(slots: seq<Slot>, i: nat) {
    i < |slots| && slots[i].None?
  }

  predicate Built(slots: seq<Slot>, i: nat) {
    i < |slots| && slots[i].Some?
  }

  /** A program constructs wrappers where there is none and uses only those there are. */
  predicate Allowed(slots: seq<Slot>, op: Op) {
    match op
    case ConstructEmpty(i) => Vacant(slots, i)
    case ConstructTarget(i, _, _) => Vacant(slots, i)
    case MoveConstruct(i, j) => Vacant(slots, i) && Built(slots, j)
    case MoveAssign(i, j) => Built(slots, i) && Built(slots, j)
    case AssignNull(i) => Built(slots, i)
    case Swap(i, j) => Built(slots, i) && Built(slots, j)
    case Call(i, _) => Built(slots, i)
    case Destruct(i) => Built(slots, i)
  }

  function Release(objects: Objects, p: Pointers): Objects {
    if p.impl.Some? then objects.Destroy(p.impl.value) else objects
  }

  /** What an operation does; one that is not allowed is not part of the program. */
  function Step(w: World, op: Op): World {
    var World(slots, objects) := w;
    if !Allowed(slots, op) then w
    else
      match op
      case ConstructEmpty(i) => World(slots[i := Some(NULL)], objects)
      case ConstructTarget(i, t, throws) =>
        World(if throws then slots else slots[i := Some(Pointers(Some(t), Some(objects.next)))],
              objects.Create(t, throws))
      case MoveConstruct(i, j) => World(slots[i := slots[j]][j := Some(NULL)], objects)
      case MoveAssign(i, j) =>
        if i == j then w
        else World(slots[i := slots[j]][j := Some(NULL)], Release(objects, slots[i].value))
      case AssignNull(i) => World(slots[i := Some(NULL)], Release(objects, slots[i].value))
      case Swap(i, j) => World(slots[i := slots[j]][j := slots[i]], objects)
      case Call(i, throws) =>
        var p := slots[i].value;
        World(slots[i := Some(p.(impl := None))],
              if p.impl.Some? then objects.Call(p.impl.value, throws) else objects)
      case Destruct(i) => World(slots[i := None], Release(objects, slots[i].value))
  }

  /** After the first `n` operations. */
  function Run(w: World, ops: seq<Op>, n: nat): World
    requires n <= |ops|
    decreases n
  {
    if n == 0 then w else Step(Run(w, ops, n - 1), ops[n - 1])
  }

  function Start(places: nat): World {
    World(seq(places, _ => None), Objects(map[], 0, []))
  }

  predicate Owns(s: Slot, id: ObjId) {
    s.Some? && s.value.impl == Some(id)
  }

  /** Every wrapper dispatches to a living object of the right type; no object has two owners and
      every living object has one. */
  ghost predicate Owned(w: World) {
    && (forall i :: 0 <= i < |w.slots| && w.slots[i].Some? ==> w.slots[i].value.Dispatches(w.objects))
    && (forall i, j, id :: 0 <= i < j < |w.slots| ==> !(Owns(w.slots[i], id) && Owns(w.slots[j], id)))
    && (forall id <- w.objects.live :: exists i :: 0 <= i < |w.slots| && Owns(w.slots[i], id))
  }

  lemma StepTells(w: World, op: Op)
    requires Owned(w) && Told(w.objects)
    ensures Told(Step(w, op).objects)
  {
    if Allowed(w.slots, op) {
      match op
      case ConstructTarget(i, t, throws) => CreateTells(w.objects, t, throws);
      case Call(i, throws) =>
        if w.slots[i].value.impl.Some? { CallTells(w.objects, w.slots[i].value.impl.value, throws); }
      case MoveAssign(i, _) => ReleaseTells(w, i);
      case AssignNull(i) => ReleaseTells(w, i);
      case Destruct(i) => ReleaseTells(w, i);
      case _ =>
    }
  }

  lemma ReleaseTells(w: World, i: nat)
    requires Owned(w) && Told(w.objects) && Built(w.slots, i)
    ensures Told(Release(w.objects, w.slots[i].value))
  {
    var p := w.slots[i].value;
    assert p.Dispatches(w.objects);
    if p.impl.Some? { DestroyTells(w.objects, p.impl.value); }
  }

  function Exchanged(slots: seq<Slot>, i: nat, j: nat): seq<Slot>
    requires i < |slots| && j < |slots|
  {
    slots[i := slots[j]][j := slots[i]]
  }

  predicate OwnsNothing(s: Slot) {
    s.Some? ==> s.value.impl.None?
  }

  lemma ExchangeKeepsOwnership(w: World, i: nat, j: nat)
    requires Owned(w) && i < |w.slots| && j < |w.slots|
    ensures Owned(w.(slots := Exchanged(w.slots, i, j)))
  {
    var slots := Exchanged(w.slots, i, j);
    forall id | id in w.objects.live
      ensures exists k :: 0 <= k < |slots| && Owns(slots[k], id)
    {
      var k :| 0 <= k < |w.slots| && Owns(w.slots[k], id);
      assert Owns(slots[Other(k, i, j)], id);
    }
    forall x, y, id | 0 <= x < y < |slots|
      ensures !(Owns(slots[x], id) && Owns(slots[y], id))
    {
      assert slots[x] == w.slots[Other(x, i, j)] && slots[y] == w.slots[Other(y, i, j)];
    }
  }

  function Other(k: nat, i: nat, j: nat): nat {
    if k == i then j else if k == j then i else k
  }

  /** What is alive without the object that the slot owns. */
  function Without(live: map<ObjId, HandlerType>, s: Slot): map<ObjId, HandlerType> {
    if s.Some? && s.value.impl.Some? then live - {s.value.impl.value} else live
  }

  /** A slot is cleared together with the object it owns. */
  lemma ClearKeepsOwnership(w: World, i: nat, s: Slot, objects: Objects)
    requires Owned(w) && i < |w.slots| && OwnsNothing(s)
    requires objects.live == Without(w.objects.live, w.slots[i])
    ensures Owned(World(w.slots[i := s], objects))
  {
    var slots := w.slots[i := s];
    forall id | id in objects.live
      ensures exists k :: 0 <= k < |slots| && Owns(slots[k], id)
    {
      var k :| 0 <= k < |w.slots| && Owns(w.slots[k], id);
      assert Owns(slots[k], id);
    }
    forall k | 0 <= k < |slots| && slots[k].Some?
      ensures slots[k].value.Dispatches(objects)
    {
      if k != i {
        var p := slots[k].value;
        assert p.Dispatches(w.objects);
        assert p.impl.Some? ==> Owns(w.slots[k], p.impl.value);
      }
    }
  }

  lemma CreateKeepsOwnership(w: World, i: nat, t: HandlerType)
    requires Owned(w) && Told(w.objects) && Vacant(w.slots, i)
    ensures Owned(Step(w, ConstructTarget(i, t, false)))
  {
    var next := Step(w, ConstructTarget(i, t, false));
    assert w.objects.next !in w.objects.live by { assert ToldOf(w.objects, w.objects.next); }
    forall id | id in next.objects.live
      ensures exists k :: 0 <= k < |next.slots| && Owns(next.slots[k], id)
    {
      if id == w.objects.next {
        assert Owns(next.slots[i], id);
      } else {
        var k :| 0 <= k < |w.slots| && Owns(w.slots[k], id);
        assert Owns(next.slots[k], id);
      }
    }
    forall k | 0 <= k < |next.slots| && next.slots[k].Some?
      ensures next.slots[k].value.Dispatches(next.objects)
      ensures k != i ==> !Owns(next.slots[k], w.objects.next)
    {
      assert k != i ==> w.slots[k].value.Dispatches(w.objects);
    }
  }

  lemma MoveConstructKeepsOwnership(w: World, i: nat, j: nat)
    requires Owned(w) && Vacant(w.slots, i) && Built(w.slots, j)
    ensures Owned(Step(w, MoveConstruct(i, j)))
  {
    var exchanged := w.(slots := Exchanged(w.slots, i, j));
    ExchangeKeepsOwnership(w, i, j);
    ClearKeepsOwnership(exchanged, j, Some(NULL), w.objects);
    assert exchanged.slots[j := Some(NULL)] == Step(w, MoveConstruct(i, j)).slots;
  }

  lemma ReleaseKeepsOwnership(w: World, i: nat, s: Slot)
    requires Owned(w) && Built(w.slots, i) && OwnsNothing(s)
    ensures Owned(World(w.slots[i := s], Release(w.objects, w.slots[i].value)))
  {
    ClearKeepsOwnership(w, i, s, Release(w.objects, w.slots[i].value));
  }

  lemma MoveAssignKeepsOwnership(w: World, i: nat, j: nat)
    requires Owned(w) && Built(w.slots, i) && Built(w.slots, j)
    ensures Owned(Step(w, MoveAssign(i, j)))
  {
    if i != j {
      ReleaseKeepsOwnership(w, i, Some(NULL));
      var cleared := World(w.slots[i := Some(NULL)], Release(w.objects, w.slots[i].value));
      ExchangeKeepsOwnership(cleared, i, j);
      assert Exchanged(cleared.slots, i, j) == Step(w, MoveAssign(i, j)).slots;
    }
  }

  lemma CallKeepsOwnership(w: World, i: nat, throws: bool)
    requires Owned(w) && Built(w.slots, i)
    ensures Owned(Step(w, Call(i, throws)))
  {
    var next := Step(w, Call(i, throws));
    ClearKeepsOwnership(w, i, next.slots[i], next.objects);
  }

  lemma StepKeepsOwnership(w: World, op: Op)
    requires Owned(w) && Told(w.objects)
    ensures Owned(Step(w, op))
  {
    if Allowed(w.slots, op) {
      match op
      case ConstructEmpty(i) => ClearKeepsOwnership(w, i, Some(NULL), w.objects);
      case ConstructTarget(i, t, throws) => if !throws { CreateKeepsOwnership(w, i, t); }
      case MoveConstruct(i, j) => MoveConstructKeepsOwnership(w, i, j);
      case MoveAssign(i, j) => MoveAssignKeepsOwnership(w, i, j);
      case AssignNull(i) => ReleaseKeepsOwnership(w, i, Some(NULL));
      case Swap(i, j) => ExchangeKeepsOwnership(w, i, j);
      case Call(i, throws) => CallKeepsOwnership(w, i, throws);
      case Destruct(i) => ReleaseKeepsOwnership(w, i, None);
    }
  }

  /** Every program, from any well-kept state on, keeps ownership and tells only well-formed
      stories. */
  lemma {:induction false} RunsKeepOwnership(w: World, ops: seq<Op>, n: nat)
    requires Owned(w) && Told(w.objects) && n <= |ops|
    ensures Owned(Run(w, ops, n)) && Told(Run(w, ops, n).objects)
    decreases n
  {
    if n > 0 {
      RunsKeepOwnership(w, ops, n - 1);
      var now := Run(w, ops, n - 1);
      StepKeepsOwnership(now, ops[n - 1]);
      StepTells(now, ops[n - 1]);
    }
  }

  // What the slots hold after an operation.

  /** Slot `i` has been set, and the others are as they were. */
  ghost predicate Sets(before: seq<Slot>, after: seq<Slot>, i: nat, s: Slot) {
    && |after| == |before| && i < |after| && after[i] == s
    && forall k :: 0 <= k < |before| && k != i ==> after[k] == before[k]
  }

  ghost predicate SetsTwo(before: seq<Slot>, after: seq<Slot>, i: nat, s: Slot, j: nat, t: Slot) {
    && |after| == |before| && i < |after| && after[i] == s && j < |after| && after[j] == t
    && forall k :: 0 <= k < |before| && k != i && k != j ==> after[k] == before[k]
  }

  /** What each operation promises for the wrappers, where `id` is the object that it creates, if any.
      Where a wrapper is missing, or one is in the way, nothing happens. */
  ghost predicate Places(before: seq<Slot>, op: Op, id: ObjId, after: seq<Slot>) {
    match op
    case ConstructEmpty(i) =>
      if Vacant(before, i) then Sets(before, after, i, Some(NULL)) else after == before
    case ConstructTarget(i, t, throws) =>
      if Vacant(before, i) && !throws then Sets(before, after, i, Some(Pointers(Some(t), Some(id))))
      else after == before
    case MoveConstruct(i, j) =>
      if Vacant(before, i) && Built(before, j) then SetsTwo(before, after, i, before[j], j, Some(NULL))
      else after == before
    case MoveAssign(i, j) =>
      if Built(before, i) && Built(before, j) && i != j then SetsTwo(before, after, i, before[j], j, Some(NULL))
      else after == before
    case AssignNull(i) =>
      if Built(before, i) then Sets(before, after, i, Some(NULL)) else after == before
    case Swap(i, j) =>
      if Built(before, i) && Built(before, j) then SetsTwo(before, after, i, before[j], j, before[i])
      else after == before
    case Call(i, _) =>
      if Built(before, i) then Sets(before, after, i, Some(Pointers(before[i].value.fnTable, None)))
      else after == before
    case Destruct(i) =>
      if Built(before, i) then Sets(before, after, i, None) else after == before
  }

  lemma StepPlaces(w: World, op: Op)
    ensures Places(w.slots, op, w.objects.next, Step(w, op).slots)
  {
  }

  // What happens to the objects, and why.

  /** The wrapper that owns the object is called, and its handler can be moved out. */
  predicate CallsOwner(slots: seq<Slot>, op: Op, id: ObjId) {
    op.Call? && !op.throws && op.i < |slots| && Owns(slots[op.i], id)
  }

  /** A wrapper gives up what it owns: by a call, by destruction, or by assignment. */
  predicate GivesUpAny(slots: seq<Slot>, op: Op) {
    && (op.Call? || op.Destruct? || op.AssignNull? || (op.MoveAssign? && op.i != op.j && Built(slots, op.j)))
    && Built(slots, op.i) && slots[op.i].value.impl.Some?
  }

  predicate GivesUp(slots: seq<Slot>, op: Op, id: ObjId) {
    GivesUpAny(slots, op) && Owns(slots[op.i], id)
  }

  predicate Constructs(slots: seq<Slot>, op: Op) {
    op.ConstructTarget? && Vacant(slots, op.i)
  }

  /** Why an event takes place; `created` is the object that the operation creates, if it does. */
  predicate Causes(slots: seq<Slot>, created: ObjId, op: Op, e: Event) {
    match e
    case Allocated(id) => Constructs(slots, op) && id == created
    case Destroyed(id) => GivesUp(slots, op, id)
    case Deallocated(id) => GivesUp(slots, op, id) || (Constructs(slots, op) && op.throws && id == created)
    case Invoked(id) => CallsOwner(slots, op, id)
  }

  /** How often the log reports an event. */
  function Count(log: seq<Event>, e: Event): nat {
    multiset(log)[e]
  }

  lemma {:induction false} HistoryCounts(log: seq<Event>, e: Event)
    ensures Count(log, e) == Count(History(log, e.id), e)
    decreases |log|
  {
    if log != [] {
      var n := |log| - 1;
      var rest := History(log[..n], e.id);
      HistoryCounts(log[..n], e);
      assert log == log[..n] + [log[n]];
      CountSnoc(log[..n], log[n], e);
      CountSnoc(rest, log[n], e);
      assert History(log, e.id) == rest + if log[n].id == e.id then [log[n]] else [];
    }
  }

  lemma StepObjects(w: World, op: Op)
    ensures Step(w, op).objects ==
      if Constructs(w.slots, op) then w.objects.Create(op.t, op.throws)
      else if GivesUpAny(w.slots, op) then
        w.objects.Call(w.slots[op.i].value.impl.value, !op.Call? || op.throws)
      else w.objects
  {
  }

  /** An operation causes an event by adding it to the log. */
  lemma StepCauses(w: World, op: Op, e: Event)
    ensures Reports(w, op, Step(w, op), e)
  {
    StepObjects(w, op);
    CausesAre(w.slots, w.objects.next, op, e);
    if Constructs(w.slots, op) {
      CreateCounts(w.objects, op.t, op.throws, e);
    } else if GivesUpAny(w.slots, op) {
      CallCounts(w.objects, w.slots[op.i].value.impl.value, !op.Call? || op.throws, e);
    }
  }

  /** The whole effect of an operation: what the wrappers hold, and how often any event is reported. */
  ghost predicate Effects(w: World, op: Op, next: World) {
    && Places(w.slots, op, w.objects.next, next.slots)
    && forall e :: Reports(w, op, next, e)
  }

  predicate Reports(w: World, op: Op, next: World, e: Event) {
    Count(next.objects.log, e) ==
      Count(w.objects.log, e) + if Causes(w.slots, w.objects.next, op, e) then 1 else 0
  }

  lemma StepHasEffects(w: World, op: Op)
    ensures Effects(w, op, Step(w, op))
  {
    StepPlaces(w, op);
    forall e
      ensures Reports(w, op, Step(w, op), e)
    {
      StepCauses(w, op, e);
    }
  }

  lemma CausesAre(slots: seq<Slot>, created: ObjId, op: Op, e: Event)
    ensures Causes(slots, created, op, e) <==>
      if Constructs(slots, op) then e == Allocated(created) || (op.throws && e == Deallocated(created))
      else if GivesUpAny(slots, op) then
        var id := slots[op.i].value.impl.value;
        e == Destroyed(id) || e == Deallocated(id) || (op.Call? && !op.throws && e == Invoked(id))
      else false
  {
  }

  lemma CreateCounts(o: Objects, t: HandlerType, throws: bool, e: Event)
    ensures Count(o.Create(t, throws).log, e) == Count(o.log, e) +
      if e == Allocated(o.next) || (throws && e == Deallocated(o.next)) then 1 else 0
  {
    CountSnoc(o.log, Allocated(o.next), e);
    CountSnoc(o.log + [Allocated(o.next)], Deallocated(o.next), e);
  }

  lemma CallCounts(o: Objects, id: ObjId, throws: bool, e: Event)
    ensures Count(o.Call(id, throws).log, e) == Count(o.log, e) +
      if e == Destroyed(id) || e == Deallocated(id) || (!throws && e == Invoked(id)) then 1 else 0
  {
    CountSnoc(o.log, Destroyed(id), e);
    CountSnoc(o.log + [Destroyed(id)], Deallocated(id), e);
    CountSnoc(o.log + [Destroyed(id)] + [Deallocated(id)], Invoked(id), e);
  }

  /** The operation at `k` causes the event, in the state that the program has come to. */
  predicate CausedAt(w: World, ops: seq<Op>, k: nat, e: Event)
    requires k < |ops|
  {
    Causes(Run(w, ops, k).slots, Run(w, ops, k).objects.next, ops[k], e)
  }

  ghost predicate Caused(w: World, ops: seq<Op>, n: nat, e: Event)
    requires n <= |ops|
  {
    exists k: nat :: k < n && CausedAt(w, ops, k, e)
  }

  lemma {:induction false} ReportedIsCaused(w: World, ops: seq<Op>, n: nat, e: Event)
    requires Owned(w) && Told(w.objects) && n <= |ops| && Count(w.objects.log, e) == 0
    ensures Count(Run(w, ops, n).objects.log, e) > 0 <==> Caused(w, ops, n, e)
    decreases n
  {
    if n > 0 {
      ReportedIsCaused(w, ops, n - 1, e);
      RunsKeepOwnership(w, ops, n - 1);
      StepCauses(Run(w, ops, n - 1), ops[n - 1], e);
      assert CausedAt(w, ops, n - 1, e) || (Caused(w, ops, n, e) <==> Caused(w, ops, n - 1, e));
    }
  }

  lemma CountSnoc(log: seq<Event>, last: Event, e: Event)
    ensures Count(log + [last], e) == Count(log, e) + if last == e then 1 else 0
  {
  }

  ghost predicate Unowned(slots: seq<Slot>, id: ObjId) {
    forall i :: 0 <= i < |slots| ==> !Owns(slots[i], id)
  }

  lemma StoryCounts(h: seq<Event>, id: ObjId)
    ensures h == [] ==> Count(h, Allocated(id)) == Count(h, Deallocated(id)) == Count(h, Invoked(id)) == 0
    ensures h == [Allocated(id)] ==>
      Count(h, Allocated(id)) == 1 && Count(h, Deallocated(id)) == Count(h, Invoked(id)) == 0
    ensures Closed(h, id) ==>
      && Count(h, Allocated(id)) == Count(h, Deallocated(id)) == 1
      && (Count(h, Invoked(id)) == if |h| == 4 then 1 else 0)
  {
  }

  lemma NothingTwice(h: seq<Event>, e: Event)
    requires h == [] || h == [Allocated(e.id)] || Closed(h, e.id)
    ensures Count(h, e) <= 1
  {
  }

  /** For every program from the start: whatever happens to an object happens once, and it happens if
      and only if an operation of the program is a cause of it. */
  lemma EveryEventHasItsCause(places: nat, ops: seq<Op>, e: Event)
    ensures var log := Run(Start(places), ops, |ops|).objects.log;
      Count(log, e) <= 1 && (Count(log, e) == 1 <==> Caused(Start(places), ops, |ops|, e))
  {
    RunsKeepOwnership(Start(places), ops, |ops|);
    var o := Run(Start(places), ops, |ops|).objects;
    assert ToldOf(o, e.id);
    HistoryCounts(o.log, e);
    NothingTwice(History(o.log, e.id), e);
    ReportedIsCaused(Start(places), ops, |ops|, e);
  }

  predicate CallsOwnerAt(places: nat, ops: seq<Op>, k: nat, id: ObjId)
    requires k < |ops|
  {
    CallsOwner(Run(Start(places), ops, k).slots, ops[k], id)
  }

  /** So a handler is invoked if and only if a wrapper that owns it at that time is called and the
      handler can be moved out. */
  lemma InvokedExactlyByCalls(places: nat, ops: seq<Op>, id: ObjId)
    ensures Count(Run(Start(places), ops, |ops|).objects.log, Invoked(id)) == 1 <==>
      exists k: nat :: k < |ops| && CallsOwnerAt(places, ops, k, id)
  {
    EveryEventHasItsCause(places, ops, Invoked(id));
    assert forall k: nat :: k < |ops| ==>
      (CausedAt(Start(places), ops, k, Invoked(id)) <==> CallsOwnerAt(places, ops, k, id));
  }

  /** Where ownership and stories are kept, an object's storage has been released exactly when it was
      allocated and no wrapper owns it. */
  lemma ReleasedWhenUnowned(w: World, id: ObjId)
    requires Owned(w) && Told(w.objects)
    ensures ReleasedOnce(w, id)
  {
    var log := w.objects.log;
    assert ToldOf(w.objects, id);
    HistoryCounts(log, Allocated(id));
    HistoryCounts(log, Deallocated(id));
    HistoryCounts(log, Invoked(id));
    StoryCounts(History(log, id), id);
    assert id in w.objects.live <==> !Unowned(w.slots, id);
  }

  ghost predicate ReleasedOnce(w: World, id: ObjId) {
    var log := w.objects.log;
    && Count(log, Deallocated(id)) <= 1
    && (Count(log, Deallocated(id)) == 1 <==> Count(log, Allocated(id)) == 1 && Unowned(w.slots, id))
    && (Count(log, Invoked(id)) > 0 ==>
        History(log, id) == [Allocated(id), Destroyed(id), Deallocated(id), Invoked(id)])
  }

  /** For every program from the start and every object: its storage is released at most once, namely
      exactly when the object has been allocated and no wrapper owns it; if its handler is invoked,
      that is the last thing, after its storage was released. */
  lemma EveryObjectIsReleasedOnce(places: nat, ops: seq<Op>, id: ObjId)
    ensures ReleasedOnce(Run(Start(places), ops, |ops|), id)
  {
    RunsKeepOwnership(Start(places), ops, |ops|);
    ReleasedWhenUnowned(Run(Start(places), ops, |ops|), id);
  }

  /** The table pointer alone decides whether `associated_executor` asks the target, so this is the
      state in which it would ask a target that is not there. */
  predicate Stale(s: Slot) {
    s.Some? && s.value.fnTable.Some? && s.value.impl.None?
  }

  predicate AnyStale(slots: seq<Slot>) {
    exists s <- slots :: Stale(s)
  }

  predicate StaleAt(w: World, ops: seq<Op>, n: nat)
    requires n <= |ops|
  {
    AnyStale(Run(w, ops, n).slots)
  }

  /** This operation is a call of a wrapper that holds a target. */
  predicate CallsTarget(w: World, op: Op) {
    op.Call? && Allowed(w.slots, op) && w.slots[op.i].value.impl.Some?
  }

  predicate CallsTargetAt(w: World, ops: seq<Op>, k: nat)
    requires k < |ops|
  {
    CallsTarget(Run(w, ops, k), ops[k])
  }

  lemma StaleAfterCall(w: World, op: Op)
    requires Owned(w) && !AnyStale(w.slots)
    ensures AnyStale(Step(w, op).slots) <==> CallsTarget(w, op)
  {
    var slots := Step(w, op).slots;
    if CallsTarget(w, op) {
      assert w.slots[op.i].value.Dispatches(w.objects);
      assert Stale(slots[op.i]) && slots[op.i] in slots;
    } else {
      forall k | 0 <= k < |slots|
        ensures !Stale(slots[k])
      {
        assert forall m :: 0 <= m < |w.slots| ==> w.slots[m] in w.slots;
      }
    }
  }

  lemma {:induction false} StaleOnlyAfterCalls(w: World, ops: seq<Op>, n: nat)
    requires Owned(w) && Told(w.objects) && !AnyStale(w.slots) && n <= |ops|
    requires forall k: nat :: k < n ==> !CallsTargetAt(w, ops, k)
    ensures !StaleAt(w, ops, n)
    decreases n
  {
    if n > 0 {
      StaleOnlyAfterCalls(w, ops, n - 1);
      RunsKeepOwnership(w, ops, n - 1);
      StaleAfterCall(Run(w, ops, n - 1), ops[n - 1]);
      assert !CallsTargetAt(w, ops, n - 1);
    }
  }

  /** A called wrapper is documented to be left empty.  It is left without a target but with its
      table: a program ever gets into that state exactly when it calls a wrapper that holds a
      target. */
  lemma StaleExactlyAfterCalls(w: World, ops: seq<Op>)
    requires Owned(w) && Told(w.objects) && !AnyStale(w.slots)
    ensures (exists n: nat :: n <= |ops| && StaleAt(w, ops, n))
      <==> exists k: nat :: k < |ops| && CallsTargetAt(w, ops, k)
  {
    forall n: nat | n <= |ops| && StaleAt(w, ops, n)
      ensures exists k: nat :: k < |ops| && CallsTargetAt(w, ops, k)
    {
      if forall k: nat :: k < n ==> !CallsTargetAt(w, ops, k) {
        StaleOnlyAfterCalls(w, ops, n);
      }
    }
    forall k: nat | k < |ops| && CallsTargetAt(w, ops, k)
      ensures exists n: nat :: n <= |ops| && StaleAt(w, ops, n)
    {
      if !StaleAt(w, ops, k) {
        RunsKeepOwnership(w, ops, k);
        StaleAfterCall(Run(w, ops, k), ops[k]);
        assert StaleAt(w, ops, k + 1);
      }
    }
  }

  /** The shortest such program: a wrapper that was called differs from an empty one. */
  lemma CalledWrapperIsNotEmpty(t: HandlerType)
    ensures var called := Run(Start(1), [ConstructTarget(0, t, false), Call(0, false)], 2);
      && called.slots == [Some(Pointers(Some(t), None))]
      && called.slots != Run(Start(1), [ConstructEmpty(0)], 1).slots
      && AnyStale(called.slots)
  {
    var ops := [ConstructTarget(0, t, false), Call(0, false)];
    var built := Step(Start(1), ops[0]);
    var called := Step(built, ops[1]);
    assert Run(Start(1), ops, 1) == built && Run(Start(1), ops, 2) == called;
    assert Stale(called.slots[0]);
    assert Run(Start(1), [ConstructEmpty(0)], 1) == Step(Start(1), ConstructEmpty(0));
  }
}
