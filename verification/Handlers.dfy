/** `asio::any_completion_handler`: a move-only owner of a type-erased completion handler. */
module CompletionHandlers {
  import opened Machine

  /** Identifies an implementation object over the whole run. */
  type ObjId = nat
  /** The handler type that a function table was instantiated for. */
  type HandlerType = nat

  /** What happens to implementation objects and to the handlers in them.  `Destroyed` is the end of
      the object, `Deallocated` the release of its storage, `Invoked` the upcall. */
  datatype Event =
    | Allocated(id: ObjId)
    | Destroyed(id: ObjId)
    | Deallocated(id: ObjId)
    | Invoked(id: ObjId)

  /** The implementation objects of a program: those alive with the types they really have, the next
      identity, and everything that has happened. */
  datatype Objects = Objects(live: map<ObjId, HandlerType>, next: ObjId, log: seq<Event>) {
    /** `create`: storage is taken, and given back at once when the handler cannot be moved in. */
    function Create(t: HandlerType, throws: bool): Objects {
      if throws then Objects(live, next + 1, log + [Allocated(next)] + [Deallocated(next)])
      else Objects(live[next := t], next + 1, log + [Allocated(next)])
    }

    /** `destroy`. */
    function Destroy(id: ObjId): Objects {
      Objects(live - {id}, next, log + [Destroyed(id)] + [Deallocated(id)])
    }

    /** `call`: the handler is moved out, the object and its storage go, then comes the upcall.  When
        moving it out throws, the guard still releases the object. */
    function Call(id: ObjId, throws: bool): Objects {
      if throws then Destroy(id)
      else Objects(live - {id}, next, log + [Destroyed(id)] + [Deallocated(id)] + [Invoked(id)])
    }
  }

  /** What the log says about one object. */
  function History(log: seq<Event>, id: ObjId): seq<Event> {
    if log == [] then []
    else
      var last := log[|log| - 1];
      History(log[..|log| - 1], id) + (if last.id == id then [last] else [])
  }

  lemma HistoryPush(log: seq<Event>, e: Event, id: ObjId)
    ensures History(log + [e], id) == History(log, id) + (if e.id == id then [e] else [])
  {
  }

  /** The only ways in which the story of an object that has been allocated can end: it could not be
      constructed, it was destroyed (without a call, or because a call could not move the handler out),
      or it was called. */
  predicate Closed(history: seq<Event>, id: ObjId) {
    || history == [Allocated(id), Deallocated(id)]
    || history == [Allocated(id), Destroyed(id), Deallocated(id)]
    || history == [Allocated(id), Destroyed(id), Deallocated(id), Invoked(id)]
  }

  /** A living object has been allocated and no more; the others are closed or not begun. */
  ghost predicate ToldOf(o: Objects, id: ObjId) {
    var h := History(o.log, id);
    if id in o.live then id < o.next && h == [Allocated(id)]
    else if id < o.next then Closed(h, id)
    else h == []
  }

  ghost predicate Told(o: Objects) {
    forall id: ObjId :: ToldOf(o, id)
  }

  /** Nothing has happened to any object but `id`. */
  ghost predicate Spares(before: Objects, after: Objects, id: ObjId) {
    && before.live - {id} == after.live - {id}
    && forall other: ObjId :: other != id ==> History(after.log, other) == History(before.log, other)
  }

  /** The object is no longer alive, and this is all that ever happened to it. */
  ghost predicate Ended(o: Objects, id: ObjId, history: seq<Event>) {
    Told(o) && id !in o.live && History(o.log, id) == history
  }

  lemma SparedAreTold(before: Objects, after: Objects, id: ObjId)
    requires Told(before) && Spares(before, after, id) && ToldOf(after, id)
    requires after.next == if id < before.next then before.next else id + 1
    requires id <= before.next
    ensures Told(after)
  {
    forall other: ObjId | other != id
      ensures ToldOf(after, other)
    {
      assert ToldOf(before, other);
      assert other in after.live - {id} <==> other in before.live - {id};
    }
  }

  /** What a creation adds to the history of an object. */
  lemma CreateHistory(o: Objects, t: HandlerType, throws: bool, id: ObjId)
    ensures History(o.Create(t, throws).log, id) == History(o.log, id) +
      if id != o.next then [] else if throws then [Allocated(id), Deallocated(id)] else [Allocated(id)]
  {
    HistoryPush(o.log, Allocated(o.next), id);
    HistoryPush(o.log + [Allocated(o.next)], Deallocated(o.next), id);
  }

  lemma CreateTells(o: Objects, t: HandlerType, throws: bool)
    requires Told(o)
    ensures Told(o.Create(t, throws)) && Spares(o, o.Create(t, throws), o.next)
    ensures o.next !in o.live
    ensures throws ==> Ended(o.Create(t, throws), o.next, [Allocated(o.next), Deallocated(o.next)])
    ensures !throws ==> History(o.Create(t, throws).log, o.next) == [Allocated(o.next)]
  {
    var created := o.Create(t, throws);
    forall id: ObjId | id != o.next
      ensures History(created.log, id) == History(o.log, id)
    {
      CreateHistory(o, t, throws, id);
    }
    assert ToldOf(o, o.next);
    CreateHistory(o, t, throws, o.next);
    SparedAreTold(o, created, o.next);
  }

  /** What destruction and a call leave of an object. */
  function LastHistory(id: ObjId, invoked: bool): (h: seq<Event>)
    ensures Closed(h, id)
  {
    [Allocated(id), Destroyed(id), Deallocated(id)] + if invoked then [Invoked(id)] else []
  }

  lemma DestroyHistory(o: Objects, gone: ObjId, id: ObjId)
    ensures History(o.Destroy(gone).log, id) ==
      History(o.log, id) + if id == gone then [Destroyed(id), Deallocated(id)] else []
  {
    HistoryPush(o.log, Destroyed(gone), id);
    HistoryPush(o.log + [Destroyed(gone)], Deallocated(gone), id);
  }

  /** What a call adds to the history of an object. */
  lemma CallHistory(o: Objects, gone: ObjId, throws: bool, id: ObjId)
    ensures id != gone ==> History(o.Call(gone, throws).log, id) == History(o.log, id)
    ensures id == gone && History(o.log, id) == [Allocated(id)] ==>
      History(o.Call(gone, throws).log, id) == LastHistory(id, !throws)
  {
    DestroyHistory(o, gone, id);
    if !throws {
      HistoryPush(o.Destroy(gone).log, Invoked(gone), id);
    }
  }

  lemma CallSpares(o: Objects, gone: ObjId, throws: bool)
    ensures Spares(o, o.Call(gone, throws), gone)
  {
    forall id: ObjId | id != gone
      ensures History(o.Call(gone, throws).log, id) == History(o.log, id)
    {
      CallHistory(o, gone, throws, id);
    }
  }

  lemma CallTells(o: Objects, gone: ObjId, throws: bool)
    requires Told(o) && gone in o.live
    ensures Spares(o, o.Call(gone, throws), gone)
    ensures Ended(o.Call(gone, throws), gone, LastHistory(gone, !throws))
  {
    assert ToldOf(o, gone);
    CallHistory(o, gone, throws, gone);
    CallSpares(o, gone, throws);
    SparedAreTold(o, o.Call(gone, throws), gone);
  }

  /** For the objects, destruction is a call that does not get as far as the handler. */
  lemma DestroyTells(o: Objects, gone: ObjId)
    requires Told(o) && gone in o.live
    ensures Spares(o, o.Destroy(gone), gone)
    ensures Ended(o.Destroy(gone), gone, LastHistory(gone, false))
  {
    CallTells(o, gone, true);
  }

  /** The two pointers of a wrapper. */
  datatype Pointers = Pointers(fnTable: Option<HandlerType>, impl: Option<ObjId>) {
    /** Dispatching through the table reaches a living object of the table's own type. */
    predicate Dispatches(objects: Objects) {
      impl.Some? ==> impl.value in objects.live && fnTable == Some(objects.live[impl.value])
    }
  }

  const NULL := Pointers(None, None)

  class Heap {
    var objects: Objects

    constructor ()
      ensures objects == Objects(map[], 0, [])
    {
      objects := Objects(map[], 0, []);
    }

    method Create(t: HandlerType, throws: bool) returns (id: Option<ObjId>)
      modifies this
      ensures objects == old(objects).Create(t, throws)
      ensures id == if throws then None else Some(old(objects.next))
      ensures Told(old(objects)) ==> Told(objects) && Spares(old(objects), objects, old(objects.next))
      // A new object, alive and of the right type, to which nothing has happened before ...
      ensures Told(old(objects)) && id.Some? ==>
        && id.value !in old(objects).live && id.value in objects.live && objects.live[id.value] == t
        && History(objects.log, id.value) == [Allocated(id.value)]
      // ... or storage that was taken and given back, and no object at all.
      ensures Told(old(objects)) && id.None? ==>
        var n := old(objects.next);
        objects.live == old(objects).live && Ended(objects, n, [Allocated(n), Deallocated(n)])
    {
      if Told(objects) {
        CreateTells(objects, t, throws);
      }
      var created := objects.next;
      objects := objects.(next := created + 1, log := objects.log + [Allocated(created)]);
      if throws {
        objects := objects.(log := objects.log + [Deallocated(created)]);
        return None;
      }
      objects := objects.(live := objects.live[created := t]);
      return Some(created);
    }

    /** The deleter: destroy, then deallocate.  Both are wrong on an object that is not alive, or
        through the table of another type. */
    method Delete(id: ObjId, t: HandlerType)
      requires id in objects.live && objects.live[id] == t
      modifies this
      ensures objects == old(objects).Destroy(id)
      ensures Told(old(objects)) ==> Spares(old(objects), objects, id) && Ended(objects, id, LastHistory(id, false))
    {
      if Told(objects) {
        DestroyTells(objects, id);
      }
      objects := objects.(live := objects.live - {id}, log := objects.log + [Destroyed(id)]);
      objects := objects.(log := objects.log + [Deallocated(id)]);
    }

    /** The upcall is the last thing that happens, so whatever it does to other wrappers, or to the
        one it came from, are further operations of the program. */
    method Call(id: ObjId, t: HandlerType, throws: bool)
      requires id in objects.live && objects.live[id] == t
      modifies this
      ensures objects == old(objects).Call(id, throws)
      // Its storage is released before the handler is invoked, if it is, and that is all of it.
      ensures Told(old(objects)) ==> Spares(old(objects), objects, id) && Ended(objects, id, LastHistory(id, !throws))
    {
      if Told(objects) {
        CallTells(objects, id, throws);
      }
      Delete(id, t);
      if !throws {
        objects := objects.(log := objects.log + [Invoked(id)]);
      }
    }
  }

  /** How a call of a wrapper ends: the handler was invoked, it threw while it was moved out, or there
      was none and `bad_function_call` is thrown. */
  datatype CallResult = Invocation | HandlerThrew | BadFunctionCall

  class AnyCompletionHandler {
    var fnTable: Option<HandlerType>
    var impl: Option<ObjId>

    ghost function View(): Pointers
      reads this
    {
      Pointers(fnTable, impl)
    }

    constructor Empty()
      ensures View() == NULL
    {
      fnTable, impl := None, None;
    }

    /** Construction around an implementation object that `create` has returned. */
    constructor Target(t: HandlerType, id: ObjId)
      ensures View() == Pointers(Some(t), Some(id))
    {
      fnTable, impl := Some(t), Some(id);
    }

    constructor Move(other: AnyCompletionHandler)
      modifies other
      ensures View() == old(other.View()) && other.View() == NULL
    {
      fnTable, impl := other.fnTable, other.impl;
      new;
      other.fnTable, other.impl := None, None;
    }

    method Swap(other: AnyCompletionHandler)
      modifies this, other
      ensures View() == old(other.View()) && other.View() == old(View())
    {
      var t, i := fnTable, impl;
      fnTable, impl := other.fnTable, other.impl;
      other.fnTable, other.impl := t, i;
    }

    method Destruct(heap: Heap)
      requires View().Dispatches(heap.objects)
      modifies heap
      ensures heap.objects == if impl.Some? then old(heap.objects).Destroy(impl.value) else old(heap.objects)
    {
      if impl.Some? {
        heap.Delete(impl.value, fnTable.value);
      }
    }

    /** Move assignment, by way of a temporary; `other` may be `this`. */
    method MoveAssign(other: AnyCompletionHandler, heap: Heap)
      requires View().Dispatches(heap.objects)
      modifies this, other, heap
      ensures View() == old(other.View())
      ensures other != this ==> other.View() == NULL
      ensures heap.objects ==
        if other != this && old(impl).Some? then old(heap.objects).Destroy(old(impl).value)
        else old(heap.objects)
    {
      var temporary := new AnyCompletionHandler.Move(other);
      temporary.Swap(this);
      temporary.Destruct(heap);
    }

    method AssignNull(heap: Heap)
      requires View().Dispatches(heap.objects)
      modifies this, heap
      ensures View() == NULL
      ensures heap.objects ==
        if old(impl).Some? then old(heap.objects).Destroy(old(impl).value) else old(heap.objects)
    {
      var temporary := new AnyCompletionHandler.Empty();
      temporary.Swap(this);
      temporary.Destruct(heap);
    }

    /** The call operator.  The table pointer stays behind. */
    method Call(heap: Heap, throws: bool) returns (r: CallResult)
      requires View().Dispatches(heap.objects)
      modifies this, heap
      ensures r == if old(impl).None? then BadFunctionCall else if throws then HandlerThrew else Invocation
      ensures View() == old(View()).(impl := None)
      ensures heap.objects ==
        if old(impl).Some? then old(heap.objects).Call(old(impl).value, throws) else old(heap.objects)
    {
      if impl.Some? {
        var target := impl.value;
        impl := None;
        heap.Call(target, fnTable.value, throws);
        return if throws then HandlerThrew else Invocation;
      }
      return BadFunctionCall;
    }
  }
}
