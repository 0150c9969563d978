/** Programs over real wrapper objects are runs of the ownership model. */
module HandlerPrograms {
  import opened Machine
  import opened CompletionHandlers
  import opened HandlerRuns

  class Program {
    const heap: Heap
    var wrappers: seq<AnyCompletionHandler?>

    ghost predicate Distinct()
      reads this
    {
      forall i, j :: 0 <= i < j < |wrappers| && wrappers[i] != null ==> wrappers[i] != wrappers[j]
    }

    /** The wrappers and the heap are in the state `w`. */
    ghost predicate Shows(w: World)
      reads this, heap, wrappers
    {
      && Distinct()
      && heap.objects == w.objects
      && |wrappers| == |w.slots|
      && forall i :: 0 <= i < |wrappers| ==>
           w.slots[i] == if wrappers[i] == null then None else Some(wrappers[i].View())
    }

    constructor (places: nat)
      ensures Shows(Start(places)) && fresh(heap)
      ensures forall x <- wrappers :: x == null
    {
      heap := new Heap();
      wrappers := seq(places, _ => null);
    }

    /** What the program may replace wrappers by. */
    twostate predicate OwnsWrappers()
      reads this
    {
      forall k :: 0 <= k < |wrappers| && wrappers[k] != null ==>
        wrappers[k] in old(wrappers) || fresh(wrappers[k])
    }

    method ConstructEmptyAt(i: nat, ghost w: World)
      requires Shows(w) && Free(i)
      modifies this`wrappers
      ensures Shows(Step(w, ConstructEmpty(i))) && OwnsWrappers()
    {
      var x := new AnyCompletionHandler.Empty();
      wrappers := wrappers[i := x];
    }

    method ConstructTargetAt(i: nat, t: HandlerType, throws: bool, ghost w: World)
      requires Shows(w) && Free(i)
      modifies this`wrappers, heap
      ensures Shows(Step(w, ConstructTarget(i, t, throws))) && OwnsWrappers()
    {
      var id := heap.Create(t, throws);
      if id.Some? {
        var x := new AnyCompletionHandler.Target(t, id.value);
        wrappers := wrappers[i := x];
      }
    }

    method MoveConstructAt(i: nat, j: nat, ghost w: World)
      requires Shows(w) && Free(i) && Usable(j)
      modifies this`wrappers, wrappers[j]
      ensures Shows(Step(w, MoveConstruct(i, j))) && OwnsWrappers()
    {
      var x := new AnyCompletionHandler.Move(wrappers[j]);
      wrappers := wrappers[i := x];
    }

    method MoveAssignAt(i: nat, j: nat, ghost w: World)
      requires Shows(w) && Owned(w) && Usable(i) && Usable(j)
      modifies heap, wrappers[i], wrappers[j]
      ensures Shows(Step(w, MoveAssign(i, j)))
    {
      assert w.slots[i].value.Dispatches(w.objects);
      wrappers[i].MoveAssign(wrappers[j], heap);
    }

    method AssignNullAt(i: nat, ghost w: World)
      requires Shows(w) && Owned(w) && Usable(i)
      modifies heap, wrappers[i]
      ensures Shows(Step(w, AssignNull(i)))
    {
      assert w.slots[i].value.Dispatches(w.objects);
      wrappers[i].AssignNull(heap);
    }

    method SwapAt(i: nat, j: nat, ghost w: World)
      requires Shows(w) && Usable(i) && Usable(j)
      modifies wrappers[i], wrappers[j]
      ensures Shows(Step(w, Swap(i, j)))
    {
      wrappers[i].Swap(wrappers[j]);
    }

    method CallAt(i: nat, throws: bool, ghost w: World) returns (r: CallResult)
      requires Shows(w) && Owned(w) && Usable(i)
      modifies heap, wrappers[i]
      ensures Shows(Step(w, Call(i, throws)))
      ensures r == Answer(w.slots[i].value, throws)
    {
      assert w.slots[i].value.Dispatches(w.objects);
      r := wrappers[i].Call(heap, throws);
    }

    method DestructAt(i: nat, ghost w: World)
      requires Shows(w) && Owned(w) && Usable(i)
      modifies heap, this`wrappers
      ensures Shows(Step(w, Destruct(i))) && OwnsWrappers()
    {
      assert w.slots[i].value.Dispatches(w.objects);
      wrappers[i].Destruct(heap);
      wrappers := wrappers[i := null];
    }

    /** One operation, with its effects on the wrappers and in the log; a call answers how it ended. */
    method Perform(op: Op, ghost w: World) returns (r: Option<CallResult>, ghost next: World)
      requires Shows(w) && Owned(w) && Told(w.objects)
      modifies this, heap, wrappers
      ensures next == Step(w, op) && Shows(next) && OwnsWrappers()
      ensures Effects(w, op, next) && Owned(next) && Told(next.objects)
      ensures r == AnswerTo(w.slots, op)
    {
      StepHasEffects(w, op);
      StepKeepsOwnership(w, op);
      StepTells(w, op);
      next := Step(w, op);
      r := Dispatch(op, w);
    }

    method Dispatch(op: Op, ghost w: World) returns (r: Option<CallResult>)
      requires Shows(w) && Owned(w)
      modifies this, heap, wrappers
      ensures Shows(Step(w, op)) && OwnsWrappers()
      ensures r == AnswerTo(w.slots, op)
    {
      r := None;
      if !IsAllowed(op) {
        return;
      }
      match op
      case ConstructEmpty(i) => ConstructEmptyAt(i, w);
      case ConstructTarget(i, t, throws) => ConstructTargetAt(i, t, throws, w);
      case MoveConstruct(i, j) => MoveConstructAt(i, j, w);
      case MoveAssign(i, j) => MoveAssignAt(i, j, w);
      case AssignNull(i) => AssignNullAt(i, w);
      case Swap(i, j) => SwapAt(i, j, w);
      case Call(i, throws) =>
        var result := CallAt(i, throws, w);
        r := Some(result);
      case Destruct(i) => DestructAt(i, w);
    }

    predicate Usable(i: nat)
      reads this
    {
      i < |wrappers| && wrappers[i] != null
    }

    predicate Free(i: nat)
      reads this
    {
      i < |wrappers| && wrappers[i] == null
    }

    predicate IsAllowed(op: Op)
      reads this
    {
      match op
      case ConstructEmpty(i) => Free(i)
      case ConstructTarget(i, _, _) => Free(i)
      case MoveConstruct(i, j) => Free(i) && Usable(j)
      case MoveAssign(i, j) => Usable(i) && Usable(j)
      case AssignNull(i) => Usable(i)
      case Swap(i, j) => Usable(i) && Usable(j)
      case Call(i, _) => Usable(i)
      case Destruct(i) => Usable(i)
    }
  }

  /** How a call must end: without a target by `bad_function_call`, otherwise as the handler lets it. */
  function Answer(p: Pointers, throws: bool): CallResult {
    if p.impl.None? then BadFunctionCall else if throws then HandlerThrew else Invocation
  }

  function AnswerTo(slots: seq<Slot>, op: Op): Option<CallResult> {
    if op.Call? && Built(slots, op.i) then Some(Answer(slots[op.i].value, op.throws)) else None
  }

  /** What happened to each object is what the program gave a cause for. */
  ghost predicate Explained(places: nat, ops: seq<Op>, o: Objects) {
    forall e :: Count(o.log, e) <= 1 && (Count(o.log, e) == 1 <==> Caused(Start(places), ops, |ops|, e))
  }

  /** A handler was invoked exactly if a wrapper that owned it then was called and it could be moved
      out. */
  ghost predicate InvokedByCalls(places: nat, ops: seq<Op>, o: Objects) {
    forall id: ObjId :: Count(o.log, Invoked(id)) == 1 <==>
      exists k: nat :: k < |ops| && CallsOwnerAt(places, ops, k, id)
  }

  lemma RunIsExplained(places: nat, ops: seq<Op>)
    ensures Explained(places, ops, Run(Start(places), ops, |ops|).objects)
    ensures InvokedByCalls(places, ops, Run(Start(places), ops, |ops|).objects)
  {
    forall e {
      EveryEventHasItsCause(places, ops, e);
    }
    forall id: ObjId {
      InvokedExactlyByCalls(places, ops, id);
    }
  }

  /** The operation at `k` answered what it must in the state that the program had come to. */
  predicate AnsweredAt(places: nat, ops: seq<Op>, k: nat, r: Option<CallResult>)
    requires k < |ops|
  {
    r == AnswerTo(Run(Start(places), ops, k).slots, ops[k])
  }

  ghost predicate Answered(places: nat, ops: seq<Op>, results: seq<Option<CallResult>>) {
    |results| <= |ops| && forall k: nat :: k < |results| ==> AnsweredAt(places, ops, k, results[k])
  }

  lemma AnsweredNext(places: nat, ops: seq<Op>, results: seq<Option<CallResult>>, r: Option<CallResult>)
    requires Answered(places, ops, results) && |results| < |ops| && AnsweredAt(places, ops, |results|, r)
    ensures Answered(places, ops, results + [r])
  {
  }

  method PerformNext(p: Program, places: nat, ops: seq<Op>, i: nat, ghost w: World)
    returns (r: Option<CallResult>, ghost next: World)
    requires i < |ops| && w == Run(Start(places), ops, i)
    requires p.Shows(w) && Owned(w) && Told(w.objects)
    modifies p, p.heap, p.wrappers
    ensures next == Run(Start(places), ops, i + 1) && AnsweredAt(places, ops, i, r)
    ensures p.Shows(next) && Owned(next) && Told(next.objects) && p.OwnsWrappers()
  {
    r, next := p.Perform(ops[i], w);
  }

  /** Every program of real wrappers is a run of the model; on the way each dispatch finds a living
      object of the right type, which is what `Perform` requires. */
  method Play(places: nat, ops: seq<Op>)
    returns (p: Program, results: seq<Option<CallResult>>, ghost w: World)
    ensures w == Run(Start(places), ops, |ops|) && p.Shows(w)
    ensures |results| == |ops| && Answered(places, ops, results)
  {
    p := new Program(places);
    results, w := [], Start(places);
    for i := 0 to |ops|
      invariant fresh(p) && fresh(p.heap)
      invariant forall k :: 0 <= k < |p.wrappers| && p.wrappers[k] != null ==> fresh(p.wrappers[k])
      invariant p.Shows(w) && Owned(w) && Told(w.objects)
      invariant w == Run(Start(places), ops, i)
      invariant |results| == i && Answered(places, ops, results)
    {
      var r;
      r, w := PerformNext(p, places, ops, i, w);
      AnsweredNext(places, ops, results, r);
      results := results + [r];
    }
  }

  /** Every program of real wrappers ends in the state that the model ends in; its handlers have been
      invoked exactly by the calls that it made of their owners, all that happened to its objects was
      caused by the program, and every call was answered accordingly. */
  method Execute(places: nat, ops: seq<Op>) returns (p: Program, results: seq<Option<CallResult>>)
    ensures p.Shows(Run(Start(places), ops, |ops|))
    ensures InvokedByCalls(places, ops, p.heap.objects) && Explained(places, ops, p.heap.objects)
    ensures |results| == |ops| && Answered(places, ops, results)
  {
    ghost var w;
    p, results, w := Play(places, ops);
    RunIsExplained(places, ops);
  }
}
