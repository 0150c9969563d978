/** Completion tokens wrapped by `bind_executor`, `bind_allocator` and `bind_cancellation_slot`. */
module Binders {
  import opened Machine

  /** An executor value, with the identity of its C++ type. */
  datatype Executor = Executor(typeId: nat, id: nat)
  type Allocator = nat
  type Slot = nat

  /** A token: a leaf with the associations its own type offers, a `reference_wrapper` around
      another token, or one of the three binders. */
  datatype Token =
    | Leaf(handler: nat, executor: Option<Executor>, allocator: Option<Allocator>, slot: Option<Slot>)
    | Ref(target: Token)
    | ExecutorBinder(ex: Executor, target: Token)
    | AllocatorBinder(al: Allocator, target: Token)
    | SlotBinder(sl: Slot, target: Token)

  /** Construction of an `executor_binder<T, Executor>`.  When T is itself an `executor_binder` for
      the same executor type, `uses_executor` makes the base class construct the inner binder anew
      with the outer executor, and so on inwards. */
  function BindExecutor(ex: Executor, t: Token): Token {
    ExecutorBinder(ex, Rebound(ex, t))
  }

  function Rebound(ex: Executor, t: Token): Token {
    if t.ExecutorBinder? && t.ex.typeId == ex.typeId then ExecutorBinder(ex, Rebound(ex, t.target)) else t
  }

  lemma {:induction false} ReboundForgets(a: Executor, b: Executor, t: Token)
    requires a.typeId == b.typeId
    ensures Rebound(a, Rebound(b, t)) == Rebound(a, t)
  {
    if t.ExecutorBinder? && t.ex.typeId == b.typeId {
      ReboundForgets(a, b, t.target);
    }
  }

  /** A binder inside another one for the same executor type is left with the outer executor; its own is
      nowhere to be found any more. */
  lemma InnerExecutorIsLost(a: Executor, b: Executor, t: Token)
    ensures BindExecutor(a, BindExecutor(b, t)).target == BindExecutor(if a.typeId == b.typeId then a else b, t)
  {
    if a.typeId == b.typeId {
      ReboundForgets(a, b, t);
    }
  }

  function BindAllocator(al: Allocator, t: Token): Token {
    AllocatorBinder(al, t)
  }

  function BindSlot(sl: Slot, t: Token): Token {
    SlotBinder(sl, t)
  }

  // Associations.  Each function follows the specialisations of one associator trait.

  /** `associated_executor<T, E>::get(t, candidate)`. */
  function AssociatedExecutor(t: Token, candidate: Executor): Executor {
    match t
    case Leaf(_, executor, _, _) => if executor.Some? then executor.value else candidate
    case Ref(target) => AssociatedExecutor(target, candidate)
    case ExecutorBinder(ex, _) => ex
    case AllocatorBinder(_, target) => AssociatedExecutor(target, candidate)
    case SlotBinder(_, target) => AssociatedExecutor(target, candidate)
  }

  /** `associated_allocator<T, A>::get(t, candidate)`. */
  function AssociatedAllocator(t: Token, candidate: Allocator): Allocator {
    match t
    case Leaf(_, _, allocator, _) => if allocator.Some? then allocator.value else candidate
    case Ref(target) => AssociatedAllocator(target, candidate)
    case ExecutorBinder(_, target) => AssociatedAllocator(target, candidate)
    case AllocatorBinder(al, _) => al
    case SlotBinder(_, target) => AssociatedAllocator(target, candidate)
  }

  /** `associated_cancellation_slot<T, S>::get(t, candidate)`. */
  function AssociatedSlot(t: Token, candidate: Slot): Slot {
    match t
    case Leaf(_, _, _, slot) => if slot.Some? then slot.value else candidate
    case Ref(target) => AssociatedSlot(target, candidate)
    case ExecutorBinder(_, target) => AssociatedSlot(target, candidate)
    case AllocatorBinder(_, target) => AssociatedSlot(target, candidate)
    case SlotBinder(sl, _) => sl
  }

  /** A token as the list of its wrappers, outermost first, and what is inside. */
  datatype Layer = ByRef | ByExecutor(ex: Executor) | ByAllocator(al: Allocator) | BySlot(sl: Slot)

  function Layers(t: Token): seq<Layer> {
    match t
    case Leaf(_, _, _, _) => []
    case Ref(target) => [ByRef] + Layers(target)
    case ExecutorBinder(ex, target) => [ByExecutor(ex)] + Layers(target)
    case AllocatorBinder(al, target) => [ByAllocator(al)] + Layers(target)
    case SlotBinder(sl, target) => [BySlot(sl)] + Layers(target)
  }

  function Innermost(t: Token): (leaf: Token)
    ensures leaf.Leaf?
  {
    if t.Leaf? then t else Innermost(t.target)
  }

  datatype Kind = OfExecutor | OfAllocator | OfSlot

  predicate Is(layer: Layer, kind: Kind) {
    match kind
    case OfExecutor => layer.ByExecutor?
    case OfAllocator => layer.ByAllocator?
    case OfSlot => layer.BySlot?
  }

  /** Where the outermost layer of a kind is; behind the last layer when there is none. */
  function Outermost(layers: seq<Layer>, kind: Kind): (i: nat)
    ensures i <= |layers|
    ensures i < |layers| ==> Is(layers[i], kind)
    ensures forall j :: 0 <= j < i ==> !Is(layers[j], kind)
  {
    if layers == [] || Is(layers[0], kind) then 0 else 1 + Outermost(layers[1..], kind)
  }

  /** The executor, allocator and slot to fall back on, and those that lookups find. */
  datatype Associations = Associations(ex: Executor, al: Allocator, sl: Slot)

  function Lookup(t: Token, candidate: Associations): Associations {
    Associations(AssociatedExecutor(t, candidate.ex), AssociatedAllocator(t, candidate.al),
                 AssociatedSlot(t, candidate.sl))
  }

  /** The outermost layer of a kind, if there is one. */
  function OutermostOf(layers: seq<Layer>, kind: Kind): (r: Option<Layer>)
    ensures r.Some? ==> Is(r.value, kind)
  {
    var i := Outermost(layers, kind);
    if i < |layers| then Some(layers[i]) else None
  }

  lemma OneLayerMore(layer: Layer, layers: seq<Layer>, kind: Kind)
    ensures OutermostOf([layer] + layers, kind) == if Is(layer, kind) then Some(layer) else OutermostOf(layers, kind)
  {
    assert ([layer] + layers)[1..] == layers;
  }

  /** Every association comes from the outermost binder of its kind, else from the leaf, else it is
      the candidate. */
  lemma {:induction false} LookupFindsOutermost(t: Token, candidate: Associations)
    ensures var found, leaf, layers := Lookup(t, candidate), Innermost(t), Layers(t);
      var e, a, s := OutermostOf(layers, OfExecutor), OutermostOf(layers, OfAllocator), OutermostOf(layers, OfSlot);
      && found.ex == (if e.Some? then e.value.ex else if leaf.executor.Some? then leaf.executor.value else candidate.ex)
      && found.al ==
         (if a.Some? then a.value.al else if leaf.allocator.Some? then leaf.allocator.value else candidate.al)
      && found.sl == (if s.Some? then s.value.sl else if leaf.slot.Some? then leaf.slot.value else candidate.sl)
  {
    if !t.Leaf? {
      LookupFindsOutermost(t.target, candidate);
      var layer := Layers(t)[0];
      OneLayerMore(layer, Layers(t.target), OfExecutor);
      OneLayerMore(layer, Layers(t.target), OfAllocator);
      OneLayerMore(layer, Layers(t.target), OfSlot);
      assert Layers(t) == [layer] + Layers(t.target);
    }
  }

  lemma {:induction false} ReboundKeepsOtherAssociations(ex: Executor, t: Token, c: Associations)
    ensures Lookup(Rebound(ex, t), c).(ex := c.ex) == Lookup(t, c).(ex := c.ex)
    ensures Innermost(Rebound(ex, t)) == Innermost(t)
  {
    if t.ExecutorBinder? && t.ex.typeId == ex.typeId {
      ReboundKeepsOtherAssociations(ex, t.target, c);
    }
  }

  /** The layers put on a token by references and the bind functions, outermost first. */
  function Bind(layers: seq<Layer>, t: Token): Token {
    if layers == [] then t else PutOn(layers[0], Bind(layers[1..], t))
  }

  function PutOn(layer: Layer, t: Token): Token {
    match layer
    case ByRef => Ref(t)
    case ByExecutor(ex) => BindExecutor(ex, t)
    case ByAllocator(al) => BindAllocator(al, t)
    case BySlot(sl) => BindSlot(sl, t)
  }

  lemma {:induction false} BindInTwoParts(outer: seq<Layer>, inner: seq<Layer>, t: Token)
    ensures Bind(outer + inner, t) == Bind(outer, Bind(inner, t))
  {
    if outer == [] {
      assert outer + inner == inner;
    } else {
      BindInTwoParts(outer[1..], inner, t);
      assert (outer + inner)[1..] == outer[1..] + inner;
    }
  }

  /** What a layer makes of the lookups through it. */
  function Through(layer: Layer, found: Associations): Associations {
    match layer
    case ByRef => found
    case ByExecutor(ex) => found.(ex := ex)
    case ByAllocator(al) => found.(al := al)
    case BySlot(sl) => found.(sl := sl)
  }

  /** Binding sets the one association and leaves the others; a reference leaves all. */
  lemma LookupThrough(layer: Layer, t: Token, c: Associations)
    ensures Lookup(PutOn(layer, t), c) == Through(layer, Lookup(t, c))
  {
    match layer
    case ByRef =>
    case ByExecutor(ex) => ReboundKeepsOtherAssociations(ex, t, c);
    case ByAllocator(_) =>
    case BySlot(_) =>
  }

  /** Tokens that cannot be told apart by lookups cannot be told apart under any layers either. */
  lemma {:induction false} SameLookupsUnderLayers(layers: seq<Layer>, t: Token, u: Token, c: Associations)
    requires Lookup(t, c) == Lookup(u, c)
    ensures Lookup(Bind(layers, t), c) == Lookup(Bind(layers, u), c)
  {
    if layers != [] {
      SameLookupsUnderLayers(layers[1..], t, u, c);
      LookupThrough(layers[0], Bind(layers[1..], t), c);
      LookupThrough(layers[0], Bind(layers[1..], u), c);
    }
  }

  predicate SameKind(a: Layer, b: Layer) {
    (a.ByExecutor? && b.ByExecutor?) || (a.ByAllocator? && b.ByAllocator?) || (a.BySlot? && b.BySlot?)
  }

  /** Under any layers and around any token, adjacent layers of different kinds can be swapped without
      changing a lookup ... */
  lemma LayersOfDifferentKindsCommute(outer: seq<Layer>, a: Layer, b: Layer, t: Token, c: Associations)
    requires !SameKind(a, b)
    ensures Lookup(Bind(outer + [a, b], t), c) == Lookup(Bind(outer + [b, a], t), c)
  {
    BindTwo(a, b, t, c);
    BindTwo(b, a, t, c);
    SameLookupsUnderLayers(outer, Bind([a, b], t), Bind([b, a], t), c);
    BindInTwoParts(outer, [a, b], t);
    BindInTwoParts(outer, [b, a], t);
  }

  /** ... and those of one kind exactly when they agree. */
  lemma LayersOfOneKindCommute(a: Layer, b: Layer, t: Token, c: Associations)
    requires SameKind(a, b)
    ensures Lookup(Bind([a, b], t), c) == Lookup(Bind([b, a], t), c) <==> a == b
  {
    BindTwo(a, b, t, c);
    BindTwo(b, a, t, c);
  }

  lemma BindTwo(a: Layer, b: Layer, t: Token, c: Associations)
    ensures Lookup(Bind([a, b], t), c) == Through(a, Through(b, Lookup(t, c)))
  {
    assert [a, b][1..] == [b] && [b][1..] == [];
    assert Bind([b], t) == PutOn(b, t);
    LookupThrough(b, t, c);
    LookupThrough(a, PutOn(b, t), c);
  }

  // Initiation.

  /** An initiation: the one that the caller passed, or an `init_wrapper` around another. */
  datatype Initiation =
    | Original(op: nat)
    | WrapExecutor(ex: Executor, inner: Initiation)
    | WrapAllocator(al: Allocator, inner: Initiation)
    | WrapSlot(sl: Slot, inner: Initiation)

  /** What the caller's initiation is finally called with. */
  datatype Call = Call(op: nat, handler: Token, args: seq<nat>)

  /** `initiation(handler, args...)`: each wrapper puts its binder around the handler. */
  function Invoke(i: Initiation, handler: Token, args: seq<nat>): Call {
    match i
    case Original(op) => Call(op, handler, args)
    case WrapExecutor(ex, inner) => Invoke(inner, BindExecutor(ex, handler), args)
    case WrapAllocator(al, inner) => Invoke(inner, BindAllocator(al, handler), args)
    case WrapSlot(sl, inner) => Invoke(inner, BindSlot(sl, handler), args)
  }

  /** `async_initiate(initiation, token, args...)`: each binder wraps the initiation and passes its
      target on; anything else is itself the handler. */
  function AsyncInitiate(i: Initiation, token: Token, args: seq<nat>): Call
    decreases token
  {
    match token
    case ExecutorBinder(ex, target) => AsyncInitiate(WrapExecutor(ex, i), target, args)
    case AllocatorBinder(al, target) => AsyncInitiate(WrapAllocator(al, i), target, args)
    case SlotBinder(sl, target) => AsyncInitiate(WrapSlot(sl, i), target, args)
    case Leaf(_, _, _, _) => Invoke(i, token, args)
    case Ref(_) => Invoke(i, token, args)
  }

  /** The token built once more by the three bind functions, from the inside out. */
  function Rebuilt(t: Token): Token {
    match t
    case ExecutorBinder(ex, target) => BindExecutor(ex, Rebuilt(target))
    case AllocatorBinder(al, target) => BindAllocator(al, Rebuilt(target))
    case SlotBinder(sl, target) => BindSlot(sl, Rebuilt(target))
    case Leaf(_, _, _, _) => t
    case Ref(_) => t
  }

  /** Peeling the binders off the token and piling them up on the initiation comes to the same as
      handing the rebuilt token to the initiation directly, whatever is piled up already. */
  lemma {:induction false} InitiateIsInvokeRebuilt(i: Initiation, t: Token, args: seq<nat>)
    ensures AsyncInitiate(i, t, args) == Invoke(i, Rebuilt(t), args)
    decreases t
  {
    match t
    case ExecutorBinder(ex, target) => InitiateIsInvokeRebuilt(WrapExecutor(ex, i), target, args);
    case AllocatorBinder(al, target) => InitiateIsInvokeRebuilt(WrapAllocator(al, i), target, args);
    case SlotBinder(sl, target) => InitiateIsInvokeRebuilt(WrapSlot(sl, i), target, args);
    case Leaf(_, _, _, _) =>
    case Ref(_) =>
  }

  /** Directly nested executor binders of one type carry one executor. */
  predicate UniformTower(t: Token) {
    match t
    case ExecutorBinder(ex, target) =>
      UniformTower(target) && (target.ExecutorBinder? && target.ex.typeId == ex.typeId ==> target.ex == ex)
    case AllocatorBinder(_, target) => UniformTower(target)
    case SlotBinder(_, target) => UniformTower(target)
    case Leaf(_, _, _, _) => true
    case Ref(_) => true
  }

  lemma {:induction false} ReboundTower(ex: Executor, t: Token)
    requires UniformTower(t)
    ensures UniformTower(ExecutorBinder(ex, Rebound(ex, t)))
    ensures Rebound(ex, t) == t <==> UniformTower(ExecutorBinder(ex, t))
  {
    if t.ExecutorBinder? && t.ex.typeId == ex.typeId {
      ReboundTower(ex, t.target);
    }
  }

  lemma {:induction false} RebuiltIsSame(t: Token)
    ensures UniformTower(Rebuilt(t))
    ensures Rebuilt(t) == t <==> UniformTower(t)
  {
    match t
    case ExecutorBinder(ex, target) =>
      RebuiltIsSame(target);
      ReboundTower(ex, Rebuilt(target));
    case AllocatorBinder(_, target) => RebuiltIsSame(target);
    case SlotBinder(_, target) => RebuiltIsSame(target);
    case Leaf(_, _, _, _) =>
    case Ref(_) =>
  }

  lemma {:induction false} RebuiltKeepsAssociations(t: Token, c: Associations)
    ensures Lookup(Rebuilt(t), c) == Lookup(t, c) && Innermost(Rebuilt(t)) == Innermost(t)
  {
    match t
    case ExecutorBinder(ex, target) =>
      RebuiltKeepsAssociations(target, c);
      ReboundKeepsOtherAssociations(ex, Rebuilt(target), c);
    case AllocatorBinder(_, target) => RebuiltKeepsAssociations(target, c);
    case SlotBinder(_, target) => RebuiltKeepsAssociations(target, c);
    case Leaf(_, _, _, _) =>
    case Ref(_) =>
  }

  /** For every token, the operation and the arguments arrive unchanged, and the handler that arrives
      ends in the same leaf and has the same associations; it is the very token that was passed if
      and only if directly nested executor binders of one type carry one executor ... */
  lemma TowerArrives(op: nat, t: Token, args: seq<nat>, c: Associations)
    ensures var call := AsyncInitiate(Original(op), t, args);
      && call.op == op && call.args == args
      && Lookup(call.handler, c) == Lookup(t, c) && Innermost(call.handler) == Innermost(t)
      && (call.handler == t <==> UniformTower(t))
  {
    InitiateIsInvokeRebuilt(Original(op), t, args);
    RebuiltIsSame(t);
    RebuiltKeepsAssociations(t, c);
  }

  /** Every token that references and the bind functions have built arrives as it is. */
  lemma {:induction false} BoundTokensArrive(layers: seq<Layer>, t: Token, op: nat, args: seq<nat>)
    requires t.Leaf? || t.Ref?
    ensures UniformTower(Bind(layers, t))
    ensures AsyncInitiate(Original(op), Bind(layers, t), args) == Call(op, Bind(layers, t), args)
  {
    if layers != [] {
      BoundTokensArrive(layers[1..], t, op, args);
      if layers[0].ByExecutor? {
        ReboundTower(layers[0].ex, Bind(layers[1..], t));
      }
    }
    InitiateIsInvokeRebuilt(Original(op), Bind(layers, t), args);
    RebuiltIsSame(Bind(layers, t));
  }
}
