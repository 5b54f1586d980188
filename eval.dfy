/**
  What the emitted items do when called: a stage value holds its bound
  arguments, and calling it with a tuple of arguments runs the one impl for
  its type and that arity (the `FnOnce::call_once` the source implements).
  `V` stands for a run-time argument value.
 */
module Eval {
  import opened Wrappers
  import opened Names
  import opened Items
  import opened CurryPlan
  import opened Macro

  datatype Value<V> =
      /** an instance of the stage struct `ty` */
    | StageValue(ty: Name, fields: seq<V>)
      /** the result of calling the function `callee` with `args` */
    | Invoked(callee: Name, args: seq<V>)
      /** no impl takes this many arguments on this value: the call does not compile */
    | NoImpl
      /** an impl body names a field that does not exist: the impl does not compile */
    | BadField

  predicate Handles<T, B>(item: Item<T, B>, ty: Name, arity: nat) {
    item.Impl? && item.selfTy == ty && |item.argTys| == arity
  }

  /** The first impl for self type `ty` taking `arity` arguments. */
  function Lookup<T, B>(items: seq<Item<T, B>>, ty: Name, arity: nat): (r: Option<Item<T, B>>)
    ensures r.None? <==> forall k :: 0 <= k < |items| ==> !Handles(items[k], ty, arity)
    ensures r.Some? ==> exists k :: 0 <= k < |items| && items[k] == r.value && Handles(items[k], ty, arity)
    decreases |items|
  {
    if items == [] then None
    else if Handles(items[0], ty, arity) then Some(items[0])
    else Lookup(items[1..], ty, arity)
  }

  /** `self.k` or `args.k`. */
  function Fetch<V>(r: FieldRef, self: seq<V>, args: seq<V>): Option<V> {
    match r
    case SelfField(k) => if k < |self| then Some(self[k]) else None
    case ArgField(k) => if k < |args| then Some(args[k]) else None
  }

  function FetchAll<V>(refs: seq<FieldRef>, self: seq<V>, args: seq<V>): Option<seq<V>>
    decreases |refs|
  {
    if refs == [] then Some([])
    else match (Fetch(refs[0], self, args), FetchAll(refs[1..], self, args))
      case (Some(v), Some(vs)) => Some([v] + vs)
      case _ => None
  }

  /** Run one impl's body on the fields of `self` and the tuple `args`. */
  function Apply<T, B, V>(item: Item<T, B>, self: seq<V>, args: seq<V>): Value<V>
    requires item.Impl?
  {
    match item.body
    case Construct(target, refs) =>
      (match FetchAll(refs, self, args) case Some(vs) => StageValue(target, vs) case None => BadField)
    case CallReal(callee, refs) =>
      (match FetchAll(refs, self, args) case Some(vs) => Invoked(callee, vs) case None => BadField)
  }

  /** `v(args...)`: dispatch on the value's type and the number of arguments. */
  function Call<T, B, V>(items: seq<Item<T, B>>, v: Value<V>, args: seq<V>): Value<V> {
    match v
    case StageValue(ty, fields) =>
      (match Lookup(items, ty, |args|) case Some(item) => Apply(item, fields, args) case None => NoImpl)
    case _ => NoImpl
  }

  /** The value of the entry constant of the function `id`: stage 0, holding nothing. */
  function Entry<V>(id: string): Value<V> {
    StageValue(BaseCurried(id), [])
  }

  /** `v(g0...)(g1...)...`: one call per group, in order. */
  function Chain<T, B, V>(items: seq<Item<T, B>>, v: Value<V>, groups: seq<seq<V>>): Value<V>
    decreases |groups|
  {
    if groups == [] then v else Chain(items, Call(items, v, groups[0]), groups[1..])
  }

  function Flatten<V>(groups: seq<seq<V>>): seq<V>
    decreases |groups|
  {
    if groups == [] then [] else groups[0] + Flatten(groups[1..])
  }

  // ---------------------------------------------------------------------------

  lemma {:induction false} FetchAllPointwise<V>(refs: seq<FieldRef>, self: seq<V>, args: seq<V>, vals: seq<V>)
    requires |refs| == |vals|
    requires forall i :: 0 <= i < |refs| ==> Fetch(refs[i], self, args) == Some(vals[i])
    ensures FetchAll(refs, self, args) == Some(vals)
    decreases |refs|
  {
    if refs != [] {
      FetchAllPointwise(refs[1..], self, args, vals[1..]);
      assert [vals[0]] + vals[1..] == vals;
    }
  }

  /** `self.0, ..., self.(m-1), args.0, ..., args.(n-1)` reads the old fields, then the new arguments. */
  lemma FieldsInOrder<V>(self: seq<V>, args: seq<V>)
    ensures FetchAll(SelfFields(|self|) + ArgFields(|args|), self, args) == Some(self + args)
  {
    var refs := SelfFields(|self|) + ArgFields(|args|);
    forall i | 0 <= i < |refs|
      ensures Fetch(refs[i], self, args) == Some((self + args)[i])
    {
      if i < |self| {
        assert refs[i] == SelfField(i);
      } else {
        assert refs[i] == ArgField(i - |self|);
      }
    }
    FetchAllPointwise(refs, self, args, self + args);
  }

  /**
    Running a transition's impl on a stage holding `from` arguments, with the
    `to - from` next ones, gives the stage holding all of them in order, or
    the call of the relocated function with all of them in order.
   */
  lemma ApplyEdge<T, B, V>(id: string, inputs: seq<T>, ret: ReturnType<T>, from: nat, to: nat, bound: seq<V>, args: seq<V>)
    requires IsEdge(|inputs|, from, to) && |bound| == from && |args| == to - from
    ensures Apply(Edge<T, B>(id, inputs, ret, from, to), bound, args) ==
      if to < |inputs| then StageValue(StepName(id, to), bound + args) else Invoked(RealImpl(id), bound + args)
  {
    FieldsInOrder(bound, args);
  }

  /** Each impl of `items` is the impl of some transition of the table for `inputs`. */
  ghost predicate ImplsFromTable<T, B>(items: seq<Item<T, B>>, id: string, inputs: seq<T>, ret: ReturnType<T>) {
    forall k :: 0 <= k < |items| && items[k].Impl? ==>
      exists f: nat, t: nat :: IsEdge(|inputs|, f, t) && items[k] == Edge(id, inputs, ret, f, t)
  }

  /** When some item handles (ty, arity) and every one that does is `x`, the lookup finds `x`. */
  lemma LookupUnique<T, B>(items: seq<Item<T, B>>, ty: Name, arity: nat, q: nat, x: Item<T, B>)
    requires q < |items| && items[q] == x && Handles(x, ty, arity)
    requires forall k :: 0 <= k < |items| && Handles(items[k], ty, arity) ==> items[k] == x
    ensures Lookup(items, ty, arity) == Some(x)
  {
    assert !(forall k :: 0 <= k < |items| ==> !Handles(items[k], ty, arity));
  }

  /** Every impl for stage `from` taking `k` arguments is the impl of the transition (from, from + k). */
  lemma HandlersAreEdges<T, B>(items: seq<Item<T, B>>, id: string, inputs: seq<T>, ret: ReturnType<T>, from: nat, k: nat)
    requires ImplsFromTable(items, id, inputs, ret)
    ensures forall q :: 0 <= q < |items| && Handles(items[q], StepName(id, from), k) ==>
      IsEdge(|inputs|, from, from + k) && items[q] == Edge(id, inputs, ret, from, from + k)
  {
    forall q | 0 <= q < |items| && Handles(items[q], StepName(id, from), k)
      ensures IsEdge(|inputs|, from, from + k) && items[q] == Edge(id, inputs, ret, from, from + k)
    {
      var f: nat, t: nat :| IsEdge(|inputs|, f, t) && items[q] == Edge(id, inputs, ret, f, t);
      EdgeShape<T, B>(id, inputs, ret, f, t);
      assert f == from by {
        assert StepName(id, f) == StepName(id, from);
      }
    }
  }

  /**
    On a stage value, a call with `k` arguments finds exactly the impl of
    the transition (from, from + k) when that transition is legal, and no
    impl otherwise.
   */
  lemma LookupInTable<T, B>(items: seq<Item<T, B>>, id: string, inputs: seq<T>, ret: ReturnType<T>, from: nat, k: nat)
    requires ImplsFromTable(items, id, inputs, ret)
    requires IsEdge(|inputs|, from, from + k) ==> Edge(id, inputs, ret, from, from + k) in items
    ensures Lookup(items, StepName(id, from), k) ==
      if IsEdge(|inputs|, from, from + k) then Some(Edge(id, inputs, ret, from, from + k)) else None
  {
    HandlersAreEdges(items, id, inputs, ret, from, k);
    if IsEdge(|inputs|, from, from + k) {
      var e := Edge<T, B>(id, inputs, ret, from, from + k);
      EdgeShape<T, B>(id, inputs, ret, from, from + k);
      var q :| 0 <= q < |items| && items[q] == e;
      LookupUnique(items, StepName(id, from), k, q, e);
    }
  }

  /**
    What one call on the stage holding `bound` (the first |bound| arguments)
    with `args` does, for a function of `n` parameters.
   */
  function Step<V>(id: string, n: nat, bound: seq<V>, args: seq<V>): Value<V> {
    if !IsEdge(n, |bound|, |bound| + |args|) then NoImpl
    else if |bound| + |args| < n then StageValue(StepName(id, |bound| + |args|), bound + args)
    else Invoked(RealImpl(id), bound + args)
  }

  /** Every call on every stage value dispatches as `Step` says. */
  ghost predicate Dispatches<T, B, V(!new)>(items: seq<Item<T, B>>, id: string, n: nat) {
    forall bound: seq<V>, args: seq<V> {:trigger Call(items, StageValue(StepName(id, |bound|), bound), args)} ::
      Call(items, StageValue(StepName(id, |bound|), bound), args) == Step(id, n, bound, args)
  }

  lemma CallInTable<T, B, V>(items: seq<Item<T, B>>, id: string, inputs: seq<T>, ret: ReturnType<T>, bound: seq<V>, args: seq<V>)
    requires ImplsFromTable(items, id, inputs, ret)
    requires IsEdge(|inputs|, |bound|, |bound| + |args|) ==> Edge(id, inputs, ret, |bound|, |bound| + |args|) in items
    ensures Call(items, StageValue(StepName(id, |bound|), bound), args) == Step(id, |inputs|, bound, args)
  {
    LookupInTable(items, id, inputs, ret, |bound|, |args|);
    if IsEdge(|inputs|, |bound|, |bound| + |args|) {
      ApplyEdge<T, B, V>(id, inputs, ret, |bound|, |bound| + |args|, bound, args);
    }
  }

  lemma CurryItemsFromTable<T, B>(id: string, vis: Visibility, inputs: seq<T>, ret: ReturnType<T>, block: B)
    ensures ImplsFromTable(CurryItems(id, vis, inputs, ret, block), id, inputs, ret)
  {
    ImplsAreTransitions(id, vis, inputs, ret, block);
  }

  lemma EdgeImplemented<T, B>(id: string, vis: Visibility, inputs: seq<T>, ret: ReturnType<T>, block: B, f: nat, t: nat)
    requires IsEdge(|inputs|, f, t)
    ensures Edge(id, inputs, ret, f, t) in CurryItems(id, vis, inputs, ret, block)
  {
    TransitionsAreImplemented(id, vis, inputs, ret, block);
  }

  /**
    One call on the stage holding `bound` (its first |bound| arguments):
    when |bound| + |args| < N it builds the stage holding `bound + args`;
    when the arguments complete the N parameters it calls the relocated
    function with `bound + args`; any other count has no impl.
   */
  lemma CallOnStage<T, B, V>(id: string, vis: Visibility, inputs: seq<T>, ret: ReturnType<T>, block: B, bound: seq<V>, args: seq<V>)
    ensures Call(CurryItems(id, vis, inputs, ret, block), StageValue(StepName(id, |bound|), bound), args) == Step(id, |inputs|, bound, args)
  {
    CurryItemsFromTable(id, vis, inputs, ret, block);
    if IsEdge(|inputs|, |bound|, |bound| + |args|) {
      EdgeImplemented(id, vis, inputs, ret, block, |bound|, |bound| + |args|);
    }
    CallInTable(CurryItems(id, vis, inputs, ret, block), id, inputs, ret, bound, args);
  }

  /** Every call on every stage value of the emitted items dispatches as `Step` says. */
  lemma CurryItemsDispatch<T, B, V(!new)>(id: string, vis: Visibility, inputs: seq<T>, ret: ReturnType<T>, block: B)
    ensures Dispatches<T, B, V>(CurryItems(id, vis, inputs, ret, block), id, |inputs|)
  {
    forall bound: seq<V>, args: seq<V>
      ensures Call(CurryItems(id, vis, inputs, ret, block), StageValue(StepName(id, |bound|), bound), args) == Step(id, |inputs|, bound, args)
    {
      CallOnStage(id, vis, inputs, ret, block, bound, args);
    }
  }

  /**
    The first emitted item is the entry constant `const id: ty = ty();` of
    the entry type, so its value is `Entry(id)`;
    the last is the relocated function, with the original parameters, return
    type and body, and without `const`.
   */
  lemma Endpoints<T, B, V>(id: string, vis: Visibility, inputs: seq<T>, ret: ReturnType<T>, block: B)
    ensures CurryItems(id, vis, inputs, ret, block)[0] == Const(vis, Ident(id), BaseCurried(id))
    ensures CurryItems(id, vis, inputs, ret, block)[0].ty == BaseCurried(id)
    ensures Entry<V>(id) == StageValue(CurryItems(id, vis, inputs, ret, block)[0].ty, [])
    ensures CurryItems(id, vis, inputs, ret, block)[|CurryItems(id, vis, inputs, ret, block)| - 1] ==
      RealFn(RealImpl(id), false, inputs, ret, block)
  {
  }

  predicate NonEmptyGroups<V>(groups: seq<seq<V>>) {
    forall g :: 0 <= g < |groups| ==> |groups[g]| > 0
  }

  lemma {:induction false} FlattenLength<V>(groups: seq<seq<V>>)
    requires NonEmptyGroups(groups)
    ensures |Flatten(groups)| >= |groups|
    decreases |groups|
  {
    if groups != [] {
      FlattenLength(groups[1..]);
    }
  }

  /**
    From the stage holding its first `|bound|` arguments, calling once per
    non-empty group calls the relocated function with `bound` and the groups'
    arguments in order, once they add up to all N arguments.
   */
  lemma {:induction false} ChainToCall<T, B, V(!new)>(items: seq<Item<T, B>>, id: string, n: nat, bound: seq<V>, groups: seq<seq<V>>)
    requires Dispatches<T, B, V>(items, id, n)
    requires |bound| < n
    requires groups != [] && NonEmptyGroups(groups)
    requires |bound| + |Flatten(groups)| == n
    ensures Chain(items, StageValue(StepName(id, |bound|), bound), groups) == Invoked(RealImpl(id), bound + Flatten(groups))
    decreases |groups|
  {
    var g, more := groups[0], groups[1..];
    assert Call(items, StageValue(StepName(id, |bound|), bound), g) == Step(id, n, bound, g);
    assert Flatten(groups) == g + Flatten(more);
    if |bound| + |g| == n {
      FlattenLength(more);
      assert more == [];
      assert Flatten(groups) == g;
    } else {
      ChainToCall(items, id, n, bound + g, more);
      assert bound + g + Flatten(more) == bound + Flatten(groups);
    }
  }

  /**
    From the stage holding its first `|bound|` arguments, any grouping of
    further arguments into non-empty calls that stays short of N gives the
    stage holding `bound` and those arguments in order.
   */
  lemma {:induction false} ChainToStage<T, B, V(!new)>(items: seq<Item<T, B>>, id: string, n: nat, bound: seq<V>, groups: seq<seq<V>>)
    requires Dispatches<T, B, V>(items, id, n)
    requires NonEmptyGroups(groups)
    requires |bound| + |Flatten(groups)| < n
    ensures Chain(items, StageValue(StepName(id, |bound|), bound), groups) ==
      StageValue(StepName(id, |bound| + |Flatten(groups)|), bound + Flatten(groups))
    decreases |groups|
  {
    if groups == [] {
      assert bound + [] == bound;
    } else {
      var g, more := groups[0], groups[1..];
      assert Call(items, StageValue(StepName(id, |bound|), bound), g) == Step(id, n, bound, g);
      assert Flatten(groups) == g + Flatten(more);
      ChainToStage(items, id, n, bound + g, more);
      assert bound + g + Flatten(more) == bound + Flatten(groups);
    }
  }

  // On any item list that dispatches as `Step` says, from the entry value

  lemma EntryChainToCall<T, B, V(!new)>(items: seq<Item<T, B>>, id: string, n: nat, groups: seq<seq<V>>)
    requires Dispatches<T, B, V>(items, id, n)
    requires n >= 1 && groups != [] && NonEmptyGroups(groups) && |Flatten(groups)| == n
    ensures Chain(items, Entry(id), groups) == Invoked(RealImpl(id), Flatten(groups))
  {
    var none: seq<V> := [];
    ChainToCall(items, id, n, none, groups);
    assert none + Flatten(groups) == Flatten(groups);
  }

  lemma EntryChainToStage<T, B, V(!new)>(items: seq<Item<T, B>>, id: string, n: nat, groups: seq<seq<V>>)
    requires Dispatches<T, B, V>(items, id, n)
    requires NonEmptyGroups(groups) && |Flatten(groups)| < n
    ensures Chain(items, Entry(id), groups) == StageValue(StepName(id, |Flatten(groups)|), Flatten(groups))
  {
    var none: seq<V> := [];
    ChainToStage(items, id, n, none, groups);
    assert none + Flatten(groups) == Flatten(groups);
  }

  lemma EntryCall<T, B, V(!new)>(items: seq<Item<T, B>>, id: string, n: nat, args: seq<V>)
    requires Dispatches<T, B, V>(items, id, n)
    ensures Call(items, Entry(id), args) == Step(id, n, [], args)
  {
    var none: seq<V> := [];
    assert Call(items, StageValue(StepName(id, |none|), none), args) == Step(id, n, none, args);
  }

  // On the emitted items

  /**
    Grouping invariance: for a function of N >= 1 parameters, calling the
    entry constant once per group, for any split of the N arguments into
    consecutive non-empty groups, calls the relocated function exactly with
    the N arguments in their original order.
   */
  lemma GroupingInvariance<T, B, V(!new)>(id: string, vis: Visibility, inputs: seq<T>, ret: ReturnType<T>, block: B, groups: seq<seq<V>>)
    requires |inputs| >= 1
    requires groups != [] && NonEmptyGroups(groups)
    requires |Flatten(groups)| == |inputs|
    ensures Chain(CurryItems(id, vis, inputs, ret, block), Entry(id), groups) == Invoked(RealImpl(id), Flatten(groups))
  {
    CurryItemsDispatch<T, B, V>(id, vis, inputs, ret, block);
    EntryChainToCall(CurryItems(id, vis, inputs, ret, block), id, |inputs|, groups);
  }

  /**
    Stage-value determinism: after any grouping of the first i < N arguments
    into non-empty calls, the value is the stage `i` holding exactly those
    arguments, however they were grouped.
   */
  lemma StageDeterminism<T, B, V(!new)>(id: string, vis: Visibility, inputs: seq<T>, ret: ReturnType<T>, block: B, groups: seq<seq<V>>)
    requires NonEmptyGroups(groups)
    requires |Flatten(groups)| < |inputs|
    ensures Chain(CurryItems(id, vis, inputs, ret, block), Entry(id), groups) ==
      StageValue(StepName(id, |Flatten(groups)|), Flatten(groups))
  {
    CurryItemsDispatch<T, B, V>(id, vis, inputs, ret, block);
    EntryChainToStage(CurryItems(id, vis, inputs, ret, block), id, |inputs|, groups);
  }

  /**
    Direct-call compatibility: calling the entry constant with all N
    arguments at once calls the relocated function with them; for N = 0 that
    is the call with no arguments.
   */
  lemma DirectCall<T, B, V(!new)>(id: string, vis: Visibility, inputs: seq<T>, ret: ReturnType<T>, block: B, args: seq<V>)
    requires |args| == |inputs|
    ensures Call(CurryItems(id, vis, inputs, ret, block), Entry(id), args) == Invoked(RealImpl(id), args)
  {
    CurryItemsDispatch<T, B, V>(id, vis, inputs, ret, block);
    EntryCall(CurryItems(id, vis, inputs, ret, block), id, |inputs|, args);
    assert [] + args == args;
  }

  /** Calling a stage with no arguments has no impl unless the function has no parameters. */
  lemma EmptyCallRejected<T, B, V(!new)>(id: string, vis: Visibility, inputs: seq<T>, ret: ReturnType<T>, block: B, bound: seq<V>)
    requires 1 <= |inputs|
    ensures Call(CurryItems(id, vis, inputs, ret, block), StageValue(StepName(id, |bound|), bound), []) == NoImpl
  {
    CallOnStage<T, B, V>(id, vis, inputs, ret, block, bound, []);
  }

  lemma FlattenCons<V>(g: seq<V>, more: seq<seq<V>>)
    ensures Flatten([g] + more) == g + Flatten(more)
  {
    assert ([g] + more)[1..] == more;
  }

  // ---------------------------------------------------------------------------
  // The groupings the repository's tests compare

  /** The groupings of tests/quatro.rs on any item list that dispatches as `Step` says. */
  lemma FourGroupingsOn<T, B, V(!new)>(items: seq<Item<T, B>>, id: string, a: V, b: V, c: V, d: V)
    requires Dispatches<T, B, V>(items, id, 4)
    ensures && Chain(items, Entry(id), [[a, b, c, d]]) == Invoked(RealImpl(id), [a, b, c, d])
            && Chain(items, Entry(id), [[a, b], [c, d]]) == Invoked(RealImpl(id), [a, b, c, d])
            && Chain(items, Entry(id), [[a], [b], [c], [d]]) == Invoked(RealImpl(id), [a, b, c, d])
            && Chain(items, Entry(id), [[a], [b, c], [d]]) == Invoked(RealImpl(id), [a, b, c, d])
  {
    var none: seq<seq<V>> := [];
    FlattenCons([a, b, c, d], none);
    EntryChainToCall(items, id, 4, [[a, b, c, d]]);
    FlattenCons([c, d], none);
    FlattenCons([a, b], [[c, d]]);
    EntryChainToCall(items, id, 4, [[a, b], [c, d]]);
    FlattenCons([d], none);
    FlattenCons([c], [[d]]);
    FlattenCons([b], [[c], [d]]);
    FlattenCons([a], [[b], [c], [d]]);
    EntryChainToCall(items, id, 4, [[a], [b], [c], [d]]);
    FlattenCons([b, c], [[d]]);
    FlattenCons([a], [[b, c], [d]]);
    EntryChainToCall(items, id, 4, [[a], [b, c], [d]]);
  }

  /**
    tests/quatro.rs: for four parameters, the one-call, two-plus-two,
    one-by-one and one-two-one groupings all call the relocated function
    with (a, b, c, d).
   */
  lemma FourParameterGroupings<T, B, V(!new)>(id: string, vis: Visibility, inputs: seq<T>, ret: ReturnType<T>, block: B, a: V, b: V, c: V, d: V)
    requires |inputs| == 4
    ensures var items := CurryItems(id, vis, inputs, ret, block);
      && Chain(items, Entry(id), [[a, b, c, d]]) == Invoked(RealImpl(id), [a, b, c, d])
      && Chain(items, Entry(id), [[a, b], [c, d]]) == Invoked(RealImpl(id), [a, b, c, d])
      && Chain(items, Entry(id), [[a], [b], [c], [d]]) == Invoked(RealImpl(id), [a, b, c, d])
      && Chain(items, Entry(id), [[a], [b, c], [d]]) == Invoked(RealImpl(id), [a, b, c, d])
  {
    CurryItemsDispatch<T, B, V>(id, vis, inputs, ret, block);
    FourGroupingsOn(CurryItems(id, vis, inputs, ret, block), id, a, b, c, d);
  }

  /** The groupings of tests/smoke.rs on any item list that dispatches as `Step` says. */
  lemma TwoGroupingsOn<T, B, V(!new)>(items: seq<Item<T, B>>, id: string, x: V, y: V)
    requires Dispatches<T, B, V>(items, id, 2)
    ensures Chain(items, Entry(id), [[x, y]]) == Invoked(RealImpl(id), [x, y])
    ensures Chain(items, Entry(id), [[x], [y]]) == Invoked(RealImpl(id), [x, y])
  {
    var none: seq<seq<V>> := [];
    FlattenCons([x, y], none);
    EntryChainToCall(items, id, 2, [[x, y]]);
    FlattenCons([y], none);
    FlattenCons([x], [[y]]);
    EntryChainToCall(items, id, 2, [[x], [y]]);
  }

  /**
    tests/smoke.rs: for two parameters, `test(x, y)` and `test(x)(y)` make
    the same call of the relocated function, with (x, y).
   */
  lemma TwoParameterGroupings<T, B, V(!new)>(id: string, vis: Visibility, inputs: seq<T>, ret: ReturnType<T>, block: B, x: V, y: V)
    requires |inputs| == 2
    ensures var items := CurryItems(id, vis, inputs, ret, block);
      && Chain(items, Entry(id), [[x, y]]) == Chain(items, Entry(id), [[x], [y]])
      && Chain(items, Entry(id), [[x, y]]) == Invoked(RealImpl(id), [x, y])
  {
    CurryItemsDispatch<T, B, V>(id, vis, inputs, ret, block);
    TwoGroupingsOn(CurryItems(id, vis, inputs, ret, block), id, x, y);
  }

  /**
    tests/reference.rs: for three parameters, binding two arguments gives the
    stage value holding them, and calling that value later with the third
    calls the relocated function with all three.
   */
  lemma PartialApplicationKept<T, B, V(!new)>(id: string, vis: Visibility, inputs: seq<T>, ret: ReturnType<T>, block: B, x: V, y: V, z: V)
    requires |inputs| == 3
    ensures var items, entry := CurryItems(id, vis, inputs, ret, block), Entry(id);
      && Call(items, entry, [x, y]) == StageValue(CurriedStep(id, 2), [x, y])
      && Call(items, Call(items, entry, [x, y]), [z]) == Invoked(RealImpl(id), [x, y, z])
  {
    CurryItemsDispatch<T, B, V>(id, vis, inputs, ret, block);
    PartialApplicationOn(CurryItems(id, vis, inputs, ret, block), id, x, y, z);
  }

  /** The partial application of tests/reference.rs on any item list that dispatches as `Step` says. */
  lemma PartialApplicationOn<T, B, V(!new)>(items: seq<Item<T, B>>, id: string, x: V, y: V, z: V)
    requires Dispatches<T, B, V>(items, id, 3)
    ensures Call(items, Entry(id), [x, y]) == StageValue(CurriedStep(id, 2), [x, y])
    ensures Call(items, Call(items, Entry(id), [x, y]), [z]) == Invoked(RealImpl(id), [x, y, z])
  {
    EntryCall(items, id, 3, [x, y]);
    assert [] + [x, y] == [x, y];
    var bound := [x, y];
    assert Call(items, StageValue(StepName(id, |bound|), bound), [z]) == Step(id, 3, bound, [z]);
    assert bound + [z] == [x, y, z];
  }
}
