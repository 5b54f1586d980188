/**
  The `auto_curry` attribute macro (src/lib.rs:29-202): diagnostics on the
  annotated function, then the items that replace it.
 */
module Macro {
  import opened Wrappers
  import opened Names
  import opened Items
  import opened CurryPlan
  import opened TupleSyntax

  /** A formal parameter: a typed pattern, or a `self` receiver. */
  datatype FnArg<T> = Typed(ty: T) | Receiver

  /**
    The parts of the annotated function the macro reads (src/lib.rs:34-63);
    `unsafe`, the ABI and generics are dropped without a trace by the source
    and are not kept here.
   */
  datatype ItemFn<T, B> = ItemFn(
    attrs: seq<string>,
    vis: Visibility,
    isConst: bool,
    isAsync: bool,
    ident: string,
    inputs: seq<FnArg<T>>,
    output: ReturnType<T>,
    block: B)

  datatype Warning = AttributesIgnored(count: nat) | ConstIgnored

  /** The compile errors that replace the whole output; `at` is the receiver's position. */
  datatype CompileError = MemberFunction(at: nat) | AsyncFunction

  /** What one expansion produces: the warnings emitted, then the items or the error. */
  datatype Expansion<T, B> = Expansion(warnings: seq<Warning>, result: Result<seq<Item<T, B>>, CompileError>)

  /**
    src/lib.rs:64-77: the parameter types, or the position of the first
    receiver (`collect` into a `Result` stops at the first error).
   */
  function ClassifyInputs<T>(inputs: seq<FnArg<T>>): (r: Result<seq<T>, nat>)
    ensures r.Ok? <==> forall i :: 0 <= i < |inputs| ==> inputs[i].Typed?
    ensures r.Ok? ==> |r.value| == |inputs| && forall i :: 0 <= i < |inputs| ==> r.value[i] == inputs[i].ty
    ensures r.Err? ==>
      && r.error < |inputs| && inputs[r.error].Receiver?
      && forall i :: 0 <= i < r.error ==> inputs[i].Typed?
    decreases |inputs|
  {
    if inputs == [] then Ok([])
    else if inputs[0].Receiver? then Err(0)
    else match ClassifyInputs(inputs[1..])
      case Ok(tys) => Ok([inputs[0].ty] + tys)
      case Err(k) => Err(k + 1)
  }

  /** The items that replace a function with parameter types `inputs`, in emission order (src/lib.rs:193-200). */
  function CurryItems<T, B>(id: string, vis: Visibility, inputs: seq<T>, ret: ReturnType<T>, block: B): seq<Item<T, B>> {
    [Const(vis, Ident(id), BaseCurried(id))]
    + StructItems(Plan(id, inputs))
    + TableImpls(id, inputs, ret)
    + [RealFn(RealImpl(id), false, inputs, ret, block)]
  }

  function AttributeWarnings<T, B>(f: ItemFn<T, B>): seq<Warning> {
    if |f.attrs| > 0 then [AttributesIgnored(|f.attrs|)] else []
  }

  /**
    src/lib.rs:29-202. The attribute warning comes first; a receiver then
    ends the expansion with its error alone; otherwise the const warning
    follows, and `async` ends the expansion with its error alone; otherwise
    the items of `CurryItems`, with `const` dropped from the relocated function.
   */
  method AutoCurry<T, B>(f: ItemFn<T, B>) returns (e: Expansion<T, B>)
    ensures ClassifyInputs(f.inputs).Err? ==>
      e == Expansion(AttributeWarnings(f), Err(MemberFunction(ClassifyInputs(f.inputs).error)))
    ensures ClassifyInputs(f.inputs).Ok? ==>
      e.warnings == AttributeWarnings(f) + (if f.isConst then [ConstIgnored] else [])
    ensures ClassifyInputs(f.inputs).Ok? && f.isAsync ==> e.result == Err(AsyncFunction)
    ensures ClassifyInputs(f.inputs).Ok? && !f.isAsync ==>
      e.result == Ok(CurryItems(f.ident, f.vis, ClassifyInputs(f.inputs).value, f.output, f.block))
  {
    var warnings: seq<Warning> := [];
    if |f.attrs| > 0 {
      warnings := warnings + [AttributesIgnored(|f.attrs|)];
    }
    var classified := ClassifyInputs(f.inputs);
    if classified.Err? {
      return Expansion(warnings, Err(MemberFunction(classified.error)));
    }
    var inputs := classified.value;
    if f.isConst {
      warnings := warnings + [ConstIgnored];
    }
    if f.isAsync {
      return Expansion(warnings, Err(AsyncFunction));
    }
    var baseType := BaseCurried(f.ident);
    var base := Const(f.vis, Ident(f.ident), baseType);
    var steps := BuildSteps(f.ident, inputs);
    var baseImpls := BaseImpls(baseType, steps);
    var intermediateImpls := BuildIntermediates(steps);
    var realImplName := RealImpl(f.ident);
    var realImpl := RealFn(realImplName, false, inputs, f.output, f.block);
    var finalImpls := FinalImpls(realImplName, f.output, steps);
    var items := [base] + StructItems(steps) + (baseImpls + intermediateImpls + finalImpls) + [realImpl];
    TransitionImplsAreEdges<T, B>(f.ident, inputs, f.output);
    e := Expansion(warnings, Ok(items));
  }

  // ---------------------------------------------------------------------------
  // The emitted items against the transition table

  /** Where the parts of `[a] + xs + ys + [b]` sit. */
  lemma Layout<X>(a: X, xs: seq<X>, ys: seq<X>, b: X)
    ensures |[a] + xs + ys + [b]| == 2 + |xs| + |ys|
    ensures ([a] + xs + ys + [b])[0] == a
    ensures forall k :: 1 <= k < 1 + |xs| ==> ([a] + xs + ys + [b])[k] == xs[k - 1]
    ensures forall k :: 1 + |xs| <= k < 1 + |xs| + |ys| ==> ([a] + xs + ys + [b])[k] == ys[k - 1 - |xs|]
    ensures ([a] + xs + ys + [b])[1 + |xs| + |ys|] == b
  {
  }

  /** The impls sit after the constant and the structs, in the order of `EdgeList`. */
  lemma ImplPositions<T, B>(id: string, vis: Visibility, inputs: seq<T>, ret: ReturnType<T>, block: B)
    ensures |CurryItems(id, vis, inputs, ret, block)| == 2 + Max(|inputs|, 1) + |EdgeList(|inputs|)|
    ensures forall k :: 0 <= k < |CurryItems(id, vis, inputs, ret, block)| ==>
      (CurryItems(id, vis, inputs, ret, block)[k].Impl? <==> 1 + Max(|inputs|, 1) <= k < 1 + Max(|inputs|, 1) + |EdgeList(|inputs|)|)
    ensures forall k :: 1 + Max(|inputs|, 1) <= k < 1 + Max(|inputs|, 1) + |EdgeList(|inputs|)| ==>
      CurryItems(id, vis, inputs, ret, block)[k] ==
      Edge(id, inputs, ret, EdgeList(|inputs|)[k - 1 - Max(|inputs|, 1)].0, EdgeList(|inputs|)[k - 1 - Max(|inputs|, 1)].1)
  {
    var c, r := Const(vis, Ident(id), BaseCurried(id)), RealFn(RealImpl(id), false, inputs, ret, block);
    var structs := StructItems<T, B>(Plan(id, inputs));
    var impls := TableImpls<T, B>(id, inputs, ret);
    var items := [c] + structs + impls + [r];
    var es := EdgeList(|inputs|);
    var lo := 1 + Max(|inputs|, 1);
    assert CurryItems(id, vis, inputs, ret, block) == items;
    TableImplsAt<T, B>(id, inputs, ret);
    Layout(c, structs, impls, r);
    forall k | 0 <= k < |items|
      ensures items[k].Impl? <==> lo <= k < lo + |es|
    {
      if 1 <= k < lo {
        assert items[k] == structs[k - 1];
      } else if lo <= k < lo + |es| {
        assert items[k] == impls[k - lo];
      }
    }
    forall k | lo <= k < lo + |es|
      ensures items[k] == Edge(id, inputs, ret, es[k - lo].0, es[k - lo].1)
    {
      assert items[k] == impls[k - lo];
    }
  }

  /** Each emitted impl is the one the transition table prescribes for some legal transition. */
  lemma ImplsAreTransitions<T, B>(id: string, vis: Visibility, inputs: seq<T>, ret: ReturnType<T>, block: B)
    ensures forall k :: 0 <= k < |CurryItems(id, vis, inputs, ret, block)| && CurryItems(id, vis, inputs, ret, block)[k].Impl? ==>
      exists f: nat, t: nat :: IsEdge(|inputs|, f, t) && CurryItems(id, vis, inputs, ret, block)[k] == Edge(id, inputs, ret, f, t)
  {
    var items := CurryItems(id, vis, inputs, ret, block);
    var es := EdgeList(|inputs|);
    ImplPositions(id, vis, inputs, ret, block);
    forall k | 0 <= k < |items| && items[k].Impl?
      ensures exists f: nat, t: nat :: IsEdge(|inputs|, f, t) && items[k] == Edge(id, inputs, ret, f, t)
    {
      var e := es[k - 1 - Max(|inputs|, 1)];
      assert items[k] == Edge(id, inputs, ret, e.0, e.1);
    }
  }

  /** Every legal transition has its impl among the emitted items. */
  lemma TransitionsAreImplemented<T, B>(id: string, vis: Visibility, inputs: seq<T>, ret: ReturnType<T>, block: B)
    ensures forall f: nat, t: nat :: IsEdge(|inputs|, f, t) ==> Edge(id, inputs, ret, f, t) in CurryItems(id, vis, inputs, ret, block)
  {
    var items := CurryItems(id, vis, inputs, ret, block);
    var es := EdgeList(|inputs|);
    ImplPositions(id, vis, inputs, ret, block);
    EdgeListComplete(|inputs|);
    forall f: nat, t: nat | IsEdge(|inputs|, f, t)
      ensures Edge(id, inputs, ret, f, t) in items
    {
      var q :| 0 <= q < |es| && es[q] == (f, t);
      assert items[1 + Max(|inputs|, 1) + q] == Edge(id, inputs, ret, f, t);
    }
  }

  /** The self type and arity of each emitted impl, read off its transition. */
  lemma ImplKeys<T, B>(id: string, vis: Visibility, inputs: seq<T>, ret: ReturnType<T>, block: B)
    ensures forall k :: 1 + Max(|inputs|, 1) <= k < 1 + Max(|inputs|, 1) + |EdgeList(|inputs|)| ==>
      && CurryItems(id, vis, inputs, ret, block)[k].Impl?
      && CurryItems(id, vis, inputs, ret, block)[k].selfTy == StepName(id, EdgeList(|inputs|)[k - 1 - Max(|inputs|, 1)].0)
      && |CurryItems(id, vis, inputs, ret, block)[k].argTys|
         == EdgeList(|inputs|)[k - 1 - Max(|inputs|, 1)].1 - EdgeList(|inputs|)[k - 1 - Max(|inputs|, 1)].0
  {
    ImplPositions(id, vis, inputs, ret, block);
  }

  /**
    No two emitted impls share a self type and an argument arity, so the
    `FnOnce` impls cannot conflict and each call resolves to one impl.
   */
  lemma NoConflictingImpls<T, B>(id: string, vis: Visibility, inputs: seq<T>, ret: ReturnType<T>, block: B)
    ensures forall i, j ::
      (&& 0 <= i < j < |CurryItems(id, vis, inputs, ret, block)|
       && CurryItems(id, vis, inputs, ret, block)[i].Impl? && CurryItems(id, vis, inputs, ret, block)[j].Impl?) ==>
      (|| CurryItems(id, vis, inputs, ret, block)[i].selfTy != CurryItems(id, vis, inputs, ret, block)[j].selfTy
       || |CurryItems(id, vis, inputs, ret, block)[i].argTys| != |CurryItems(id, vis, inputs, ret, block)[j].argTys|)
  {
    var items := CurryItems(id, vis, inputs, ret, block);
    var es := EdgeList(|inputs|);
    var lo := 1 + Max(|inputs|, 1);
    ImplPositions(id, vis, inputs, ret, block);
    ImplKeys(id, vis, inputs, ret, block);
    EdgeListDistinct(|inputs|);
    forall i, j | 0 <= i < j < |items| && items[i].Impl? && items[j].Impl?
      ensures items[i].selfTy != items[j].selfTy || |items[i].argTys| != |items[j].argTys|
    {
      assert es[i - lo] != es[j - lo];
    }
  }

  /**
    A function of N parameters gets N(N + 1)/2 impls, one per transition
    `from < to <= N`; with no parameters, the single call impl.
   */
  lemma ImplCount<T, B>(id: string, inputs: seq<T>, ret: ReturnType<T>)
    ensures |TransitionImpls<T, B>(id, inputs, ret)| == if |inputs| == 0 then 1 else |inputs| * (|inputs| + 1) / 2
  {
    var n := |inputs|;
    TransitionImplsAreEdges<T, B>(id, inputs, ret);
    PairsCount(Max(n, 1));
    if n >= 2 {
      assert (n - 2) * (n - 1) == n * n - 3 * n + 2;
      assert n * (n + 1) == n * n + n;
    }
  }

  /**
    One tuple struct per stage, holding the types of the arguments bound so
    far; for a function of at most one parameter that is the entry struct
    alone, with no fields.
   */
  lemma StageStructs<T, B>(id: string, vis: Visibility, inputs: seq<T>, ret: ReturnType<T>, block: B)
    ensures |StructItems<T, B>(Plan(id, inputs))| == Max(|inputs|, 1)
    ensures forall i :: 0 <= i < Max(|inputs|, 1) ==>
      CurryItems(id, vis, inputs, ret, block)[1 + i] == Struct(StepName(id, i), inputs[..i])
    ensures |inputs| <= 1 ==>
      CurryItems(id, vis, inputs, ret, block)[..2] == [Const(vis, Ident(id), BaseCurried(id)), Struct(BaseCurried(id), [])]
      && forall k :: 2 <= k < |CurryItems(id, vis, inputs, ret, block)| ==> !CurryItems(id, vis, inputs, ret, block)[k].Struct?
  {
    var items := CurryItems(id, vis, inputs, ret, block);
    var structs := StructItems<T, B>(Plan(id, inputs));
    var impls := TableImpls<T, B>(id, inputs, ret);
    assert forall i :: 0 <= i < |structs| ==> items[1 + i] == structs[i];
    if |inputs| <= 1 {
      assert forall k :: 2 <= k < |items| - 1 ==> items[k] == impls[k - 2];
    }
  }

  /** The names the emitted items declare (constant, structs, function), in order. */
  function DeclaredNames<T, B>(items: seq<Item<T, B>>): seq<Name> {
    if items == [] then [] else NameOf(items[0]) + DeclaredNames(items[1..])
  }

  function NameOf<T, B>(item: Item<T, B>): seq<Name> {
    match item
    case Const(_, name, _) => [name]
    case Struct(name, _) => [name]
    case RealFn(name, _, _, _, _) => [name]
    case Impl(_, _, _, _) => []
  }

  lemma {:induction false} DeclaredNamesAppend<T, B>(a: seq<Item<T, B>>, b: seq<Item<T, B>>)
    ensures DeclaredNames(a + b) == DeclaredNames(a) + DeclaredNames(b)
  {
    if a != [] {
      assert (a + b)[0] == a[0] && (a + b)[1..] == a[1..] + b;
      DeclaredNamesAppend(a[1..], b);
      calc {
        DeclaredNames(a + b);
        NameOf((a + b)[0]) + DeclaredNames((a + b)[1..]);
        NameOf(a[0]) + DeclaredNames(a[1..] + b);
        NameOf(a[0]) + (DeclaredNames(a[1..]) + DeclaredNames(b));
        (NameOf(a[0]) + DeclaredNames(a[1..])) + DeclaredNames(b);
      }
    } else {
      assert a + b == b;
    }
  }

  lemma {:induction false} NoDeclaredNames<T, B>(items: seq<Item<T, B>>)
    requires forall k :: 0 <= k < |items| ==> items[k].Impl?
    ensures DeclaredNames(items) == []
  {
    if items != [] {
      NoDeclaredNames(items[1..]);
    }
  }

  lemma {:induction false} StructNames<T, B>(steps: seq<CurryStep<T>>)
    ensures DeclaredNames(StructItems<T, B>(steps)) == seq(|steps|, i requires 0 <= i < |steps| => steps[i].name)
  {
    if steps != [] {
      var structs := StructItems<T, B>(steps);
      assert structs[1..] == StructItems<T, B>(steps[1..]);
      StructNames<T, B>(steps[1..]);
    }
  }

  /**
    The names an expansion declares: the original identifier for the entry
    constant, the stage types in stage order, then `_REAL_IMPL`.
   */
  lemma DeclaredNamesAre<T, B>(id: string, vis: Visibility, inputs: seq<T>, ret: ReturnType<T>, block: B)
    ensures DeclaredNames(CurryItems(id, vis, inputs, ret, block)) == GeneratedNames(id, Max(|inputs|, 1))
  {
    var steps := Plan(id, inputs);
    var structs := StructItems<T, B>(steps);
    var impls := TableImpls<T, B>(id, inputs, ret);
    TableImplsAt<T, B>(id, inputs, ret);
    LayoutNames(Const(vis, Ident(id), BaseCurried(id)), structs, impls, RealFn(RealImpl(id), false, inputs, ret, block));
    StructNames<T, B>(steps);
    var names := seq(|steps|, i requires 0 <= i < |steps| => steps[i].name);
    var stages := seq(Max(|inputs|, 1), i requires 0 <= i => StepName(id, i));
    assert names == stages by {
      forall i | 0 <= i < |steps|
        ensures names[i] == stages[i]
      {
      }
    }
  }

  /** The names declared by a constant, some structs, some impls and a function, in that order. */
  lemma LayoutNames<T, B>(c: Item<T, B>, structs: seq<Item<T, B>>, impls: seq<Item<T, B>>, r: Item<T, B>)
    requires c.Const? && r.RealFn?
    requires forall k :: 0 <= k < |impls| ==> impls[k].Impl?
    ensures DeclaredNames([c] + structs + impls + [r]) == [c.name] + DeclaredNames(structs) + [r.name]
  {
    var a := [c] + structs;
    var b := a + impls;
    assert DeclaredNames(a) == [c.name] + DeclaredNames(structs) by {
      DeclaredNamesAppend([c], structs);
      assert [c][1..] == [];
    }
    assert DeclaredNames(b) == DeclaredNames(a) by {
      DeclaredNamesAppend(a, impls);
      NoDeclaredNames(impls);
    }
    assert DeclaredNames(b + [r]) == DeclaredNames(b) + [r.name] by {
      DeclaredNamesAppend(b, [r]);
      assert [r][1..] == [];
    }
  }

  /** The names an expansion declares are pairwise distinct as text. */
  lemma DeclaredNamesDistinct<T, B>(id: string, vis: Visibility, inputs: seq<T>, ret: ReturnType<T>, block: B)
    ensures forall i, j :: 0 <= i < j < |DeclaredNames(CurryItems(id, vis, inputs, ret, block))| ==>
      Render(DeclaredNames(CurryItems(id, vis, inputs, ret, block))[i]) != Render(DeclaredNames(CurryItems(id, vis, inputs, ret, block))[j])
  {
    DeclaredNamesAre(id, vis, inputs, ret, block);
    GeneratedNamesDistinct(id, Max(|inputs|, 1));
  }

  // ---------------------------------------------------------------------------
  // The argument tuple written in each impl header

  /**
    With no parameters the only impl takes no arguments, and the header the
    source writes for it, `FnOnce<(,)>`, is not a tuple type.
   */
  lemma NullaryHeaderAsWritten<T, B>(id: string, vis: Visibility, ret: ReturnType<T>, block: B)
    ensures TransitionImpls<T, B>(id, [], ret) == [Impl(BaseCurried(id), [], OutputOf(ret), CallReal(RealImpl(id), []))]
    ensures ParseTupleType(AsWrittenTuple(TransitionImpls<T, B>(id, [], ret)[0].argTys)) == None
  {
    TransitionImplsAreEdges<T, B>(id, [], ret);
    assert EdgeList(0) == [(0, 0)];
    assert SelfFields(0) + ArgFields(0) == [];
    AsWrittenEmptyIsNotATuple<T>();
  }

  /**
    Every impl header written as `(#(#args,)*)` parses back to its argument
    types; with one parameter or more every impl takes at least one argument,
    and the source's `(#(#args),*,)` writes the same tokens.
   */
  lemma ImplHeadersParse<T, B>(id: string, vis: Visibility, inputs: seq<T>, ret: ReturnType<T>, block: B)
    ensures forall k :: 0 <= k < |CurryItems(id, vis, inputs, ret, block)| && CurryItems(id, vis, inputs, ret, block)[k].Impl? ==>
      ParseTupleType(CorrectedTuple(CurryItems(id, vis, inputs, ret, block)[k].argTys)) == Some(CurryItems(id, vis, inputs, ret, block)[k].argTys)
    ensures |inputs| >= 1 ==> forall k :: 0 <= k < |CurryItems(id, vis, inputs, ret, block)| && CurryItems(id, vis, inputs, ret, block)[k].Impl? ==>
      AsWrittenTuple(CurryItems(id, vis, inputs, ret, block)[k].argTys) == CorrectedTuple(CurryItems(id, vis, inputs, ret, block)[k].argTys)
  {
    var items := CurryItems(id, vis, inputs, ret, block);
    ImplsAreTransitions(id, vis, inputs, ret, block);
    forall k | 0 <= k < |items| && items[k].Impl?
      ensures ParseTupleType(CorrectedTuple(items[k].argTys)) == Some(items[k].argTys)
      ensures |inputs| >= 1 ==> AsWrittenTuple(items[k].argTys) == CorrectedTuple(items[k].argTys)
    {
      CorrectedTupleRoundTrip(items[k].argTys);
      var f: nat, t: nat :| IsEdge(|inputs|, f, t) && items[k] == Edge(id, inputs, ret, f, t);
      if |inputs| >= 1 {
        assert |items[k].argTys| == t - f > 0;
        AsWrittenAgreesWhenNonEmpty(items[k].argTys);
      }
    }
  }
}
