/**
  The curry plan of src/lib.rs: the stages (`steps`, src/lib.rs:101-117), the
  ordered pairs of stages joined by an intermediate impl (src/lib.rs:134-163),
  and the impls built from them (src/lib.rs:119-132, 169-191).
 */
module CurryPlan {
  import opened Wrappers
  import opened Names
  import opened Items

  /** A stage: its type name, the bound argument types `args` and the still missing ones `rest`. */
  datatype CurryStep<T> = CurryStep(name: Name, args: seq<T>, rest: seq<T>)

  function Max(a: nat, b: nat): nat {
    if a < b then b else a
  }

  /** The stage holding the first `i` of `inputs`: `inputs.split_at(i)`. */
  function Stage<T>(id: string, inputs: seq<T>, i: nat): CurryStep<T>
    requires i <= |inputs|
  {
    CurryStep(StepName(id, i), inputs[..i], inputs[i..])
  }

  /** The stages 0 .. max(N, 1) - 1 of a function with parameter types `inputs`. */
  function Plan<T>(id: string, inputs: seq<T>): seq<CurryStep<T>> {
    seq(Max(|inputs|, 1), i requires 0 <= i < Max(|inputs|, 1) => Stage(id, inputs, i))
  }

  /**
    src/lib.rs:101-117: push the entry stage, then one stage per prefix length
    1 .. N - 1.
   */
  method BuildSteps<T>(id: string, inputs: seq<T>) returns (steps: seq<CurryStep<T>>)
    ensures |steps| == Max(|inputs|, 1)
    ensures steps[0] == CurryStep(BaseCurried(id), [], inputs)
    ensures forall i :: 0 <= i < |steps| ==>
      steps[i].name == StepName(id, i) && steps[i].args == inputs[..i] && steps[i].rest == inputs[i..]
    ensures forall i :: 0 <= i < |steps| ==> steps[i].args + steps[i].rest == inputs
    ensures steps == Plan(id, inputs)
  {
    steps := [CurryStep(BaseCurried(id), inputs[..0], inputs[0..])];
    var i := 1;
    while i < |inputs|
      invariant 1 <= i <= Max(|inputs|, 1)
      invariant |steps| == i
      invariant forall k :: 0 <= k < i ==> steps[k] == Stage(id, inputs, k)
    {
      steps := steps + [CurryStep(CurriedStep(id, i), inputs[..i], inputs[i..])];
      i := i + 1;
    }
    forall k | 0 <= k < |steps|
      ensures steps[k].args + steps[k].rest == inputs
    {
      assert inputs[..k] + inputs[k..] == inputs;
    }
  }

  /** `struct name(args...);` for every stage, entry included (src/lib.rs:16-27, 195). */
  function StructItems<T, B>(steps: seq<CurryStep<T>>): seq<Item<T, B>> {
    seq(|steps|, i requires 0 <= i < |steps| => Struct(steps[i].name, steps[i].args))
  }

  // ---------------------------------------------------------------------------
  // The reference: the transition table of a curried function

  /**
    The transitions of a function with `n` parameters: from stage `from` to
    stage `to` (or to the call, when `to == n`) for `from < to <= n`; with no
    parameters, the single call from the entry stage with nothing.
   */
  predicate IsEdge(n: nat, from: nat, to: nat) {
    from < to <= n || (n == 0 && from == 0 && to == 0)
  }

  /**
    The impl that ought to exist for a transition: on the stage holding
    `inputs[..from]`, take `inputs[from..to]` and either build the stage holding
    `inputs[..to]` from the old fields then the new arguments, or, when all
    arguments are in, call the relocated function with them in that order.
   */
  function Edge<T, B>(id: string, inputs: seq<T>, ret: ReturnType<T>, from: nat, to: nat): Item<T, B>
    requires IsEdge(|inputs|, from, to)
  {
    var fields := SelfFields(from) + ArgFields(to - from);
    if to < |inputs| then
      Impl(StepName(id, from), inputs[from..to], StepType(StepName(id, to)), Construct(StepName(id, to), fields))
    else
      Impl(StepName(id, from), inputs[from..to], OutputOf(ret), CallReal(RealImpl(id), fields))
  }

  /** The impl of transition (from, to) is on stage `from` and takes `to - from` arguments. */
  lemma EdgeShape<T, B>(id: string, inputs: seq<T>, ret: ReturnType<T>, from: nat, to: nat)
    requires IsEdge(|inputs|, from, to)
    ensures Edge<T, B>(id, inputs, ret, from, to).Impl?
    ensures Edge<T, B>(id, inputs, ret, from, to).selfTy == StepName(id, from)
    ensures |Edge<T, B>(id, inputs, ret, from, to).argTys| == to - from
  {
  }

  // ---------------------------------------------------------------------------
  // Base impls (src/lib.rs:119-132)

  /** The impl on the entry type that takes all of a stage's arguments at once and builds it. */
  function BaseImpl<T, B>(baseType: Name, step: CurryStep<T>): Item<T, B> {
    Impl(baseType, step.args, StepType(step.name), Construct(step.name, ArgFields(|step.args|)))
  }

  function BaseImpls<T, B>(baseType: Name, steps: seq<CurryStep<T>>): seq<Item<T, B>> {
    if steps == [] then []
    else seq(|steps| - 1, j requires 0 <= j < |steps| - 1 => BaseImpl(baseType, steps[j + 1]))
  }

  /** The transitions (0, i), 1 <= i < N, that the base impls stand for. */
  function BaseEdges(n: nat): (es: seq<(nat, nat)>)
    ensures forall k :: 0 <= k < |es| ==> IsEdge(n, es[k].0, es[k].1) && es[k].1 < n
  {
    seq(Max(n, 1) - 1, j requires 0 <= j => (0, j + 1))
  }

  /** The impls for a list of transitions, in its order. */
  function EdgeImpls<T, B>(id: string, inputs: seq<T>, ret: ReturnType<T>, es: seq<(nat, nat)>): seq<Item<T, B>>
    requires forall k :: 0 <= k < |es| ==> IsEdge(|inputs|, es[k].0, es[k].1)
  {
    seq(|es|, k requires 0 <= k < |es| => Edge(id, inputs, ret, es[k].0, es[k].1))
  }

  /** The base impls are the transitions (0, i) for 1 <= i < N, in order of i. */
  lemma BaseImplsAreEdges<T, B>(id: string, inputs: seq<T>, ret: ReturnType<T>)
    ensures BaseImpls<T, B>(BaseCurried(id), Plan(id, inputs)) == EdgeImpls(id, inputs, ret, BaseEdges(|inputs|))
  {
    var steps := Plan(id, inputs);
    var bases := BaseImpls<T, B>(BaseCurried(id), steps);
    var edges := EdgeImpls<T, B>(id, inputs, ret, BaseEdges(|inputs|));
    assert |bases| == |edges|;
    forall j | 0 <= j < |bases|
      ensures bases[j] == edges[j]
    {
      assert steps[j + 1] == Stage(id, inputs, j + 1);
      assert SelfFields(0) + ArgFields(j + 1) == ArgFields(j + 1);
      assert inputs[0..j + 1] == inputs[..j + 1];
    }
  }

  // ---------------------------------------------------------------------------
  // Intermediate pairs (src/lib.rs:134-137)

  /** The pairs (from, t) with from < t < to, in increasing t. */
  function Row(from: nat, to: nat): seq<(nat, nat)> {
    seq(if from < to then to - from - 1 else 0, j requires 0 <= j => (from, from + 1 + j))
  }

  /**
    The pairs visited by `for from in 1..f { for to in from + 1..s }`, in the
    order the loops visit them.
   */
  function PairsBelow(f: nat, s: nat): (ps: seq<(nat, nat)>)
    ensures forall k :: 0 <= k < |ps| ==> 1 <= ps[k].0 < f && ps[k].0 < ps[k].1 < s
    decreases f
  {
    if f <= 1 then [] else PairsBelow(f - 1, s) + Row(f - 1, s)
  }

  /** The pairs `1 <= from < to < s` joined by an intermediate impl, `s` being the number of stages. */
  function Pairs(s: nat): seq<(nat, nat)> {
    PairsBelow(s, s)
  }

  /** Every legal pair is enumerated. */
  lemma {:induction false} PairsBelowComplete(f: nat, s: nat)
    ensures forall a: nat, b: nat :: 1 <= a < f && a < b < s ==> (a, b) in PairsBelow(f, s)
    decreases f
  {
    if f > 1 {
      PairsBelowComplete(f - 1, s);
      var row := Row(f - 1, s);
      forall a: nat, b: nat | 1 <= a < f && a < b < s
        ensures (a, b) in PairsBelow(f, s)
      {
        if a == f - 1 {
          assert row[b - a - 1] == (a, b);
        }
      }
    }
  }

  /** The enumeration order: by `from`, then by `to`. */
  predicate Before(p: (nat, nat), q: (nat, nat)) {
    p.0 < q.0 || (p.0 == q.0 && p.1 < q.1)
  }

  /** The pairs come in strictly increasing order, so none is enumerated twice. */
  lemma {:induction false} PairsBelowSorted(f: nat, s: nat)
    ensures forall i, j :: 0 <= i < j < |PairsBelow(f, s)| ==> Before(PairsBelow(f, s)[i], PairsBelow(f, s)[j])
    decreases f
  {
    if f > 1 {
      PairsBelowSorted(f - 1, s);
      var front, row := PairsBelow(f - 1, s), Row(f - 1, s);
      var ps := front + row;
      forall i, j | 0 <= i < j < |ps|
        ensures Before(ps[i], ps[j])
      {
        if j < |front| {
          assert ps[i] == front[i] && ps[j] == front[j];
        } else if i < |front| {
          assert ps[i] == front[i] && ps[j] == row[j - |front|];
        } else {
          assert ps[i] == row[i - |front|] && ps[j] == row[j - |front|];
        }
      }
    }
  }

  /** The number of pairs in rows 1 .. f - 1 of a triangle of side `s`. */
  lemma {:induction false} PairsBelowCount(f: nat, s: nat)
    requires 1 <= f <= s
    ensures 2 * |PairsBelow(f, s)| == (f - 1) * (2 * s - 2 - f)
    decreases f
  {
    if f > 1 {
      PairsBelowCount(f - 1, s);
      assert |Row(f - 1, s)| == s - f;
      var a: int, c: int := f - 1, 2 * s - 2 - f;
      // rows 1 .. f - 2 hold (a - 1) * (c + 1) / 2 pairs, row f - 1 holds s - f = (c - a + 2) / 2
      assert 2 * |PairsBelow(f - 1, s)| == (a - 1) * (c + 1);
      assert (a - 1) * (c + 1) == a * c + a - c - 1;
      assert 2 * (s - f) == c - a + 1;
      assert 2 * |PairsBelow(f, s)| == a * c;
    }
  }

  /** The number of intermediate impls: `(s - 2) * (s - 1) / 2` pairs for s >= 2 stages, none otherwise. */
  function Capacity(s: nat): int {
    if s < 2 then 0 else (s - 2) * (s - 1) / 2
  }

  /** The capacity reserved for intermediate impls is exactly the number of pairs. */
  lemma PairsCount(s: nat)
    ensures |Pairs(s)| == Capacity(s)
  {
    if s >= 1 {
      PairsBelowCount(s, s);
      assert 2 * |Pairs(s)| == (s - 1) * (s - 2);
    }
  }

  // ---------------------------------------------------------------------------
  // The capacity as the source computes it, in `usize`

  const USIZE_MODULUS: nat := 0x1_0000_0000_0000_0000

  function CheckedSub(a: nat, b: nat): Option<nat> {
    if a < b then None else Some(a - b)
  }

  function CheckedMul(a: nat, b: nat): Option<nat> {
    if a * b < USIZE_MODULUS then Some(a * b) else None
  }

  /**
    `(steps_count - 2) * (steps_count - 1) / 2` (src/lib.rs:135) with Rust's
    overflow checks on; None is the panic "attempt to subtract with overflow"
    or "attempt to multiply with overflow".
   */
  function CheckedCapacity(s: nat): Option<nat>
    requires s < USIZE_MODULUS
  {
    match CheckedSub(s, 2)
    case None => None
    case Some(d) =>
      match CheckedMul(d, s - 1)
      case None => None
      case Some(p) => Some(p / 2)
  }

  /**
    The capacity expression panics for a function of at most one parameter,
    whose plan has a single stage; with two or more stages it is the pair count.
   */
  lemma CheckedCapacityUnderflows<T>(id: string, inputs: seq<T>)
    requires |inputs| < USIZE_MODULUS
    ensures |inputs| <= 1 ==> CheckedCapacity(|Plan(id, inputs)|) == None
    ensures |inputs| >= 2 && (|inputs| - 2) * (|inputs| - 1) < USIZE_MODULUS ==>
      CheckedCapacity(|Plan(id, inputs)|) == Some(|Pairs(|inputs|)|)
  {
    PairsCount(|inputs|);
  }

  // ---------------------------------------------------------------------------
  // Intermediate impls (src/lib.rs:134-163)

  /** The steps are long enough for `steps[from].rest[0..to - from]` whenever `from < to < |steps|`. */
  predicate Sliceable<T>(steps: seq<CurryStep<T>>) {
    forall i :: 0 <= i < |steps| ==> |steps| - 1 - i <= |steps[i].rest|
  }

  /** The impl on stage `from` that takes the next `to - from` arguments and builds stage `to`. */
  function Intermediate<T, B>(steps: seq<CurryStep<T>>, from: nat, to: nat): Item<T, B>
    requires Sliceable(steps) && from < to < |steps|
  {
    var args := steps[from].rest[0..to - from];
    Impl(steps[from].name, args, StepType(steps[to].name),
         Construct(steps[to].name, SelfFields(|steps[from].args|) + ArgFields(|args|)))
  }

  predicate ValidPairs(ps: seq<(nat, nat)>, s: nat) {
    forall k :: 0 <= k < |ps| ==> ps[k].0 < ps[k].1 < s
  }

  function ImplsFor<T, B>(steps: seq<CurryStep<T>>, ps: seq<(nat, nat)>): seq<Item<T, B>>
    requires Sliceable(steps) && ValidPairs(ps, |steps|)
  {
    seq(|ps|, k requires 0 <= k < |ps| => Intermediate(steps, ps[k].0, ps[k].1))
  }

  /** One intermediate impl per pair, in loop order. */
  function Intermediates<T, B>(steps: seq<CurryStep<T>>): seq<Item<T, B>>
    requires Sliceable(steps)
  {
    ImplsFor(steps, Pairs(|steps|))
  }

  lemma RowExtends(from: nat, to: nat)
    requires from < to
    ensures Row(from, to + 1) == Row(from, to) + [(from, to)]
  {
  }

  lemma ImplsForAppend<T, B>(steps: seq<CurryStep<T>>, ps: seq<(nat, nat)>, p: (nat, nat))
    requires Sliceable(steps) && ValidPairs(ps, |steps|) && p.0 < p.1 < |steps|
    ensures ValidPairs(ps + [p], |steps|)
    ensures ImplsFor<T, B>(steps, ps + [p]) == ImplsFor<T, B>(steps, ps) + [Intermediate(steps, p.0, p.1)]
  {
    assert (ps + [p])[|ps|] == p;
  }

  /** src/lib.rs:135-163: the nested `from`/`to` loops that push the intermediate impls. */
  method BuildIntermediates<T, B>(steps: seq<CurryStep<T>>) returns (impls: seq<Item<T, B>>)
    requires Sliceable(steps)
    ensures impls == Intermediates(steps)
    ensures |impls| == Capacity(|steps|)
  {
    var s := |steps|;
    impls := [];
    var from := 1;
    while from < s
      invariant 1 <= from <= Max(s, 1)
      invariant impls == ImplsFor(steps, PairsBelow(from, s))
    {
      var to := from + 1;
      while to < s
        invariant from < to <= s
        invariant ValidPairs(PairsBelow(from, s) + Row(from, to), s)
        invariant impls == ImplsFor(steps, PairsBelow(from, s) + Row(from, to))
      {
        RowExtends(from, to);
        ImplsForAppend<T, B>(steps, PairsBelow(from, s) + Row(from, to), (from, to));
        impls := impls + [Intermediate(steps, from, to)];
        to := to + 1;
      }
      from := from + 1;
    }
    PairsCount(s);
  }

  lemma PlanSliceable<T>(id: string, inputs: seq<T>)
    ensures Sliceable(Plan(id, inputs))
  {
  }

  /** The pairs are transitions between two stages, neither of them the entry. */
  lemma PairsAreEdges(n: nat)
    ensures forall k :: 0 <= k < |Pairs(Max(n, 1))| ==>
      IsEdge(n, Pairs(Max(n, 1))[k].0, Pairs(Max(n, 1))[k].1) && 1 <= Pairs(Max(n, 1))[k].0 && Pairs(Max(n, 1))[k].1 < n
  {
  }

  /** The intermediate impls are the transitions (from, to) for the pairs 1 <= from < to < N, in loop order. */
  lemma IntermediatesAreEdges<T, B>(id: string, inputs: seq<T>, ret: ReturnType<T>)
    ensures Sliceable(Plan(id, inputs))
    ensures forall k :: 0 <= k < |Pairs(Max(|inputs|, 1))| ==>
      IsEdge(|inputs|, Pairs(Max(|inputs|, 1))[k].0, Pairs(Max(|inputs|, 1))[k].1)
    ensures Intermediates<T, B>(Plan(id, inputs)) == EdgeImpls(id, inputs, ret, Pairs(Max(|inputs|, 1)))
  {
    var steps := Plan(id, inputs);
    var ps := Pairs(|steps|);
    PairsAreEdges(|inputs|);
    var inters := Intermediates<T, B>(steps);
    var edges := EdgeImpls<T, B>(id, inputs, ret, ps);
    forall q | 0 <= q < |inters|
      ensures inters[q] == edges[q]
    {
      var (from, to) := ps[q];
      assert steps[from] == Stage(id, inputs, from);
      assert steps[to] == Stage(id, inputs, to);
      assert inputs[from..][0..to - from] == inputs[from..to];
    }
  }

  // ---------------------------------------------------------------------------
  // Final impls (src/lib.rs:169-191)

  /** The impl on a stage that takes all its missing arguments and calls the relocated function. */
  function FinalImpl<T, B>(realName: Name, ret: ReturnType<T>, step: CurryStep<T>): Item<T, B> {
    Impl(step.name, step.rest, OutputOf(ret),
         CallReal(realName, SelfFields(|step.args|) + ArgFields(|step.rest|)))
  }

  function FinalImpls<T, B>(realName: Name, ret: ReturnType<T>, steps: seq<CurryStep<T>>): seq<Item<T, B>> {
    seq(|steps|, i requires 0 <= i < |steps| => FinalImpl(realName, ret, steps[i]))
  }

  /** The transitions (i, N), one per stage, that the final impls stand for. */
  function FinalEdges(n: nat): (es: seq<(nat, nat)>)
    ensures forall k :: 0 <= k < |es| ==> IsEdge(n, es[k].0, es[k].1) && es[k].1 == n
  {
    seq(Max(n, 1), i requires 0 <= i => (i, n))
  }

  /** The final impls are the transitions (i, N), one per stage, in stage order. */
  lemma FinalImplsAreEdges<T, B>(id: string, inputs: seq<T>, ret: ReturnType<T>)
    ensures FinalImpls<T, B>(RealImpl(id), ret, Plan(id, inputs)) == EdgeImpls(id, inputs, ret, FinalEdges(|inputs|))
  {
    var steps := Plan(id, inputs);
    var finals := FinalImpls<T, B>(RealImpl(id), ret, steps);
    var edges := EdgeImpls<T, B>(id, inputs, ret, FinalEdges(|inputs|));
    forall i | 0 <= i < |finals|
      ensures finals[i] == edges[i]
    {
      assert steps[i] == Stage(id, inputs, i);
      assert inputs[i..|inputs|] == inputs[i..];
    }
  }

  // ---------------------------------------------------------------------------
  // All impls against the transition table

  /** The transitions in the order their impls are emitted: base, intermediate, final (src/lib.rs:196-198). */
  function EdgeList(n: nat): (es: seq<(nat, nat)>)
    ensures forall k :: 0 <= k < |es| ==> IsEdge(n, es[k].0, es[k].1)
  {
    PairsAreEdges(n);
    BaseEdges(n) + Pairs(Max(n, 1)) + FinalEdges(n)
  }

  /** Every transition of the table has an impl. */
  lemma EdgeListComplete(n: nat)
    ensures forall f: nat, t: nat :: IsEdge(n, f, t) ==> (f, t) in EdgeList(n)
  {
    var s := Max(n, 1);
    PairsBelowComplete(s, s);
    forall f: nat, t: nat | IsEdge(n, f, t)
      ensures (f, t) in EdgeList(n)
    {
      if t == n {
        assert FinalEdges(n)[f] == (f, t);
      } else if f == 0 {
        assert BaseEdges(n)[t - 1] == (f, t);
      } else {
        assert (f, t) in Pairs(s);
      }
    }
  }

  /** No transition has two impls. */
  lemma EdgeListDistinct(n: nat)
    ensures forall i, j :: 0 <= i < j < |EdgeList(n)| ==> EdgeList(n)[i] != EdgeList(n)[j]
  {
    var s := Max(n, 1);
    var bs, ps, fs := BaseEdges(n), Pairs(s), FinalEdges(n);
    var es := EdgeList(n);
    PairsBelowSorted(s, s);
    PairsAreEdges(n);
    forall i, j | 0 <= i < j < |es|
      ensures es[i] != es[j]
    {
      if j < |bs| {
        assert es[i] == bs[i] && es[j] == bs[j];
      } else if j < |bs| + |ps| {
        assert es[j] == ps[j - |bs|];
        if i >= |bs| {
          assert es[i] == ps[i - |bs|];
          assert Before(ps[i - |bs|], ps[j - |bs|]);
        }
      } else {
        assert es[j] == fs[j - |bs| - |ps|];
        if i >= |bs| + |ps| {
          assert es[i] == fs[i - |bs| - |ps|];
        } else if i >= |bs| {
          assert es[i] == ps[i - |bs|];
        }
      }
    }
  }

  lemma EdgeImplsAppend<T, B>(id: string, inputs: seq<T>, ret: ReturnType<T>, a: seq<(nat, nat)>, b: seq<(nat, nat)>)
    requires forall k :: 0 <= k < |a| ==> IsEdge(|inputs|, a[k].0, a[k].1)
    requires forall k :: 0 <= k < |b| ==> IsEdge(|inputs|, b[k].0, b[k].1)
    ensures forall k :: 0 <= k < |a + b| ==> IsEdge(|inputs|, (a + b)[k].0, (a + b)[k].1)
    ensures EdgeImpls<T, B>(id, inputs, ret, a + b) == EdgeImpls(id, inputs, ret, a) + EdgeImpls(id, inputs, ret, b)
  {
  }

  /** Every impl the macro emits, in emission order (src/lib.rs:196-198). */
  function TransitionImpls<T, B>(id: string, inputs: seq<T>, ret: ReturnType<T>): seq<Item<T, B>> {
    var steps := Plan(id, inputs);
    PlanSliceable(id, inputs);
    BaseImpls(BaseCurried(id), steps) + Intermediates(steps) + FinalImpls(RealImpl(id), ret, steps)
  }

  /**
    The emitted impls are exactly the transition table: one impl per legal
    transition (`EdgeListComplete`), none twice (`EdgeListDistinct`), each the
    one the table prescribes.
   */
  lemma TransitionImplsAreEdges<T, B>(id: string, inputs: seq<T>, ret: ReturnType<T>)
    ensures TransitionImpls<T, B>(id, inputs, ret) == EdgeImpls(id, inputs, ret, EdgeList(|inputs|))
  {
    var n, s := |inputs|, Max(|inputs|, 1);
    BaseImplsAreEdges<T, B>(id, inputs, ret);
    IntermediatesAreEdges<T, B>(id, inputs, ret);
    FinalImplsAreEdges<T, B>(id, inputs, ret);
    EdgeImplsAppend<T, B>(id, inputs, ret, BaseEdges(n), Pairs(s));
    EdgeImplsAppend<T, B>(id, inputs, ret, BaseEdges(n) + Pairs(s), FinalEdges(n));
  }

  /** The impls of the transition table, in the order `EdgeList` gives. */
  function TableImpls<T, B>(id: string, inputs: seq<T>, ret: ReturnType<T>): seq<Item<T, B>> {
    EdgeImpls(id, inputs, ret, EdgeList(|inputs|))
  }

  /** Position q of the table's impls holds the impl of the q-th transition of `EdgeList`. */
  lemma TableImplsAt<T, B>(id: string, inputs: seq<T>, ret: ReturnType<T>)
    ensures |TableImpls<T, B>(id, inputs, ret)| == |EdgeList(|inputs|)|
    ensures forall q :: 0 <= q < |TableImpls<T, B>(id, inputs, ret)| ==>
      && TableImpls<T, B>(id, inputs, ret)[q] == Edge(id, inputs, ret, EdgeList(|inputs|)[q].0, EdgeList(|inputs|)[q].1)
      && TableImpls<T, B>(id, inputs, ret)[q].Impl?
  {
    var impls := TableImpls<T, B>(id, inputs, ret);
    var es := EdgeList(|inputs|);
    forall q | 0 <= q < |impls|
      ensures impls[q] == Edge(id, inputs, ret, es[q].0, es[q].1) && impls[q].Impl?
    {
      EdgeShape<T, B>(id, inputs, ret, es[q].0, es[q].1);
    }
  }
}
