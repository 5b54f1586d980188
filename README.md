# auto_curry, modelled in Dafny

`auto_curry` is a Rust attribute macro. It rewrites a free function of N
parameters into a family of items that lets the function be called with its
arguments split over any number of consecutive calls:

- an entry constant with the function's own name;
- one tuple struct per partial-application stage;
- one `FnOnce` impl for every legal transition between stages;
- the original function, renamed `{ident}_REAL_IMPL`.

Before expanding, it checks the function:

- a `self` receiver is an error;
- `async` is an error;
- `const` is dropped with a warning;
- extra attributes are dropped with a warning.

This project models the expansion on abstract items and proves what the
expansion promises. It has these modules:

- `Names` (names.dfy): the generated identifiers and their rendering.
- `Items` (items.dfy): the emitted items as values. An impl is its self type, its argument types, its output type and its body. The body is the struct it builds, or the call of the relocated function, with the fields it reads.
- `TupleSyntax` (tuple_syntax.dfy): the argument tuple type written in each impl header, as tokens.
- `CurryPlan` (plan.dfy) holds:
  - the stages, built by the `steps` loop;
  - the intermediate pairs, built by the nested `from`/`to` loops;
  - the base, intermediate and final impls;
  - the transition table `Edge` that they are proved equal to.
- `Macro` (macro.dfy): the whole expansion `AutoCurry`, with its diagnostics and the emission order.
- `Eval` (eval.dfy): what the emitted items do when called. A stage value holds its bound arguments. A call looks up the impl for the value's type and the number of arguments, then runs its body. This is where grouping invariance is proved.

The two loops of the source are methods proved against specification
functions:

- `CurryPlan.BuildSteps` against `CurryPlan.Plan`;
- `CurryPlan.BuildIntermediates` against `CurryPlan.Intermediates`.

The expansion itself, `Macro.AutoCurry`, is a method: it collects the
diagnostics in order and returns early on an error. Everything else is pure
functions and lemmas.

For functions of zero or one parameter the model emits the expansion as the
source evidently intends it, not as written: see "## Findings" and the
`Macro.AutoCurry` line under "## Left out".

Parameter types, the function body and run-time argument values are type
parameters `T`, `B` and `V`. The macro never looks inside them.

## Model

| member | source | states |
|---|---|---|
| Names.DecimalInjective | src/lib.rs:113 | different step indices are written as different decimal numerals |
| Names.RenderInjective | src/lib.rs:96-165 | two different generated names for the same function render to different identifiers |
| Names.CollisionAcrossFunctions | src/lib.rs:96-117 | the stage types of `id` render exactly as the entry constant of a function named `{id}_BASE_CURRIED` or `{id}_CURRIED_STEP_{i}`, although they are different names |
| Names.GeneratedNamesDistinct | src/lib.rs:96-165 | the entry constant, every stage type and `{ident}_REAL_IMPL` all render to pairwise different identifiers |
| TupleSyntax.CorrectedTupleRoundTrip | src/lib.rs:125 | the tuple type written as `(#(#args,)*)` parses back to exactly its element types, for any number of them |
| TupleSyntax.AsWrittenAgreesWhenNonEmpty | src/lib.rs:184 | for one type or more, the source's `(#(#args),*,)` gives the same tokens as the corrected form and parses back to its types |
| TupleSyntax.AsWrittenEmptyIsNotATuple | src/lib.rs:184 | for no types, the source writes `(,)`, which does not parse as a tuple type; the corrected form gives `()` |
| CurryPlan.BuildSteps | src/lib.rs:101-117 | there are max(N, 1) stages; stage 0 is `{ident}_BASE_CURRIED` with no bound arguments; stage i is `{ident}_CURRIED_STEP_{i}` with `args == inputs[..i]` and `rest == inputs[i..]`; `args + rest` is always the whole parameter list |
| CurryPlan.BaseImplsAreEdges | src/lib.rs:119-132 | the base impls are exactly the transitions (0, i) for 1 <= i < N, in order of i; each takes `inputs[..i]` and builds stage i from the arguments in order |
| CurryPlan.PairsBelowComplete | src/lib.rs:136-137 | the nested loops visit every pair 1 <= from < to < stages |
| CurryPlan.PairsBelowSorted | src/lib.rs:136-137 | the loops visit the pairs in strictly increasing (from, to) order, so no pair is visited twice |
| CurryPlan.PairsBelowCount | src/lib.rs:136-137 | the first f - 1 rows of the loops visit (f - 1)(2s - 2 - f)/2 pairs |
| CurryPlan.PairsCount | src/lib.rs:135-137 | the loops push exactly `(s - 2)(s - 1)/2` impls for s >= 2 stages and none otherwise, so the reserved capacity is exact |
| CurryPlan.CheckedCapacityUnderflows | src/lib.rs:134-135 | the capacity expression in checked `usize` arithmetic fails for a function of at most one parameter; for two or more it equals the number of pairs |
| CurryPlan.BuildIntermediates | src/lib.rs:134-163 | the loops produce the intermediate impls of the pairs in loop order; their number is the corrected capacity |
| CurryPlan.PlanSliceable | src/lib.rs:140 | `steps[from].rest[0..to - from]` is always in bounds for from < to < stages |
| CurryPlan.IntermediatesAreEdges | src/lib.rs:136-163 | the intermediate impls are exactly the transitions (from, to) for 1 <= from < to < N, in loop order |
| CurryPlan.FinalImplsAreEdges | src/lib.rs:169-191 | each stage i gets the impl that takes the remaining `inputs[i..]` and calls `{ident}_REAL_IMPL` with the bound fields, then the new arguments |
| CurryPlan.EdgeListComplete | src/lib.rs:196-198 | every legal transition from < to <= N (or (0, 0) when N = 0) appears among the emitted impls |
| CurryPlan.EdgeListDistinct | src/lib.rs:196-198 | no transition appears twice among the emitted impls |
| CurryPlan.TransitionImplsAreEdges | src/lib.rs:196-198 | base, intermediate and final impls together are the transition table, in emission order |
| Macro.ClassifyInputs | src/lib.rs:64-77 | all parameter types when no parameter is a receiver, in order; otherwise the position of the first receiver |
| Macro.AutoCurry | src/lib.rs:29-202 | the attribute warning comes first; a receiver ends the expansion with its error alone; then comes the const warning; `async` ends with its error; otherwise the constant, the structs, the impls and the relocated function, which keeps its parameters, return type and body and loses `const` |
| Macro.ImplPositions | src/lib.rs:193-200 | the impls sit between the structs and the relocated function, in transition-table order, and nothing else there is an impl |
| Macro.ImplsAreTransitions | src/lib.rs:119-191 | every emitted impl is the impl of some legal transition |
| Macro.TransitionsAreImplemented | src/lib.rs:119-191 | every legal transition has its impl among the emitted items |
| Macro.NoConflictingImpls | src/lib.rs:119-191 | no two emitted impls share a self type and an argument count, so the `FnOnce` impls never overlap |
| Macro.ImplCount | src/lib.rs:119-191 | a function of N >= 1 parameters gets N(N + 1)/2 impls; with none, a single impl |
| Macro.StageStructs | src/lib.rs:16-27 | one struct per stage, holding the types bound so far; for N <= 1 the entry struct alone, with no fields |
| Macro.DeclaredNamesAre | src/lib.rs:193-200 | the items declare the entry constant, the stage types in order and the relocated function, and nothing else |
| Macro.DeclaredNamesDistinct | src/lib.rs:96-167 | no two items of one expansion declare the same identifier |
| Macro.NullaryHeaderAsWritten | src/lib.rs:184 | with no parameters the only impl is the call from the entry type with nothing, and its header as written is not a tuple type |
| Macro.ImplHeadersParse | src/lib.rs:125-186 | every impl header in the corrected form parses back to its argument types; with N >= 1 the source's form writes the same tokens |
| Eval.Endpoints | src/lib.rs:96-167 | the first item is the entry constant of type `{ident}_BASE_CURRIED`, whose value is the evaluator's entry stage `Entry(id)`; the last is the relocated function with the original parameters, return type and body, without `const` |
| Eval.FieldsInOrder | src/lib.rs:141-153 | `self.0 .. self.(m-1), args.0 .. args.(n-1)` reads the bound fields, then the new arguments, in order |
| Eval.ApplyEdge | src/lib.rs:154-191 | a transition's impl builds the next stage holding all arguments so far, or calls the relocated function with all N, in order |
| Eval.LookupInTable | src/lib.rs:119-191 | on stage `from`, a call with k arguments resolves to the impl of transition (from, from + k) when it is legal, and to nothing otherwise |
| Eval.CallOnStage | src/lib.rs:119-191 | one call on a stage: a next stage while arguments are missing, the real call when they are complete, no impl for any other count |
| Eval.GroupingInvariance | src/lib.rs:169-191 | for N >= 1, any split of the N arguments into consecutive non-empty calls calls the relocated function exactly once, with the arguments in order |
| Eval.StageDeterminism | src/lib.rs:134-163 | after any grouping of the first i < N arguments, the value is stage i holding exactly those arguments, whatever the grouping |
| Eval.DirectCall | src/lib.rs:169-191 | calling the entry constant with all N arguments, including N = 0, calls the relocated function with them |
| Eval.EmptyCallRejected | src/lib.rs:119-191 | for N >= 1, calling any stage with no arguments has no impl |
| Eval.FourParameterGroupings | tests/quatro.rs:12-18 | the groupings (a, b, c, d), (a, b)(c, d), (a)(b)(c)(d) and (a)(b, c)(d) make the same call |
| Eval.TwoParameterGroupings | tests/smoke.rs:12 | for two parameters, `test(x, y)` and `test(x)(y)` give the same value, the call of the relocated function with (x, y) |
| Eval.PartialApplicationKept | tests/reference.rs:15-16 | binding two of three arguments gives stage 2; calling it later with the third calls the function with all three |

## Left out

- Parsing of the input by `syn` is not modelled: the model starts from the parsed function (`Macro.ItemFn`).
- Token output is not modelled. The quoted token streams, spans and `#[allow(nonstandard_style)]` become structured items (`Items.Item`). Only the impl headers' tuple types are modelled at token level (`TupleSyntax`).
- Diagnostic rendering is not modelled: spans and message text are left out. Warnings and errors are kept as values, in emission order.
- `unsafe`, the ABI and generics are discarded by the source without a diagnostic. The model does not carry them.
- Parameter patterns and the visibility of the relocated function are not modelled. The relocated function keeps the parameter list, return type and body as opaque values.
- Rust's type checking, trait coherence and the `rust-call` ABI are not modelled. `Eval.Call` resolves a call by self type and argument count. That is how the impls differ, and `Macro.NoConflictingImpls` shows that pair is unique.
- The compiler's behaviour when it rejects the `(,)` header for a zero-parameter function is not modelled. The model proves that the header is not a tuple type (`Macro.NullaryHeaderAsWritten`). The rest of the model uses the corrected header.
- Macro.AutoCurry: follows the non-panicking capacity of src/lib.rs:135 (the build without overflow checks, where `usize` wraps and the capacity is 0; the model matches that build exactly for one parameter) and, for no parameters, the corrected header `()` instead of `(,)` from src/lib.rs:184. With overflow checks the source panics for zero or one parameter and emits nothing. `Eval.DirectCall` for N = 0 relies on both corrections.
- Names.Render: raw identifiers are not modelled. `format_ident!` drops the `r#` of a raw identifier such as `r#match` in the three generated names (`match_BASE_CURRIED`, `match_CURRIED_STEP_1`, `match_REAL_IMPL`), while the constant keeps `r#match`. `Render` treats the identifier as plain text and keeps the prefix.
- Names.RenderInjective: proves distinct identifiers only among the names of one function. Two curried functions in one scope can collide: a function named `{f}_BASE_CURRIED` or `{f}_CURRIED_STEP_{i}` declares a constant with the name of a stage type of `f` (`Names.CollisionAcrossFunctions`). The source does nothing to prevent this, and the model does not reason about more than one expansion.
- CurryPlan.CheckedCapacityUnderflows: models only the overflow-checked build, where the subtraction panics. Without overflow checks, `usize` wraps and the product is 0 for one stage, which is the intended capacity.

## Findings

| source | as written | input that shows it | evidently intended | confidence | as-written member | corrected member |
|---|---|---|---|---|---|---|
| src/lib.rs:135 | `Vec::with_capacity((steps_count - 2) * (steps_count - 1) / 2)` on `usize` | a function of zero or one parameter (`steps_count == 1`): `1 - 2` underflows, a panic under overflow checks | capacity 0 when there are fewer than two stages, otherwise the number of (from, to) pairs | not executed | CurryPlan.CheckedCapacityUnderflows | CurryPlan.BuildIntermediates |
| src/lib.rs:184 | `FnOnce<(#(#rest),*,)>` | a function with no parameters: the header becomes `FnOnce<(,)>`, which is not a Rust type | `FnOnce<()>`, e.g. written `(#(#rest,)*)` | not executed | TupleSyntax.AsWrittenEmptyIsNotATuple | TupleSyntax.CorrectedTupleRoundTrip |
