/**
  The items one expansion emits, kept as values rather than tokens. `T` stands
  for a parameter type and `B` for the original function's body, neither of
  which the macro looks into.
 */
module Items {
  import opened Names

  datatype Visibility = Inherited | Public | Restricted(path: string)

  /** A function's declared return type; `Default` when none is written. */
  datatype ReturnType<T> = Default | Type(ty: T)

  /** A positional field access in a generated impl body: `self.k` or `args.k`. */
  datatype FieldRef = SelfField(k: nat) | ArgField(k: nat)

  /** The body of a generated `call_once`: build a stage, or call the relocated function. */
  datatype Body = Construct(target: Name, fields: seq<FieldRef>) | CallReal(callee: Name, fields: seq<FieldRef>)

  /** The associated `Output` type of a generated impl. */
  datatype OutputType<T> = StepType(name: Name) | Declared(ty: T) | Unit

  datatype Item<T, B> =
      /** `#vis const ident: ty = ty();` */
    | Const(vis: Visibility, name: Name, ty: Name)
      /** `struct name(fields...);` */
    | Struct(name: Name, fields: seq<T>)
      /** `impl FnOnce<(argTys...,)> for selfTy { type Output = output; ... body }` */
    | Impl(selfTy: Name, argTys: seq<T>, output: OutputType<T>, body: Body)
      /** `fn name(params) -> ret block`, `const` when isConst */
    | RealFn(name: Name, isConst: bool, params: seq<T>, ret: ReturnType<T>, block: B)

  /** `self.0, ..., self.(n-1)` */
  function SelfFields(n: nat): seq<FieldRef> {
    seq(n, k requires 0 <= k => SelfField(k))
  }

  /** `args.0, ..., args.(n-1)` */
  function ArgFields(n: nat): seq<FieldRef> {
    seq(n, k requires 0 <= k => ArgField(k))
  }

  /** The output of a final impl: the declared return type, or `()` when none is declared. */
  function OutputOf<T>(ret: ReturnType<T>): OutputType<T> {
    match ret
    case Default => Unit
    case Type(ty) => Declared(ty)
  }
}
