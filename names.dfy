/**
  The identifiers the macro generates for one curried function `ident`
  (src/lib.rs:96, 113, 165). A name is kept structured; `Render` gives the
  text that `format_ident!` produces for it when `ident` is not a raw
  identifier (for `r#x`, `format_ident!` would drop the `r#`).
 */
module Names {

  datatype Name =
    | Ident(id: string)                 // the function's own identifier, reused by the entry constant
    | BaseCurried(id: string)           // {ident}_BASE_CURRIED, the entry stage's type
    | CurriedStep(id: string, i: nat)   // {ident}_CURRIED_STEP_{i}, the stage holding i arguments
    | RealImpl(id: string)              // {ident}_REAL_IMPL, the relocated original function

  /** The type of the stage that holds `i` bound arguments: stage 0 is the entry type. */
  function StepName(id: string, i: nat): Name {
    if i == 0 then BaseCurried(id) else CurriedStep(id, i)
  }

  function Digit(d: nat): (c: char)
    requires d < 10
    ensures '0' <= c <= '9'
  {
    ('0' as int + d) as char
  }

  /** `n` in decimal, as `format_ident!` writes a `usize`. */
  function Decimal(n: nat): (s: string)
    ensures |s| >= 1 && '0' <= s[|s| - 1] <= '9'
    decreases n
  {
    if n < 10 then [Digit(n)] else Decimal(n / 10) + [Digit(n % 10)]
  }

  lemma {:induction false} DecimalInjective(a: nat, b: nat)
    requires Decimal(a) == Decimal(b)
    ensures a == b
    decreases a
  {
    var s := Decimal(a);
    assert Digit(a % 10) == s[|s| - 1] == Digit(b % 10);
    if a >= 10 && b >= 10 {
      assert Decimal(a / 10) == s[..|s| - 1] == Decimal(b / 10);
      DecimalInjective(a / 10, b / 10);
    }
  }

  function Render(n: Name): string {
    match n
    case Ident(id) => id
    case BaseCurried(id) => id + "_BASE_CURRIED"
    case CurriedStep(id, i) => id + "_CURRIED_STEP_" + Decimal(i)
    case RealImpl(id) => id + "_REAL_IMPL"
  }

  /** Two different generated names for the same function render to different identifiers. */
  lemma {:induction false} RenderInjective(a: Name, b: Name)
    requires a.id == b.id && a != b
    ensures Render(a) != Render(b)
  {
    var id := a.id;
    if a.CurriedStep? && b.CurriedStep? {
      var p := id + "_CURRIED_STEP_";
      if Render(a) == Render(b) {
        assert Render(a)[|p|..] == Decimal(a.i);
        assert Render(b)[|p|..] == Decimal(b.i);
        DecimalInjective(a.i, b.i);
      }
    } else if !a.Ident? && !b.Ident? {
      // the last character tells the three suffixes apart: 'D', a digit, 'L'
      var ra, rb := Render(a), Render(b);
      assert a.BaseCurried? ==> ra[|ra| - 1] == 'D';
      assert b.BaseCurried? ==> rb[|rb| - 1] == 'D';
      assert a.RealImpl? ==> ra[|ra| - 1] == 'L';
      assert b.RealImpl? ==> rb[|rb| - 1] == 'L';
      assert a.CurriedStep? ==> ra[|ra| - 1] == Decimal(a.i)[|Decimal(a.i)| - 1];
      assert b.CurriedStep? ==> rb[|rb| - 1] == Decimal(b.i)[|Decimal(b.i)| - 1];
    } else {
      assert |Render(a)| != |Render(b)|;
    }
  }

  /**
    The naming scheme is injective only within one function: the stage types
    of `id` render exactly as the entry constant of a function that is itself
    named `{id}_BASE_CURRIED` or `{id}_CURRIED_STEP_{i}`.
   */
  lemma CollisionAcrossFunctions(id: string, i: nat)
    requires i >= 1
    ensures BaseCurried(id) != Ident(id + "_BASE_CURRIED")
    ensures Render(BaseCurried(id)) == Render(Ident(id + "_BASE_CURRIED"))
    ensures CurriedStep(id, i) != Ident(id + "_CURRIED_STEP_" + Decimal(i))
    ensures Render(CurriedStep(id, i)) == Render(Ident(id + "_CURRIED_STEP_" + Decimal(i)))
  {
  }

  /**
    Every identifier one expansion introduces: the entry constant, the
    `stages` stage types and the relocated function.
   */
  function GeneratedNames(id: string, stages: nat): seq<Name> {
    [Ident(id)] + seq(stages, i requires 0 <= i => StepName(id, i)) + [RealImpl(id)]
  }

  /** The identifiers one expansion introduces are pairwise distinct as text. */
  lemma GeneratedNamesDistinct(id: string, stages: nat)
    ensures forall i, j :: 0 <= i < j < |GeneratedNames(id, stages)| ==>
      Render(GeneratedNames(id, stages)[i]) != Render(GeneratedNames(id, stages)[j])
  {
    var names := GeneratedNames(id, stages);
    forall i, j | 0 <= i < j < |names|
      ensures Render(names[i]) != Render(names[j])
    {
      assert names[i].id == id && names[j].id == id;
      if 1 <= i && j <= stages {
        assert names[i] == StepName(id, i - 1) && names[j] == StepName(id, j - 1);
      }
      RenderInjective(names[i], names[j]);
    }
  }
}
