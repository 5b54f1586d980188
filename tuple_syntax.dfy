/**
  The argument tuple type written in every generated `FnOnce` impl header
  (src/lib.rs:125, 155, 184), at the level of tokens: one token per parameter
  type, plus the parentheses and commas around them.
 */
module TupleSyntax {
  import opened Wrappers

  datatype Tok<T> = LParen | RParen | Comma | TypeTok(ty: T)

  /** `#(#tys),*`: the types with a comma between each two. */
  function Separated<T>(tys: seq<T>): (r: seq<Tok<T>>)
    decreases |tys|
  {
    if |tys| == 0 then []
    else if |tys| == 1 then [TypeTok(tys[0])]
    else [TypeTok(tys[0]), Comma] + Separated(tys[1..])
  }

  /** `#(#tys,)*`: every type followed by a comma. */
  function Terminated<T>(tys: seq<T>): (r: seq<Tok<T>>)
    ensures |r| == 2 * |tys|
    decreases |tys|
  {
    if tys == [] then [] else [TypeTok(tys[0]), Comma] + Terminated(tys[1..])
  }

  /** The tuple type as the macro writes it: `(#(#tys),*,)`. */
  function AsWrittenTuple<T>(tys: seq<T>): seq<Tok<T>> {
    [LParen] + Separated(tys) + [Comma, RParen]
  }

  /** The tuple type written so that no element list is special: `(#(#tys,)*)`. */
  function CorrectedTuple<T>(tys: seq<T>): seq<Tok<T>> {
    [LParen] + Terminated(tys) + [RParen]
  }

  /**
    The elements of a parenthesised, comma-separated type list with an
    optional trailing comma; None where that grammar is violated.
   */
  function ParseElems<T>(inner: seq<Tok<T>>): Option<seq<T>>
    decreases |inner|
  {
    if inner == [] then Some([])
    else if !inner[0].TypeTok? then None
    else if |inner| == 1 then Some([inner[0].ty])
    else if inner[1] != Comma then None
    else match ParseElems(inner[2..])
      case Some(rest) => Some([inner[0].ty] + rest)
      case None => None
  }

  /**
    Rust's tuple-type grammar: `()`, or `(` types `)` with commas between them
    and an optional trailing comma, where a single type needs the trailing
    comma (without it, `(T)` is a parenthesised type, not a tuple).
   */
  function ParseTupleType<T>(toks: seq<Tok<T>>): Option<seq<T>> {
    if |toks| < 2 || toks[0] != LParen || toks[|toks| - 1] != RParen then None
    else
      var inner := toks[1..|toks| - 1];
      if |inner| == 1 && inner[0].TypeTok? then None else ParseElems(inner)
  }

  lemma {:induction false} ParseTerminated<T>(tys: seq<T>)
    ensures ParseElems(Terminated(tys)) == Some(tys)
    decreases |tys|
  {
    if tys != [] {
      var t := Terminated(tys);
      assert t[2..] == Terminated(tys[1..]);
      ParseTerminated(tys[1..]);
      assert [tys[0]] + tys[1..] == tys;
    }
  }

  /** The corrected rendering always parses back to exactly the types it was made from. */
  lemma CorrectedTupleRoundTrip<T>(tys: seq<T>)
    ensures ParseTupleType(CorrectedTuple(tys)) == Some(tys)
  {
    var toks := CorrectedTuple(tys);
    assert toks[1..|toks| - 1] == Terminated(tys);
    ParseTerminated(tys);
  }

  lemma {:induction false} SeparatedThenComma<T>(tys: seq<T>)
    requires tys != []
    ensures Separated(tys) + [Comma] == Terminated(tys)
    decreases |tys|
  {
    if |tys| > 1 {
      SeparatedThenComma(tys[1..]);
      assert Separated(tys) + [Comma] == [TypeTok(tys[0]), Comma] + (Separated(tys[1..]) + [Comma]);
    }
  }

  /** For one type or more, the macro's rendering is the corrected one. */
  lemma AsWrittenAgreesWhenNonEmpty<T>(tys: seq<T>)
    requires tys != []
    ensures AsWrittenTuple(tys) == CorrectedTuple(tys)
    ensures ParseTupleType(AsWrittenTuple(tys)) == Some(tys)
  {
    SeparatedThenComma(tys);
    assert AsWrittenTuple(tys) == [LParen] + (Separated(tys) + [Comma]) + [RParen];
    CorrectedTupleRoundTrip(tys);
  }

  /** For no types at all, the macro writes `(,)`, which is not a type. */
  lemma AsWrittenEmptyIsNotATuple<T>()
    ensures AsWrittenTuple<T>([]) == [LParen, Comma, RParen]
    ensures ParseTupleType(AsWrittenTuple<T>([])) == None
    ensures ParseTupleType(CorrectedTuple<T>([])) == Some([])
  {
    assert AsWrittenTuple<T>([]) == [LParen, Comma, RParen];
  }
}
