/** Which error the parser of crates/actant-cli/src/predicate_parse.rs gives for what is missing. */
module ParseErrors {
  import opened Predicates
  import opened Grammar
  import opened NormalForm

  /** Tokens that go on with an expression that is already complete. */
  predicate GoesOn(rest: seq<Tok>) {
    Next(rest, AndTok) || Next(rest, OrTok)
  }

  predicate StartsAtom(t: Tok) {
    t.LParen? || t.ExistsTok? || t.TrueTok? || t.FalseTok? || t.Ident?
  }

  /** An atom that starts with nothing, or with a token that starts none. */
  lemma {:induction false} NoAtom(t: Tok, rest: seq<Tok>)
    ensures ParseAtom([]) == Err(UnexpectedEnd)
    ensures !StartsAtom(t) ==> ParseAtom([t] + rest) == Err(UnexpectedToken(t))
  {
  }

  /** A parenthesis that is not closed after the expression in it. */
  lemma {:induction false} UnclosedParenthesis(t: Tree, rest: seq<Tok>)
    requires OrLevel(t) && !GoesOn(rest) && !Next(rest, RParen)
    ensures ParseAtom([LParen] + (Yield(t) + rest)) == Err(ExpectedCloseParen)
  {
    OrComplete(t, rest);
    assert ([LParen] + (Yield(t) + rest))[1..] == Yield(t) + rest;
  }

  /** EXISTS without its parentheses, or without a path in them. */
  lemma {:induction false} UnfinishedExists(f: Field, rest: seq<Tok>)
    ensures !Next(rest, LParen) ==> ParseAtom([ExistsTok] + rest) == Err(ExpectedOpenParenAfterExists)
    ensures (rest == [] || !rest[0].Ident?) ==> ParseAtom([ExistsTok, LParen] + rest) == Err(ExpectedIdentifier)
    ensures ValidField(f) && !Next(rest, Dot) && !Next(rest, RParen) ==>
              ParseAtom([ExistsTok, LParen] + (FieldToks(f) + rest)) == Err(ExpectedCloseParenAfterExists)
  {
    assert ([ExistsTok] + rest)[1..] == rest;
    assert ([ExistsTok, LParen] + rest)[2..] == rest && ([ExistsTok, LParen] + rest)[1..][0] == LParen;
    var toks := [ExistsTok, LParen] + (FieldToks(f) + rest);
    assert toks[2..] == FieldToks(f) + rest && toks[1..][0] == LParen;
    if ValidField(f) && !Next(rest, Dot) { FieldComplete(f, rest); }
  }

  /** A path that ends in a dot, or goes on with what is no segment. */
  lemma {:induction false} UnfinishedPath(name: string, rest: seq<Tok>)
    requires rest == [] || !IsSegmentTok(rest[0])
    ensures ParseAtom([Ident(name), Dot] + rest) == Err(ExpectedSegment)
  {
    var toks := [Ident(name), Dot] + rest;
    assert toks[1..] == [Dot] + rest;
    assert ParseSegments([Dot] + rest) == Err(ExpectedSegment);
    assert ParseField(toks) == Err(ExpectedSegment);
  }

  predicate StartsLiteral(rest: seq<Tok>) {
    rest != [] && (rest[0].StrLit? || rest[0].NumLit? || rest[0].TrueTok? || rest[0].FalseTok? || rest[0].NullTok?)
  }

  /** A path without an operator, with an operator but no literal, or with another token between the
      two; the literal is looked for before the operator is looked at. */
  lemma {:induction false} UnfinishedComparison(f: Field, t: Tok, rest: seq<Tok>)
    requires ValidField(f)
    ensures ParseAtom(FieldToks(f)) == Err(ExpectedOperator)
    ensures t != Dot && !StartsLiteral(rest) ==> ParseAtom(FieldToks(f) + ([t] + rest)) == Err(ExpectedLiteral)
    ensures t != Dot && !t.CompareOp? && StartsLiteral(rest) ==>
              ParseAtom(FieldToks(f) + ([t] + rest)) == Err(ExpectedComparison(t))
  {
    FieldComplete(f, []);
    assert FieldToks(f) + [] == FieldToks(f);
    assert ([t] + rest)[1..] == rest;
    if t != Dot { FieldComplete(f, [t] + rest); }
    assert (FieldToks(f) + ([t] + rest))[0] == Ident(f.first);
  }

  /** An expression that is followed by anything is refused where it ends. */
  lemma {:induction false} TrailingTokensAreRefused(t: Tree, rest: seq<Tok>)
    requires OrLevel(t) && rest != [] && !GoesOn(rest)
    ensures ParseTokens(Yield(t) + rest) == Err(TrailingTokens(|Yield(t)|))
  {
    OrComplete(t, rest);
  }

  /** A numeral is read as a float, and as null when it is too large for one. */
  lemma {:induction false} NumeralsReadAsFloats(f: Field, op: Comparator, n: F64)
    requires ValidField(f)
    ensures ParsePredicate(FieldToks(f) + [CompareOp(op), NumLit(n)]) ==
              Ok(Compare(op, FieldText(f), if n.Finite? then Value.Num(Float(n.r)) else Value.Null))
  {
    var t := CompareLeaf(f, op, Numeral(n));
    LevelsNest(t);
    ParserDecidesGrammar(Yield(t), t);
  }
}
