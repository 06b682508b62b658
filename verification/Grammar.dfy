/** The expression grammar of crates/actant-cli/src/predicate_parse.rs over tokens: concrete
    syntax trees, the recursive-descent parser as a function, and what it accepts. */
module Grammar {
  import opened Predicates

  datatype Result<T> = Ok(value: T) | Err(error: ParseError)

  datatype ParseError =
    | ExpectedCloseParen
    | ExpectedOpenParenAfterExists
    | ExpectedCloseParenAfterExists
    | ExpectedOperator
    | ExpectedComparison(found: Tok)
    | UnexpectedToken(found: Tok)
    | UnexpectedEnd
    | ExpectedIdentifier
    | ExpectedSegment
    | ExpectedLiteral
    | TrailingTokens(position: nat)

  /** What parsing a numeral as f64 can give: a finite number or an overflow. */
  datatype F64 = Finite(r: real) | Infinite(negative: bool)

  datatype Tok =
    | Ident(name: string) | StrLit(s: string) | NumLit(n: F64)
    | CompareOp(op: Comparator)
    | LParen | RParen | Dot | Comma
    | TrueTok | FalseTok | NullTok | AndTok | OrTok | NotTok | ExistsTok

  // ------------------------------------------------------------- syntax

  datatype Segment = Name(name: string) | Index(r: real)
  datatype Field = Field(first: string, rest: seq<Segment>)
  datatype Literal = Text(s: string) | Numeral(n: F64) | Truth(b: bool) | NullLiteral

  /** A parse tree, shaped as the grammar derives it. */
  datatype Tree =
    | TrueLeaf
    | FalseLeaf
    | ExistsLeaf(field: Field)
    | CompareLeaf(field: Field, op: Comparator, literal: Literal)
    | Paren(inner: Tree)
    | NotTree(inner: Tree)
    | AndTree(left: Tree, right: Tree)
    | OrTree(left: Tree, right: Tree)

  predicate IsIndex(r: real) {
    r >= 0.0 && r.Floor as real == r
  }

  predicate ValidSegments(ss: seq<Segment>) {
    forall i :: 0 <= i < |ss| && ss[i].Index? ==> IsIndex(ss[i].r)
  }

  predicate ValidField(f: Field) {
    ValidSegments(f.rest)
  }

  predicate AtomLevel(t: Tree)
    decreases t, 1
  {
    match t
    case TrueLeaf => true
    case FalseLeaf => true
    case ExistsLeaf(f) => ValidField(f)
    case CompareLeaf(f, _, _) => ValidField(f)
    case Paren(inner) => OrLevel(inner)
    case _ => false
  }

  predicate NotLevel(t: Tree)
    decreases t, 2
  {
    if t.NotTree? then NotLevel(t.inner) else AtomLevel(t)
  }

  predicate AndLevel(t: Tree)
    decreases t, 3
  {
    if t.AndTree? then AndLevel(t.left) && NotLevel(t.right) else NotLevel(t)
  }

  /** A derivation of `expr`. */
  predicate OrLevel(t: Tree)
    decreases t, 4
  {
    if t.OrTree? then OrLevel(t.left) && AndLevel(t.right) else AndLevel(t)
  }

  /** The levels are nested, and differ only in the operator at the root. */
  lemma LevelsNest(t: Tree)
    ensures AtomLevel(t) ==> NotLevel(t)
    ensures NotLevel(t) ==> AndLevel(t)
    ensures AndLevel(t) ==> OrLevel(t)
    ensures OrLevel(t) && !t.OrTree? ==> AndLevel(t)
    ensures OrLevel(t) && !t.OrTree? && !t.AndTree? ==> NotLevel(t)
    ensures OrLevel(t) && !t.OrTree? && !t.AndTree? && !t.NotTree? ==> AtomLevel(t)
  {
    assert t.OrTree? || t.AndTree? ==> (NotLevel(t) == AtomLevel(t) == false);
    assert t.OrTree? ==> (AndLevel(t) == NotLevel(t));
  }

  function SegmentTok(s: Segment): Tok {
    match s
    case Name(n) => Ident(n)
    case Index(r) => NumLit(Finite(r))
  }

  function SegmentToks(ss: seq<Segment>): seq<Tok> {
    if ss == [] then [] else [Dot, SegmentTok(ss[0])] + SegmentToks(ss[1..])
  }

  function FieldToks(f: Field): seq<Tok> {
    [Ident(f.first)] + SegmentToks(f.rest)
  }

  function LiteralTok(l: Literal): Tok {
    match l
    case Text(s) => StrLit(s)
    case Numeral(n) => NumLit(n)
    case Truth(b) => if b then TrueTok else FalseTok
    case NullLiteral => NullTok
  }

  /** The tokens a tree derives. */
  function Yield(t: Tree): seq<Tok> {
    match t
    case TrueLeaf => [TrueTok]
    case FalseLeaf => [FalseTok]
    case ExistsLeaf(f) => [ExistsTok, LParen] + FieldToks(f) + [RParen]
    case CompareLeaf(f, op, l) => FieldToks(f) + [CompareOp(op), LiteralTok(l)]
    case Paren(inner) => [LParen] + Yield(inner) + [RParen]
    case NotTree(inner) => [NotTok] + Yield(inner)
    case AndTree(l, r) => Yield(l) + [AndTok] + Yield(r)
    case OrTree(l, r) => Yield(l) + [OrTok] + Yield(r)
  }

  // ------------------------------------------------------------- parser

  predicate Next(toks: seq<Tok>, t: Tok) {
    toks != [] && toks[0] == t
  }

  /** A tree and the tokens left over. */
  type Parse<T> = Result<(T, seq<Tok>)>

  function ParseOr(toks: seq<Tok>): (r: Parse<Tree>)
    ensures r.Ok? ==> |r.value.1| < |toks|
    decreases |toks|, 4
  {
    match ParseAnd(toks)
    case Err(e) => Err(e)
    case Ok((left, rest)) => OrLoop(left, rest)
  }

  function OrLoop(left: Tree, toks: seq<Tok>): (r: Parse<Tree>)
    ensures r.Ok? ==> |r.value.1| <= |toks|
    decreases |toks|, 0
  {
    if !Next(toks, OrTok) then Ok((left, toks))
    else match ParseAnd(toks[1..])
      case Err(e) => Err(e)
      case Ok((right, rest)) => OrLoop(OrTree(left, right), rest)
  }

  function ParseAnd(toks: seq<Tok>): (r: Parse<Tree>)
    ensures r.Ok? ==> |r.value.1| < |toks|
    decreases |toks|, 3
  {
    match ParseNot(toks)
    case Err(e) => Err(e)
    case Ok((left, rest)) => AndLoop(left, rest)
  }

  function AndLoop(left: Tree, toks: seq<Tok>): (r: Parse<Tree>)
    ensures r.Ok? ==> |r.value.1| <= |toks|
    decreases |toks|, 0
  {
    if !Next(toks, AndTok) then Ok((left, toks))
    else match ParseNot(toks[1..])
      case Err(e) => Err(e)
      case Ok((right, rest)) => AndLoop(AndTree(left, right), rest)
  }

  function ParseNot(toks: seq<Tok>): (r: Parse<Tree>)
    ensures r.Ok? ==> |r.value.1| < |toks|
    decreases |toks|, 2
  {
    if !Next(toks, NotTok) then ParseAtom(toks)
    else match ParseNot(toks[1..])
      case Err(e) => Err(e)
      case Ok((inner, rest)) => Ok((NotTree(inner), rest))
  }

  function ParseAtom(toks: seq<Tok>): (r: Parse<Tree>)
    ensures r.Ok? ==> |r.value.1| < |toks|
    decreases |toks|, 1
  {
    if toks == [] then Err(UnexpectedEnd)
    else match toks[0]
      case LParen =>
        (match ParseOr(toks[1..])
         case Err(e) => Err(e)
         case Ok((inner, rest)) =>
           if Next(rest, RParen) then Ok((Paren(inner), rest[1..])) else Err(ExpectedCloseParen))
      case ExistsTok =>
        if !Next(toks[1..], LParen) then Err(ExpectedOpenParenAfterExists)
        else (match ParseField(toks[2..])
              case Err(e) => Err(e)
              case Ok((field, rest)) =>
                if Next(rest, RParen) then Ok((ExistsLeaf(field), rest[1..])) else Err(ExpectedCloseParenAfterExists))
      case TrueTok => Ok((TrueLeaf, toks[1..]))
      case FalseTok => Ok((FalseLeaf, toks[1..]))
      case Ident(_) =>
        (match ParseField(toks)
         case Err(e) => Err(e)
         case Ok((field, rest)) =>
           if rest == [] then Err(ExpectedOperator)
           else (match ParseLiteral(rest[1..])
                 case Err(e) => Err(e)
                 case Ok((literal, after)) =>
                   if rest[0].CompareOp? then Ok((CompareLeaf(field, rest[0].op, literal), after))
                   else Err(ExpectedComparison(rest[0]))))
      case other => Err(UnexpectedToken(other))
  }

  function ParseField(toks: seq<Tok>): (r: Parse<Field>)
    ensures r.Ok? ==> |r.value.1| < |toks|
  {
    if toks == [] || !toks[0].Ident? then Err(ExpectedIdentifier)
    else match ParseSegments(toks[1..])
      case Err(e) => Err(e)
      case Ok((rest, after)) => Ok((Field(toks[0].name, rest), after))
  }

  predicate IsSegmentTok(t: Tok) {
    t.Ident? || (t.NumLit? && t.n.Finite? && IsIndex(t.n.r))
  }

  function SegmentOf(t: Tok): Segment
    requires IsSegmentTok(t)
  {
    if t.Ident? then Name(t.name) else Index(t.n.r)
  }

  function ParseSegments(toks: seq<Tok>): (r: Parse<seq<Segment>>)
    ensures r.Ok? ==> |r.value.1| <= |toks|
    decreases |toks|
  {
    if !Next(toks, Dot) then Ok(([], toks))
    else if |toks| < 2 || !IsSegmentTok(toks[1]) then Err(ExpectedSegment)
    else match ParseSegments(toks[2..])
      case Err(e) => Err(e)
      case Ok((rest, after)) => Ok(([SegmentOf(toks[1])] + rest, after))
  }

  function ParseLiteral(toks: seq<Tok>): (r: Parse<Literal>)
    ensures r.Ok? ==> |r.value.1| < |toks|
  {
    if toks == [] then Err(ExpectedLiteral)
    else match toks[0]
      case StrLit(s) => Ok((Text(s), toks[1..]))
      case NumLit(n) => Ok((Numeral(n), toks[1..]))
      case TrueTok => Ok((Truth(true), toks[1..]))
      case FalseTok => Ok((Truth(false), toks[1..]))
      case NullTok => Ok((NullLiteral, toks[1..]))
      case _ => Err(ExpectedLiteral)
  }

  /** The whole input must be one expression. */
  function ParseTokens(toks: seq<Tok>): Result<Tree> {
    match ParseOr(toks)
    case Err(e) => Err(e)
    case Ok((t, rest)) => if rest == [] then Ok(t) else Err(TrailingTokens(|toks| - |rest|))
  }

  // ------------------------------------------------------- rearranging tokens

  lemma Bracketed(open: seq<Tok>, body: seq<Tok>, close: Tok, rest: seq<Tok>)
    ensures open + body + [close] + rest == open + (body + ([close] + rest))
    ensures (open + body + [close] + rest)[|open|..] == body + ([close] + rest)
    ensures ([close] + rest)[1..] == rest
  {
  }

  lemma Between(left: seq<Tok>, x: Tok, right: seq<Tok>, rest: seq<Tok>)
    ensures left + [x] + right + rest == left + ([x] + (right + rest))
    ensures ([x] + (right + rest))[1..] == right + rest
  {
  }

  lemma Joined(left: seq<Tok>, x: Tok, toks: seq<Tok>, right: seq<Tok>, rest: seq<Tok>)
    requires toks != [] && toks[0] == x && toks[1..] == right + rest
    ensures left + toks == left + [x] + right + rest
  {
    assert toks == [x] + toks[1..];
    Between(left, x, right, rest);
  }

  lemma TwoThen(left: seq<Tok>, x: Tok, y: Tok, rest: seq<Tok>)
    ensures left + [x, y] + rest == left + ([x, y] + rest)
    ensures ([x, y] + rest)[1..] == [y] + rest && ([y] + rest)[1..] == rest
  {
    assert ([x, y] + rest)[1..] == [y] + rest;
  }

  // ---------------------------------------------------- sound: no tree without its tokens

  lemma {:induction false} SegmentsSound(toks: seq<Tok>)
    requires ParseSegments(toks).Ok?
    ensures var (ss, rest) := ParseSegments(toks).value;
            toks == SegmentToks(ss) + rest && ValidSegments(ss) && !Next(rest, Dot)
    decreases |toks|
  {
    if Next(toks, Dot) {
      SegmentsSound(toks[2..]);
      var (more, rest) := ParseSegments(toks[2..]).value;
      var ss := [SegmentOf(toks[1])] + more;
      assert ss[1..] == more && SegmentToks(ss) == [Dot, toks[1]] + SegmentToks(more);
      assert toks == [Dot, toks[1]] + toks[2..];
      Between([], Dot, [toks[1]] + SegmentToks(more), rest);
    }
  }

  lemma {:induction false} FieldSound(toks: seq<Tok>)
    requires ParseField(toks).Ok?
    ensures var (f, rest) := ParseField(toks).value;
            toks == FieldToks(f) + rest && ValidField(f) && !Next(rest, Dot)
  {
    SegmentsSound(toks[1..]);
    var (ss, rest) := ParseSegments(toks[1..]).value;
    assert toks == [toks[0]] + (SegmentToks(ss) + rest);
  }

  lemma LiteralSound(toks: seq<Tok>)
    requires ParseLiteral(toks).Ok?
    ensures var (l, rest) := ParseLiteral(toks).value; toks == [LiteralTok(l)] + rest
  {
  }

  lemma {:induction false} ExistsSound(toks: seq<Tok>)
    requires toks != [] && toks[0] == ExistsTok && ParseAtom(toks).Ok?
    ensures var (t, rest) := ParseAtom(toks).value; AtomLevel(t) && toks == Yield(t) + rest
  {
    FieldSound(toks[2..]);
    var (f, rest) := ParseField(toks[2..]).value;
    Bracketed([ExistsTok, LParen], FieldToks(f), RParen, rest[1..]);
    assert rest == [RParen] + rest[1..] && toks == [ExistsTok, LParen] + toks[2..];
  }

  lemma {:induction false} CompareSound(toks: seq<Tok>)
    requires toks != [] && toks[0].Ident? && ParseAtom(toks).Ok?
    ensures var (t, rest) := ParseAtom(toks).value; AtomLevel(t) && toks == Yield(t) + rest
  {
    FieldSound(toks);
    var (f, rest) := ParseField(toks).value;
    LiteralSound(rest[1..]);
    var (l, after) := ParseLiteral(rest[1..]).value;
    TwoThen(FieldToks(f), rest[0], LiteralTok(l), after);
    assert rest == [rest[0], LiteralTok(l)] + after;
  }

  lemma {:induction false} AtomSound(toks: seq<Tok>)
    requires ParseAtom(toks).Ok?
    ensures var (t, rest) := ParseAtom(toks).value; AtomLevel(t) && toks == Yield(t) + rest
    decreases |toks|, 1
  {
    match toks[0]
    case LParen =>
      OrSound(toks[1..]);
      var (inner, rest) := ParseOr(toks[1..]).value;
      Bracketed([LParen], Yield(inner), RParen, rest[1..]);
      assert rest == [RParen] + rest[1..] && toks == [LParen] + toks[1..];
    case ExistsTok => ExistsSound(toks);
    case Ident(_) => CompareSound(toks);
    case _ =>
  }

  lemma {:induction false} NotSound(toks: seq<Tok>)
    requires ParseNot(toks).Ok?
    ensures var (t, rest) := ParseNot(toks).value; NotLevel(t) && toks == Yield(t) + rest
    decreases |toks|, 2
  {
    if Next(toks, NotTok) {
      NotSound(toks[1..]);
      assert toks == [NotTok] + toks[1..];
    } else {
      AtomSound(toks);
    }
  }

  lemma {:induction false} AndLoopSound(left: Tree, toks: seq<Tok>)
    requires AndLevel(left) && AndLoop(left, toks).Ok?
    ensures var (t, rest) := AndLoop(left, toks).value;
            AndLevel(t) && Yield(left) + toks == Yield(t) + rest && !Next(rest, AndTok)
    decreases |toks|, 0
  {
    if Next(toks, AndTok) {
      NotSound(toks[1..]);
      var (right, rest) := ParseNot(toks[1..]).value;
      Joined(Yield(left), AndTok, toks, Yield(right), rest);
      AndLoopSound(AndTree(left, right), rest);
    }
  }

  lemma {:induction false} AndSound(toks: seq<Tok>)
    requires ParseAnd(toks).Ok?
    ensures var (t, rest) := ParseAnd(toks).value; AndLevel(t) && toks == Yield(t) + rest && !Next(rest, AndTok)
    decreases |toks|, 3
  {
    NotSound(toks);
    var (left, rest) := ParseNot(toks).value;
    AndLoopSound(left, rest);
  }

  lemma {:induction false} OrLoopSound(left: Tree, toks: seq<Tok>)
    requires OrLevel(left) && OrLoop(left, toks).Ok?
    ensures var (t, rest) := OrLoop(left, toks).value;
            OrLevel(t) && Yield(left) + toks == Yield(t) + rest
    decreases |toks|, 0
  {
    if Next(toks, OrTok) {
      AndSound(toks[1..]);
      var (right, rest) := ParseAnd(toks[1..]).value;
      Joined(Yield(left), OrTok, toks, Yield(right), rest);
      OrLoopSound(OrTree(left, right), rest);
    }
  }

  lemma {:induction false} OrSound(toks: seq<Tok>)
    requires ParseOr(toks).Ok?
    ensures var (t, rest) := ParseOr(toks).value; OrLevel(t) && toks == Yield(t) + rest
    decreases |toks|, 4
  {
    AndSound(toks);
    var (left, rest) := ParseAnd(toks).value;
    LevelsNest(left);
    OrLoopSound(left, rest);
  }

  // ------------------------------------------- complete: every tree is found

  lemma {:induction false} SegmentsComplete(ss: seq<Segment>, rest: seq<Tok>)
    requires ValidSegments(ss) && !Next(rest, Dot)
    ensures ParseSegments(SegmentToks(ss) + rest) == Ok((ss, rest))
  {
    if ss == [] {
      assert SegmentToks(ss) + rest == rest;
    } else {
      var toks := SegmentToks(ss) + rest;
      assert toks[2..] == SegmentToks(ss[1..]) + rest;
      SegmentsComplete(ss[1..], rest);
      assert ss == [ss[0]] + ss[1..];
    }
  }

  lemma FieldComplete(f: Field, rest: seq<Tok>)
    requires ValidField(f) && !Next(rest, Dot)
    ensures ParseField(FieldToks(f) + rest) == Ok((f, rest))
  {
    SegmentsComplete(f.rest, rest);
    assert (FieldToks(f) + rest)[1..] == SegmentToks(f.rest) + rest;
  }

  lemma {:induction false} ExistsComplete(f: Field, rest: seq<Tok>)
    requires ValidField(f)
    ensures ParseAtom(Yield(ExistsLeaf(f)) + rest) == Ok((ExistsLeaf(f), rest))
  {
    var toks := Yield(ExistsLeaf(f)) + rest;
    FieldComplete(f, [RParen] + rest);
    Bracketed([ExistsTok, LParen], FieldToks(f), RParen, rest);
    assert toks[1..][0] == LParen;
  }

  lemma {:induction false} CompareComplete(f: Field, op: Comparator, l: Literal, rest: seq<Tok>)
    requires ValidField(f)
    ensures ParseAtom(Yield(CompareLeaf(f, op, l)) + rest) == Ok((CompareLeaf(f, op, l), rest))
  {
    var tail := [CompareOp(op), LiteralTok(l)] + rest;
    FieldComplete(f, tail);
    TwoThen(FieldToks(f), CompareOp(op), LiteralTok(l), rest);
    assert tail != [] && tail[0] == CompareOp(op);
  }

  lemma {:induction false} ParenComplete(inner: Tree, rest: seq<Tok>)
    requires ParseOr(Yield(inner) + ([RParen] + rest)) == Ok((inner, [RParen] + rest))
    ensures ParseAtom(Yield(Paren(inner)) + rest) == Ok((Paren(inner), rest))
  {
    Bracketed([LParen], Yield(inner), RParen, rest);
    assert (Yield(Paren(inner)) + rest)[0] == LParen;
  }

  lemma {:induction false} AtomComplete(t: Tree, rest: seq<Tok>)
    requires AtomLevel(t)
    ensures ParseAtom(Yield(t) + rest) == Ok((t, rest))
    decreases t, 1
  {
    match t
    case ExistsLeaf(f) => ExistsComplete(f, rest);
    case CompareLeaf(f, op, l) => CompareComplete(f, op, l, rest);
    case Paren(inner) =>
      OrComplete(inner, [RParen] + rest);
      ParenComplete(inner, rest);
    case TrueLeaf => assert (Yield(t) + rest)[1..] == rest;
    case FalseLeaf => assert (Yield(t) + rest)[1..] == rest;
    case _ =>
  }

  lemma {:induction false} NotComplete(t: Tree, rest: seq<Tok>)
    requires NotLevel(t)
    ensures ParseNot(Yield(t) + rest) == Ok((t, rest))
    decreases t, 2
  {
    if t.NotTree? {
      assert (Yield(t) + rest)[1..] == Yield(t.inner) + rest;
      NotComplete(t.inner, rest);
    } else {
      AtomComplete(t, rest);
      AtomStart(t);
    }
  }

  lemma AtomStart(t: Tree)
    requires AtomLevel(t)
    ensures Yield(t) != [] && Yield(t)[0] != NotTok
  {
  }

  lemma YieldsSplit(t: Tree, op: Tok, rest: seq<Tok>)
    requires (t.AndTree? && op == AndTok) || (t.OrTree? && op == OrTok)
    ensures var tail := [op] + (Yield(t.right) + rest);
            Yield(t) + rest == Yield(t.left) + tail && tail[1..] == Yield(t.right) + rest
  {
    Between(Yield(t.left), op, Yield(t.right), rest);
  }

  /** Parsing a conjunction and whatever follows is continuing the loop from that conjunction. */
  lemma {:induction false} AndReaches(t: Tree, rest: seq<Tok>)
    requires AndLevel(t)
    ensures ParseAnd(Yield(t) + rest) == AndLoop(t, rest)
    decreases t, 3
  {
    if t.AndTree? {
      YieldsSplit(t, AndTok, rest);
      AndReaches(t.left, [AndTok] + (Yield(t.right) + rest));
      NotComplete(t.right, rest);
    } else {
      NotComplete(t, rest);
    }
  }

  lemma {:induction false} OrReaches(t: Tree, rest: seq<Tok>)
    requires OrLevel(t) && !Next(rest, AndTok)
    ensures ParseOr(Yield(t) + rest) == OrLoop(t, rest)
    decreases t, 4
  {
    if t.OrTree? {
      YieldsSplit(t, OrTok, rest);
      OrReaches(t.left, [OrTok] + (Yield(t.right) + rest));
      AndReaches(t.right, rest);
    } else {
      AndReaches(t, rest);
    }
  }

  lemma {:induction false} OrComplete(t: Tree, rest: seq<Tok>)
    requires OrLevel(t) && !Next(rest, AndTok) && !Next(rest, OrTok)
    ensures ParseOr(Yield(t) + rest) == Ok((t, rest))
    decreases t, 5
  {
    OrReaches(t, rest);
  }

  // -------------------------------------------------------- main results

  /** The parser accepts exactly the token sequences the grammar derives, and its tree is the
      one derivation: parsing and yielding undo each other. */
  lemma ParserDecidesGrammar(toks: seq<Tok>, t: Tree)
    ensures ParseTokens(toks) == Ok(t) <==> OrLevel(t) && Yield(t) == toks
  {
    if OrLevel(t) && Yield(t) == toks {
      OrComplete(t, []);
      assert Yield(t) + [] == toks;
    }
    if ParseTokens(toks) == Ok(t) {
      OrSound(toks);
      assert toks == Yield(t) + [];
    }
  }

  /** The grammar is unambiguous. */
  lemma GrammarIsUnambiguous(a: Tree, b: Tree)
    requires OrLevel(a) && OrLevel(b) && Yield(a) == Yield(b)
    ensures a == b
  {
    ParserDecidesGrammar(Yield(a), a);
    ParserDecidesGrammar(Yield(a), b);
  }
}
