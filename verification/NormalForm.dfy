/** From parse trees to predicates and back: the left-flattening construction of
    crates/actant-cli/src/predicate_parse.rs, and a printer that inverts it. */
module NormalForm {
  import opened Common
  import opened Predicates
  import opened Grammar

  // ------------------------------------------------------- construction

  const MAX_INDEX := INDEX_SPAN - 1

  function Decimal(n: nat): string {
    if n < 10 then [n as char + '0'] else Decimal(n / 10) + [(n % 10) as char + '0']
  }

  /** `(n as u64).to_string()`: the cast saturates. */
  function IndexText(r: real): string {
    var n := r.Floor;
    Decimal(if n < 0 then 0 else if n > MAX_INDEX then MAX_INDEX else n)
  }

  function SegmentText(s: Segment): string {
    match s
    case Name(n) => n
    case Index(r) => IndexText(r)
  }

  function SegmentTexts(ss: seq<Segment>): seq<string> {
    if ss == [] then [] else [SegmentText(ss[0])] + SegmentTexts(ss[1..])
  }

  function Join(segments: seq<string>): string
    requires segments != []
  {
    if |segments| == 1 then segments[0] else segments[0] + "." + Join(segments[1..])
  }

  function FieldText(f: Field): string {
    Join([f.first] + SegmentTexts(f.rest))
  }

  function LiteralValue(l: Literal): Value {
    match l
    case Text(s) => Str(s)
    case Numeral(n) => if n.Finite? then Num(Float(n.r)) else Null
    case Truth(b) => Bool(b)
    case NullLiteral => Null
  }

  function PushAnd(left: Predicate, right: Predicate): Predicate {
    if left.And? then And(left.parts + [right]) else And([left, right])
  }

  function PushOr(left: Predicate, right: Predicate): Predicate {
    if left.Or? then Or(left.parts + [right]) else Or([left, right])
  }

  /** The predicate the parser builds while it derives `t`. */
  function Build(t: Tree): Predicate {
    match t
    case TrueLeaf => True
    case FalseLeaf => False
    case ExistsLeaf(f) => Exists(FieldText(f))
    case CompareLeaf(f, op, l) => Compare(op, FieldText(f), LiteralValue(l))
    case Paren(inner) => Build(inner)
    case NotTree(inner) => Not(Build(inner))
    case AndTree(l, r) => PushAnd(Build(l), Build(r))
    case OrTree(l, r) => PushOr(Build(l), Build(r))
  }

  /** The meaning of a tree as the grammar reads it, two operands at a time. */
  predicate TreeHolds(t: Tree, root: Value) {
    match t
    case TrueLeaf => true
    case FalseLeaf => false
    case ExistsLeaf(f) => Evaluate(Exists(FieldText(f)), root)
    case CompareLeaf(f, op, l) => Evaluate(Compare(op, FieldText(f), LiteralValue(l)), root)
    case Paren(inner) => TreeHolds(inner, root)
    case NotTree(inner) => !TreeHolds(inner, root)
    case AndTree(l, r) => TreeHolds(l, root) && TreeHolds(r, root)
    case OrTree(l, r) => TreeHolds(l, root) || TreeHolds(r, root)
  }

  lemma PushAndHolds(left: Predicate, right: Predicate, root: Value)
    ensures Evaluate(PushAnd(left, right), root) <==> Evaluate(left, root) && Evaluate(right, root)
  {
    var parts := PushAnd(left, right).parts;
    assert forall x :: x in parts <==> (if left.And? then x in left.parts else x == left) || x == right;
  }

  lemma PushOrHolds(left: Predicate, right: Predicate, root: Value)
    ensures Evaluate(PushOr(left, right), root) <==> Evaluate(left, root) || Evaluate(right, root)
  {
    var parts := PushOr(left, right).parts;
    assert forall x :: x in parts <==> (if left.Or? then x in left.parts else x == left) || x == right;
  }

  /** Left-flattening never changes what an expression means. */
  lemma {:induction false} FlatteningPreservesMeaning(t: Tree, root: Value)
    ensures Evaluate(Build(t), root) <==> TreeHolds(t, root)
  {
    match t
    case Paren(inner) => FlatteningPreservesMeaning(inner, root);
    case NotTree(inner) => FlatteningPreservesMeaning(inner, root);
    case AndTree(l, r) =>
      FlatteningPreservesMeaning(l, root);
      FlatteningPreservesMeaning(r, root);
      PushAndHolds(Build(l), Build(r), root);
    case OrTree(l, r) =>
      FlatteningPreservesMeaning(l, root);
      FlatteningPreservesMeaning(r, root);
      PushOrHolds(Build(l), Build(r), root);
    case _ =>
  }

  // ------------------------------------------------------- field paths

  predicate IsLetter(c: char) {
    'a' <= c <= 'z' || 'A' <= c <= 'Z'
  }

  predicate IsWordChar(c: char) {
    IsLetter(c) || IsDigit(c) || c == '_'
  }

  function Upper(s: string): string {
    if s == "" then "" else [if 'a' <= s[0] <= 'z' then s[0] - 'a' + 'A' else s[0]] + Upper(s[1..])
  }

  const KEYWORDS := {"AND", "OR", "NOT", "TRUE", "FALSE", "NULL", "EXISTS"}

  /** What the tokenizer reads as one identifier. */
  predicate IsName(s: string) {
    && s != "" && !IsDigit(s[0]) && (forall i :: 0 <= i < |s| ==> IsWordChar(s[i]))
    && Upper(s) !in KEYWORDS
  }

  /** The decimal numeral of a machine word, without leading zeros. */
  predicate IsNumeral(s: string) {
    s != "" && AllDigits(s) && (s[0] == '0' ==> |s| == 1) && DigitsValue(s) <= MAX_INDEX
  }

  predicate NamedField(f: Field) {
    && ValidField(f) && IsName(f.first)
    && (forall i :: 0 <= i < |f.rest| && f.rest[i].Name? ==> IsName(f.rest[i].name))
  }

  predicate IsSegmentText(s: string) {
    IsName(s) || IsNumeral(s)
  }

  /** A path some field expression denotes. */
  predicate IsPath(path: string) {
    var segments := Split(path);
    IsName(segments[0]) && forall i :: 1 <= i < |segments| ==> IsSegmentText(segments[i])
  }

  function SegmentFor(s: string): Segment
    requires IsSegmentText(s)
  {
    if IsName(s) then Name(s) else Index(DigitsValue(s) as real)
  }

  function SegmentsFor(texts: seq<string>): (ss: seq<Segment>)
    requires forall i :: 0 <= i < |texts| ==> IsSegmentText(texts[i])
    ensures |ss| == |texts| && forall i :: 0 <= i < |ss| ==> ss[i] == SegmentFor(texts[i])
  {
    if texts == [] then [] else [SegmentFor(texts[0])] + SegmentsFor(texts[1..])
  }

  function FieldFor(path: string): Field
    requires IsPath(path)
  {
    Field(Split(path)[0], SegmentsFor(Split(path)[1..]))
  }

  predicate NoDot(s: string) {
    forall i :: 0 <= i < |s| ==> s[i] != '.'
  }

  lemma {:induction false} JoinUndoesSplit(path: string)
    ensures Join(Split(path)) == path
  {
    if path != "" {
      JoinUndoesSplit(path[1..]);
      var r := Split(path[1..]);
      assert path == [path[0]] + path[1..];
      if path[0] == '.' {
        assert ([""] + r)[1..] == r;
      } else if |r| > 1 {
        assert ([[path[0]] + r[0]] + r[1..])[1..] == r[1..];
      }
    }
  }

  lemma {:induction false} SplitOfOne(s: string)
    requires NoDot(s)
    ensures Split(s) == [s]
  {
    if s != "" {
      SplitOfOne(s[1..]);
      assert s == [s[0]] + s[1..];
    }
  }

  lemma {:induction false} SplitAtDot(s: string, rest: string)
    requires NoDot(s)
    ensures Split(s + "." + rest) == [s] + Split(rest)
  {
    if s == "" {
      assert (s + "." + rest)[1..] == rest;
    } else {
      SplitAtDot(s[1..], rest);
      assert (s + "." + rest)[1..] == s[1..] + "." + rest;
      assert s == [s[0]] + s[1..];
    }
  }

  lemma {:induction false} SplitUndoesJoin(segments: seq<string>)
    requires segments != [] && forall i :: 0 <= i < |segments| ==> NoDot(segments[i])
    ensures Split(Join(segments)) == segments
    decreases |segments|
  {
    if |segments| == 1 {
      SplitOfOne(segments[0]);
    } else {
      SplitUndoesJoin(segments[1..]);
      SplitAtDot(segments[0], Join(segments[1..]));
    }
  }

  lemma {:induction false} DecimalIsNumeral(n: nat)
    ensures var s := Decimal(n);
            s != "" && AllDigits(s) && (s[0] == '0' ==> |s| == 1) && DigitsValue(s) == n
            && (s[0] == '0' <==> n == 0)
  {
    if n >= 10 {
      DecimalIsNumeral(n / 10);
      var s := Decimal(n);
      assert s[..|s| - 1] == Decimal(n / 10);
    }
  }

  /** One segment of a path: a name picks that field of an object, and a numeral the element of an
      array at that position, counted from zero; anything else finds nothing. */
  lemma {:induction false} SegmentsPick(root: Value, name: string, k: nat)
    requires name != "" && NoDot(name) && k < INDEX_SPAN
    ensures root.Obj? ==> Resolve(root, name) == if name in root.fields then Some(root.fields[name]) else None
    ensures root.Arr? ==> Resolve(root, Decimal(k)) == if k < |root.items| then Some(root.items[k]) else None
    ensures root.Arr? && !IsDigit(name[|name| - 1]) ==> Resolve(root, name) == None
    ensures !root.Obj? && !root.Arr? ==> Resolve(root, name) == None
  {
    DecimalIsNumeral(k);
    SplitOfOne(name);
    SplitOfOne(Decimal(k));
    assert [name][1..] == [] && [Decimal(k)][1..] == [];
    assert Walk(root, [name]) == Step(root, name) && Walk(root, [Decimal(k)]) == Step(root, Decimal(k));
  }

  lemma {:induction false} NumeralIsDecimal(s: string)
    requires s != "" && AllDigits(s) && (s[0] == '0' ==> |s| == 1)
    ensures Decimal(DigitsValue(s)) == s
    ensures s[0] != '0' ==> DigitsValue(s) > 0
  {
    var init, last := s[..|s| - 1], s[|s| - 1];
    assert s == init + [last];
    if init != "" {
      NumeralIsDecimal(init);
      assert DigitsValue(s) / 10 == DigitsValue(init);
      assert DigitsValue(s) % 10 == last as int - '0' as int;
    } else {
      assert DigitsValue(init) == 0;
    }
  }

  lemma IndexTextIsNumeral(r: real)
    requires IsIndex(r)
    ensures IsNumeral(IndexText(r))
  {
    DecimalIsNumeral(if r.Floor > MAX_INDEX then MAX_INDEX else r.Floor);
  }

  lemma {:induction false} SegmentTextsAre(ss: seq<Segment>)
    ensures |SegmentTexts(ss)| == |ss|
    ensures forall i :: 0 <= i < |ss| ==> SegmentTexts(ss)[i] == SegmentText(ss[i])
  {
    if ss != [] { SegmentTextsAre(ss[1..]); }
  }

  /** Every field expression denotes a path in the printer's range. */
  lemma FieldTextIsPath(f: Field)
    requires NamedField(f)
    ensures IsPath(FieldText(f))
  {
    SegmentTextsAre(f.rest);
    var segments := [f.first] + SegmentTexts(f.rest);
    forall i | 0 <= i < |segments|
      ensures i > 0 ==> IsSegmentText(segments[i])
      ensures NoDot(segments[i])
    {
      if i > 0 && f.rest[i - 1].Index? { IndexTextIsNumeral(f.rest[i - 1].r); }
    }
    SplitUndoesJoin(segments);
  }

  lemma SegmentForText(s: string)
    requires IsSegmentText(s)
    ensures SegmentText(SegmentFor(s)) == s
    ensures SegmentFor(s).Index? ==> IsIndex(SegmentFor(s).r)
    ensures SegmentFor(s).Name? ==> IsName(SegmentFor(s).name)
  {
    if !IsName(s) { NumeralIsDecimal(s); }
  }

  /** The printed field denotes the path it was printed from. */
  lemma FieldForPath(path: string)
    requires IsPath(path)
    ensures FieldText(FieldFor(path)) == path && NamedField(FieldFor(path))
  {
    var f, segments := FieldFor(path), Split(path);
    SegmentTextsAre(f.rest);
    forall i | 0 <= i < |f.rest|
      ensures SegmentText(f.rest[i]) == segments[i + 1]
      ensures f.rest[i].Index? ==> IsIndex(f.rest[i].r)
      ensures f.rest[i].Name? ==> IsName(f.rest[i].name)
    {
      assert IsSegmentText(segments[i + 1]);
      SegmentForText(segments[i + 1]);
    }
    assert [f.first] + SegmentTexts(f.rest) == segments;
    JoinUndoesSplit(path);
  }

  // ----------------------------------------------------- normal forms

  predicate IsLiteralValue(v: Value) {
    v.Null? || v.Bool? || v.Str? || (v.Num? && v.n.Float?)
  }

  /** And and Or have at least two parts, the first not of the same kind; fields and literals
      are ones an expression can name. */
  predicate Normal(p: Predicate) {
    match p
    case True => true
    case False => true
    case Compare(_, field, value) => IsPath(field) && IsLiteralValue(value)
    case Exists(field) => IsPath(field)
    case And(xs) => |xs| >= 2 && !xs[0].And? && forall x :: x in xs ==> Normal(x)
    case Or(xs) => |xs| >= 2 && !xs[0].Or? && forall x :: x in xs ==> Normal(x)
    case Not(inner) => Normal(inner)
  }

  /** All identifiers of the tree are ones the tokenizer can produce. */
  predicate Named(t: Tree) {
    match t
    case ExistsLeaf(f) => NamedField(f)
    case CompareLeaf(f, _, _) => NamedField(f)
    case Paren(inner) => Named(inner)
    case NotTree(inner) => Named(inner)
    case AndTree(l, r) => Named(l) && Named(r)
    case OrTree(l, r) => Named(l) && Named(r)
    case _ => true
  }

  /** Everything the parser builds is in normal form. */
  lemma {:induction false} BuildIsNormal(t: Tree)
    requires Named(t)
    ensures Normal(Build(t))
  {
    match t
    case ExistsLeaf(f) => FieldTextIsPath(f);
    case CompareLeaf(f, _, _) => FieldTextIsPath(f);
    case Paren(inner) => BuildIsNormal(inner);
    case NotTree(inner) => BuildIsNormal(inner);
    case AndTree(l, r) =>
      BuildIsNormal(l);
      BuildIsNormal(r);
    case OrTree(l, r) =>
      BuildIsNormal(l);
      BuildIsNormal(r);
    case _ =>
  }

  // -------------------------------------------------------------- printer

  function LiteralFor(v: Value): Literal
    requires IsLiteralValue(v)
  {
    match v
    case Null => NullLiteral
    case Bool(b) => Truth(b)
    case Str(s) => Literal.Text(s)
    case Num(n) => Numeral(Finite(n.r))
  }

  /** An operand: compound predicates go in parentheses. */
  function Operand(p: Predicate): Tree
    requires Normal(p)
    decreases p, 2
  {
    if p.And? || p.Or? then Paren(TreeFor(p)) else TreeFor(p)
  }

  function TreeFor(p: Predicate): Tree
    requires Normal(p)
    decreases p, 1
  {
    match p
    case True => TrueLeaf
    case False => FalseLeaf
    case Compare(op, field, value) => CompareLeaf(FieldFor(field), op, LiteralFor(value))
    case Exists(field) => ExistsLeaf(FieldFor(field))
    case And(xs) => AndChain(xs)
    case Or(xs) => OrChain(xs)
    case Not(inner) => NotTree(Operand(inner))
  }

  function AndChain(xs: seq<Predicate>): Tree
    requires xs != [] && forall x :: x in xs ==> Normal(x)
    decreases xs, 0
  {
    var last := Operand(xs[|xs| - 1]);
    if |xs| == 1 then last else AndTree(AndChain(xs[..|xs| - 1]), last)
  }

  function OrChain(xs: seq<Predicate>): Tree
    requires xs != [] && forall x :: x in xs ==> Normal(x)
    decreases xs, 0
  {
    var last := Operand(xs[|xs| - 1]);
    if |xs| == 1 then last else OrTree(OrChain(xs[..|xs| - 1]), last)
  }

  /** The tokens of a predicate in normal form. */
  function Print(p: Predicate): seq<Tok>
    requires Normal(p)
  {
    Yield(TreeFor(p))
  }

  lemma {:induction false} OperandIsFaithful(p: Predicate)
    requires Normal(p)
    ensures NotLevel(Operand(p)) && Named(Operand(p)) && Build(Operand(p)) == p
    decreases p, 2
  {
    TreeIsFaithful(p);
  }

  lemma {:induction false} TreeIsFaithful(p: Predicate)
    requires Normal(p)
    ensures OrLevel(TreeFor(p)) && Named(TreeFor(p)) && Build(TreeFor(p)) == p
    ensures !p.And? && !p.Or? ==> NotLevel(TreeFor(p))
    decreases p, 1
  {
    LevelsNest(TreeFor(p));
    match p
    case Compare(op, field, value) => FieldForPath(field);
    case Exists(field) => FieldForPath(field);
    case And(xs) => AndChainIsFaithful(xs);
    case Or(xs) => OrChainIsFaithful(xs);
    case Not(inner) => OperandIsFaithful(inner);
    case _ =>
  }

  lemma {:induction false} AndJoins(left: Tree, right: Tree, xs: seq<Predicate>, x: Predicate)
    requires xs != [] && !xs[0].And?
    requires AndLevel(left) && Named(left) && Build(left) == if |xs| == 1 then xs[0] else And(xs)
    requires NotLevel(right) && Named(right) && Build(right) == x
    ensures AndLevel(AndTree(left, right)) && Named(AndTree(left, right))
    ensures Build(AndTree(left, right)) == And(xs + [x])
  {
    LevelsNest(right);
    if |xs| == 1 { assert xs + [x] == [xs[0], x]; }
  }

  lemma {:induction false} AndChainIsFaithful(xs: seq<Predicate>)
    requires xs != [] && !xs[0].And? && forall x :: x in xs ==> Normal(x)
    ensures AndLevel(AndChain(xs)) && Named(AndChain(xs))
    ensures Build(AndChain(xs)) == if |xs| == 1 then xs[0] else And(xs)
    decreases xs, 0
  {
    var init, last := xs[..|xs| - 1], xs[|xs| - 1];
    assert last in xs;
    OperandIsFaithful(last);
    if init == [] {
      LevelsNest(Operand(last));
    } else {
      AndChainIsFaithful(init);
      AndJoins(AndChain(init), Operand(last), init, last);
      assert xs == init + [last];
    }
  }

  lemma {:induction false} OrJoins(left: Tree, right: Tree, xs: seq<Predicate>, x: Predicate)
    requires xs != [] && !xs[0].Or?
    requires OrLevel(left) && Named(left) && Build(left) == if |xs| == 1 then xs[0] else Or(xs)
    requires NotLevel(right) && Named(right) && Build(right) == x
    ensures OrLevel(OrTree(left, right)) && Named(OrTree(left, right))
    ensures Build(OrTree(left, right)) == Or(xs + [x])
  {
    LevelsNest(right);
    if |xs| == 1 { assert xs + [x] == [xs[0], x]; }
  }

  lemma {:induction false} OrChainIsFaithful(xs: seq<Predicate>)
    requires xs != [] && !xs[0].Or? && forall x :: x in xs ==> Normal(x)
    ensures OrLevel(OrChain(xs)) && Named(OrChain(xs))
    ensures Build(OrChain(xs)) == if |xs| == 1 then xs[0] else Or(xs)
    decreases xs, 0
  {
    var init, last := xs[..|xs| - 1], xs[|xs| - 1];
    assert last in xs;
    OperandIsFaithful(last);
    if init == [] {
      LevelsNest(Operand(last));
    } else {
      OrChainIsFaithful(init);
      OrJoins(OrChain(init), Operand(last), init, last);
      assert xs == init + [last];
    }
  }

  // -------------------------------------------------------- main results

  /** What parsing a token sequence gives: the predicate, or the first error. */
  function ParsePredicate(toks: seq<Tok>): Result<Predicate> {
    match ParseTokens(toks)
    case Err(e) => Err(e)
    case Ok(t) => Ok(Build(t))
  }

  /** Parsing the printed tokens of a normal-form predicate gives that predicate back. */
  lemma PrintThenParse(p: Predicate)
    requires Normal(p)
    ensures ParsePredicate(Print(p)) == Ok(p)
  {
    TreeIsFaithful(p);
    ParserDecidesGrammar(Print(p), TreeFor(p));
  }

  predicate LexableToks(toks: seq<Tok>) {
    forall i :: 0 <= i < |toks| && toks[i].Ident? ==> IsName(toks[i].name)
  }

  lemma {:induction false} SegmentsNamed(ss: seq<Segment>)
    requires LexableToks(SegmentToks(ss))
    ensures forall i :: 0 <= i < |ss| && ss[i].Name? ==> IsName(ss[i].name)
  {
    if ss != [] {
      var toks := SegmentToks(ss);
      assert toks[1] == SegmentTok(ss[0]);
      assert toks[2..] == SegmentToks(ss[1..]);
      assert LexableToks(toks[2..]);
      SegmentsNamed(ss[1..]);
    }
  }

  lemma LexablePart(a: seq<Tok>, b: seq<Tok>)
    requires LexableToks(a + b)
    ensures LexableToks(a) && LexableToks(b)
  {
    forall i | 0 <= i < |a| ensures a[i] == (a + b)[i] {}
    forall i | 0 <= i < |b| ensures b[i] == (a + b)[|a| + i] {}
  }

  lemma FieldNamed(f: Field)
    requires ValidField(f) && LexableToks(FieldToks(f))
    ensures NamedField(f)
  {
    assert FieldToks(f)[0] == Ident(f.first);
    LexablePart([Ident(f.first)], SegmentToks(f.rest));
    SegmentsNamed(f.rest);
  }

  lemma {:induction false} TreeNamed(t: Tree)
    requires OrLevel(t) && LexableToks(Yield(t))
    ensures Named(t)
  {
    LevelsNest(t);
    match t
    case ExistsLeaf(f) =>
      LexablePart([ExistsTok, LParen] + FieldToks(f), [RParen]);
      LexablePart([ExistsTok, LParen], FieldToks(f));
      FieldNamed(f);
    case CompareLeaf(f, op, l) =>
      LexablePart(FieldToks(f), [CompareOp(op), LiteralTok(l)]);
      FieldNamed(f);
    case Paren(inner) =>
      LexablePart([LParen] + Yield(inner), [RParen]);
      LexablePart([LParen], Yield(inner));
      TreeNamed(inner);
    case NotTree(inner) =>
      LexablePart([NotTok], Yield(inner));
      LevelsNest(inner);
      TreeNamed(inner);
    case AndTree(l, r) =>
      LexablePart(Yield(l) + [AndTok], Yield(r));
      LexablePart(Yield(l), [AndTok]);
      LevelsNest(l);
      LevelsNest(r);
      TreeNamed(l);
      TreeNamed(r);
    case OrTree(l, r) =>
      LexablePart(Yield(l) + [OrTok], Yield(r));
      LexablePart(Yield(l), [OrTok]);
      LevelsNest(l);
      LevelsNest(r);
      TreeNamed(l);
      TreeNamed(r);
    case _ =>
  }

  /** The predicates the parser can return on tokenizer output are exactly the normal forms. */
  lemma ParserImageIsNormalForms(p: Predicate)
    ensures Normal(p) <==> exists toks :: LexableToks(toks) && ParsePredicate(toks) == Ok(p)
  {
    if Normal(p) {
      PrintThenParse(p);
      TreeIsFaithful(p);
      NamedYieldIsLexable(TreeFor(p));
    }
    forall toks | LexableToks(toks) && ParsePredicate(toks) == Ok(p) ensures Normal(p) {
      var t := ParseTokens(toks).value;
      ParserDecidesGrammar(toks, t);
      TreeNamed(t);
      BuildIsNormal(t);
    }
  }

  lemma {:induction false} NamedYieldIsLexable(t: Tree)
    requires Named(t)
    ensures LexableToks(Yield(t))
  {
    match t
    case ExistsLeaf(f) => SegmentToksLexable(f.rest);
    case CompareLeaf(f, _, _) => SegmentToksLexable(f.rest);
    case Paren(inner) => NamedYieldIsLexable(inner);
    case NotTree(inner) => NamedYieldIsLexable(inner);
    case AndTree(l, r) =>
      NamedYieldIsLexable(l);
      NamedYieldIsLexable(r);
    case OrTree(l, r) =>
      NamedYieldIsLexable(l);
      NamedYieldIsLexable(r);
    case _ =>
  }

  lemma {:induction false} SegmentToksLexable(ss: seq<Segment>)
    requires forall i :: 0 <= i < |ss| && ss[i].Name? ==> IsName(ss[i].name)
    ensures LexableToks(SegmentToks(ss))
  {
    if ss != [] { SegmentToksLexable(ss[1..]); }
  }
}
