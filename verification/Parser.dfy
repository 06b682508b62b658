/** The recursive-descent parser object of crates/actant-cli/src/predicate_parse.rs. */
module Parser {
  import opened Common
  import opened Predicates
  import opened Grammar
  import opened NormalForm

  class PredicateParser {
    const toks: seq<Tok>
    var pos: nat

    ghost predicate Valid()
      reads this
    {
      pos <= |toks|
    }

    /** The tokens still to be read. */
    function Rest(): seq<Tok>
      requires Valid()
      reads this
    {
      toks[pos..]
    }

    constructor (toks: seq<Tok>)
      ensures Valid() && this.toks == toks && Rest() == toks
    {
      this.toks := toks;
      pos := 0;
    }

    /** `r` and the tokens left are what deriving a tree from `before` gives. */
    ghost predicate Derives(r: Result<Predicate>, before: Parse<Tree>)
      reads this
    {
      && Valid()
      && match before
         case Err(e) => r == Err(e)
         case Ok((t, rest)) => r == Ok(Build(t)) && Rest() == rest
    }

    method Peek() returns (t: Option<Tok>)
      requires Valid()
      ensures t == if Rest() == [] then None else Some(Rest()[0])
    {
      if pos < |toks| { return Some(toks[pos]); }
      return None;
    }

    method Bump() returns (t: Option<Tok>)
      requires Valid()
      modifies this`pos
      ensures Valid() && old(pos) <= pos
      ensures old(Rest()) == [] ==> t == None && pos == old(pos)
      ensures old(Rest()) != [] ==> t == Some(old(Rest())[0]) && Rest() == old(Rest())[1..]
    {
      if pos < |toks| {
        t := Some(toks[pos]);
        pos := pos + 1;
      } else {
        t := None;
      }
    }

    method ParseOr() returns (r: Result<Predicate>)
      requires Valid()
      modifies this`pos
      ensures Derives(r, Grammar.ParseOr(old(Rest())))
      decreases |Rest()|, 4
    {
      var first := ParseAnd();
      if first.Err? { return first; }
      var left := first.value;
      ghost var tree, after := Grammar.ParseAnd(old(Rest())).value.0, Rest();
      while Next(Rest(), OrTok)
        invariant Valid() && |Rest()| < |old(Rest())|
        invariant left == Build(tree)
        invariant OrLoop(tree, Rest()) == Grammar.ParseOr(old(Rest()))
        decreases |Rest()|
      {
        ghost var here := Rest();
        var _ := Bump();
        var right := ParseAnd();
        if right.Err? { return right; }
        tree := OrTree(tree, Grammar.ParseAnd(here[1..]).value.0);
        left := match left
          case Or(xs) => Or(xs + [right.value])
          case other => Or([other, right.value]);
      }
      return Ok(left);
    }

    method ParseAnd() returns (r: Result<Predicate>)
      requires Valid()
      modifies this`pos
      ensures Derives(r, Grammar.ParseAnd(old(Rest())))
      decreases |Rest()|, 3
    {
      var first := ParseNot();
      if first.Err? { return first; }
      var left := first.value;
      ghost var tree := Grammar.ParseNot(old(Rest())).value.0;
      while Next(Rest(), AndTok)
        invariant Valid() && |Rest()| < |old(Rest())|
        invariant left == Build(tree)
        invariant AndLoop(tree, Rest()) == Grammar.ParseAnd(old(Rest()))
        decreases |Rest()|
      {
        ghost var here := Rest();
        var _ := Bump();
        var right := ParseNot();
        if right.Err? { return right; }
        tree := AndTree(tree, Grammar.ParseNot(here[1..]).value.0);
        left := match left
          case And(xs) => And(xs + [right.value])
          case other => And([other, right.value]);
      }
      return Ok(left);
    }

    method ParseNot() returns (r: Result<Predicate>)
      requires Valid()
      modifies this`pos
      ensures Derives(r, Grammar.ParseNot(old(Rest())))
      decreases |Rest()|, 2
    {
      var t := Peek();
      if t == Some(NotTok) {
        var _ := Bump();
        var inner := ParseNot();
        if inner.Err? { return inner; }
        return Ok(Not(inner.value));
      }
      r := ParseAtom();
    }

    method ParseAtom() returns (r: Result<Predicate>)
      requires Valid()
      modifies this`pos
      ensures Derives(r, Grammar.ParseAtom(old(Rest())))
      decreases |Rest()|, 1
    {
      var t := Peek();
      if t.None? { return Err(UnexpectedEnd); }
      match t.value {
        case LParen =>
          var _ := Bump();
          var inner := ParseOr();
          if inner.Err? { return inner; }
          var close := Bump();
          if close != Some(RParen) { return Err(ExpectedCloseParen); }
          return inner;
        case ExistsTok =>
          r := ParseExists();
        case TrueTok =>
          var _ := Bump();
          return Ok(True);
        case FalseTok =>
          var _ := Bump();
          return Ok(False);
        case Ident(_) =>
          r := ParseComparison();
        case other => return Err(UnexpectedToken(other));
      }
    }

    /** The arm for EXISTS. */
    method ParseExists() returns (r: Result<Predicate>)
      requires Valid() && Next(Rest(), ExistsTok)
      modifies this`pos
      ensures Derives(r, Grammar.ParseAtom(old(Rest())))
    {
      var _ := Bump();
      var open := Bump();
      if open != Some(LParen) { return Err(ExpectedOpenParenAfterExists); }
      assert Rest() == old(Rest())[2..];
      var field := ParseField();
      if field.Err? { return Err(field.error); }
      var close := Bump();
      if close != Some(RParen) { return Err(ExpectedCloseParenAfterExists); }
      return Ok(Exists(field.value));
    }

    /** The arm for a name: a path, an operator and a literal. */
    method ParseComparison() returns (r: Result<Predicate>)
      requires Valid() && Rest() != [] && Rest()[0].Ident?
      modifies this`pos
      ensures Derives(r, Grammar.ParseAtom(old(Rest())))
    {
      var field := ParseField();
      if field.Err? { return Err(field.error); }
      var op := Bump();
      if op.None? { return Err(ExpectedOperator); }
      var value := ParseLiteral();
      if value.Err? { return Err(value.error); }
      match op.value {
        case CompareOp(c) => return Ok(Compare(c, field.value, value.value));
        case other => return Err(ExpectedComparison(other));
      }
    }

    method ParseField() returns (r: Result<string>)
      requires Valid()
      modifies this`pos
      ensures Valid()
      ensures match Grammar.ParseField(old(Rest()))
              case Err(e) => r == Err(e)
              case Ok((f, rest)) => r == Ok(FieldText(f)) && Rest() == rest
    {
      var first := Bump();
      if first.None? || !first.value.Ident? { return Err(ExpectedIdentifier); }
      var path := first.value.name;
      ghost var begin, segments := old(Rest())[1..], [];
      assert Join([path]) == path;
      SegmentedStart(begin);
      while Next(Rest(), Dot)
        invariant Valid()
        invariant Segmented(begin, segments, Rest())
        invariant path == Join([first.value.name] + SegmentTexts(segments))
        decreases |Rest()|
      {
        ghost var here := Rest();
        var _ := Bump();
        var seg := Bump();
        if seg.None? || !IsSegmentTok(seg.value) { return Err(ExpectedSegment); }
        assert here[1..][1..] == here[2..];
        SegmentedStep(begin, segments, here);
        var text := SegmentText(SegmentOf(seg.value));
        JoinAppends([first.value.name] + SegmentTexts(segments), text);
        TextsAppend(segments, SegmentOf(seg.value));
        assert [first.value.name] + (SegmentTexts(segments) + [text]) == ([first.value.name] + SegmentTexts(segments)) + [text];
        segments := segments + [SegmentOf(seg.value)];
        path := path + "." + text;
      }
      assert segments + [] == segments;
      return Ok(path);
    }

    method ParseLiteral() returns (r: Result<Value>)
      requires Valid()
      modifies this`pos
      ensures Valid()
      ensures match Grammar.ParseLiteral(old(Rest()))
              case Err(e) => r == Err(e)
              case Ok((l, rest)) => r == Ok(LiteralValue(l)) && Rest() == rest
    {
      var t := Bump();
      if t.None? { return Err(ExpectedLiteral); }
      match t.value {
        case StrLit(s) => return Ok(Str(s));
        case NumLit(n) => return Ok(if n.Finite? then Num(Float(n.r)) else Null);
        case TrueTok => return Ok(Bool(true));
        case FalseTok => return Ok(Bool(false));
        case NullTok => return Ok(Null);
        case _ => return Err(ExpectedLiteral);
      }
    }
  }

  /** Reading segments from `begin` reaches `rest` after `segments`, and then goes on from there. */
  ghost predicate Segmented(begin: seq<Tok>, segments: seq<Segment>, rest: seq<Tok>) {
    match ParseSegments(rest)
    case Err(e) => ParseSegments(begin) == Err(e)
    case Ok((more, after)) => ParseSegments(begin) == Ok((segments + more, after))
  }

  lemma SegmentedStart(begin: seq<Tok>)
    ensures Segmented(begin, [], begin)
  {
    if ParseSegments(begin).Ok? {
      var more := ParseSegments(begin).value.0;
      assert [] + more == more;
    }
  }

  lemma SegmentedStep(begin: seq<Tok>, segments: seq<Segment>, here: seq<Tok>)
    requires Segmented(begin, segments, here)
    requires Next(here, Dot) && |here| >= 2 && IsSegmentTok(here[1])
    ensures Segmented(begin, segments + [SegmentOf(here[1])], here[2..])
  {
    if ParseSegments(here[2..]).Ok? {
      var more := ParseSegments(here[2..]).value.0;
      assert segments + ([SegmentOf(here[1])] + more) == (segments + [SegmentOf(here[1])]) + more;
    }
  }

  lemma {:induction false} JoinAppends(segments: seq<string>, last: string)
    requires segments != []
    ensures Join(segments + [last]) == Join(segments) + "." + last
    decreases |segments|
  {
    if |segments| == 1 {
      assert (segments + [last])[1..] == [last];
    } else {
      assert (segments + [last])[1..] == segments[1..] + [last];
      JoinAppends(segments[1..], last);
    }
  }

  lemma {:induction false} TextsAppend(ss: seq<Segment>, s: Segment)
    ensures SegmentTexts(ss + [s]) == SegmentTexts(ss) + [SegmentText(s)]
  {
    if ss != [] {
      assert (ss + [s])[1..] == ss[1..] + [s];
      TextsAppend(ss[1..], s);
    }
  }

  /** Parses a whole token sequence. */
  method ParseAll(toks: seq<Tok>) returns (r: Result<Predicate>)
    ensures r == ParsePredicate(toks)
  {
    var p := new PredicateParser(toks);
    r := p.ParseOr();
    if r.Err? { return; }
    if p.pos != |p.toks| { return Err(TrailingTokens(p.pos)); }
  }
}
