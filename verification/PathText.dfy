/** Dotted paths as they are written in an expression, without blanks: which of them the tokenizer
    and parser of crates/actant-cli/src/predicate_parse.rs read back, and what they make of the rest. */
module PathText {
  import opened Common
  import opened Predicates
  import opened Grammar
  import opened NormalForm
  import opened Lexer
  import opened Rendering

  /** Segments, each after its dot. */
  function Dotted(segments: seq<string>): string {
    if segments == [] then "" else "." + (segments[0] + Dotted(segments[1..]))
  }

  lemma {:induction false} JoinIsDotted(segments: seq<string>)
    requires segments != []
    ensures Join(segments) == segments[0] + Dotted(segments[1..])
    decreases |segments|
  {
    if |segments| == 1 {
      assert segments[0] + "" == segments[0];
    } else {
      JoinIsDotted(segments[1..]);
      assert segments[0] + "." + Join(segments[1..]) == segments[0] + ("." + Join(segments[1..]));
    }
  }

  predicate AllSegments(segments: seq<string>) {
    forall i :: 0 <= i < |segments| ==> IsSegmentText(segments[i])
  }

  /** No segment before the last is a numeral. */
  predicate NumeralOnlyLast(segments: seq<string>) {
    forall i :: 0 <= i < |segments| - 1 ==> !IsNumeral(segments[i])
  }

  predicate AllNames(segments: seq<string>) {
    forall i :: 0 <= i < |segments| ==> IsName(segments[i])
  }

  lemma NumeralIsNoName(s: string)
    requires IsNumeral(s)
    ensures !IsName(s) && StartsNumeral(s) && forall i :: 0 <= i < |s| ==> IsNumeralChar(s[i])
  {
  }

  function NamesToks(names: seq<string>): seq<Tok> {
    if names == [] then [] else [Dot, Ident(names[0])] + NamesToks(names[1..])
  }

  function Prepend(toks: seq<Tok>, l: Lexed): Lexed {
    if l.Toks? then Toks(toks + l.toks) else l
  }

  lemma PrependPair(a: Tok, b: Tok, toks: seq<Tok>, l: Lexed)
    ensures Cons(a, Cons(b, Prepend(toks, l))) == Prepend([a, b] + toks, l)
  {
    if l.Toks? { assert [a] + ([b] + (toks + l.toks)) == ([a, b] + toks) + l.toks; }
  }

  // ---------------------------------------------------------------- tokens

  /** Leading names lex one by one, whatever follows their last dot-or-bracket. */
  lemma {:induction false} NamesLex(names: seq<string>, rest: string, num: string -> Option<F64>)
    requires AllNames(names) && rest != "" && !IsWordChar(rest[0])
    ensures Lex(Dotted(names) + rest, num) == Prepend(NamesToks(names), Lex(rest, num))
  {
    if names == [] {
      assert "" + rest == rest;
      if Lex(rest, num).Toks? { assert [] + Lex(rest, num).toks == Lex(rest, num).toks; }
    } else {
      var after := Dotted(names[1..]) + rest;
      assert Dotted(names) + rest == "." + (names[0] + after);
      LexDot(names[0] + after, num);
      assert !IsWordChar(after[0]);
      LexName(names[0], after, num);
      NamesLex(names[1..], rest, num);
      PrependPair(Dot, Ident(names[0]), NamesToks(names[1..]), Lex(rest, num));
    }
  }

  lemma {:induction false} ParenLexes(text: string, num: string -> Option<F64>)
    ensures Lex(['('] + text, num) == Cons(LParen, Lex(text, num))
  {
    assert (['('] + text)[1..] == text;
  }

  lemma {:induction false} KeywordLexes(word: string, t: Tok, text: string, num: string -> Option<F64>)
    requires Keyword(t) == Some(word) && word != "" && !IsDigit(word[0])
    requires forall i :: 0 <= i < |word| ==> IsWordChar(word[i])
    ensures Lex(word + (['('] + text), num) == Cons(t, Cons(LParen, Lex(text, num)))
  {
    var rest := ['('] + text;
    KeywordIsItsWord(t);
    assert !IsWordChar(rest[0]);
    WordLexes(word, rest, num);
    ParenLexes(text, num);
  }

  lemma {:induction false} ExistsLexes(text: string, num: string -> Option<F64>)
    ensures Lex("EXISTS" + (['('] + text), num) == Cons(ExistsTok, Cons(LParen, Lex(text, num)))
  {
    KeywordLexes("EXISTS", ExistsTok, text, num);
  }

  lemma CloseLexes(num: string -> Option<F64>)
    ensures Lex(")", num) == Toks([RParen])
  {
    assert ")"[1..] == "";
    assert Lex("", num) == Toks([]);
  }

  lemma {:induction false} NumeralLexesAny(text: string, rest: string, num: string -> Option<F64>)
    requires text != "" && StartsNumeral(text) && rest != "" && !IsNumeralChar(rest[0])
    ensures var n := NumeralSpan(text + rest);
            n <= |text|
            && Lex(text + rest, num) ==
                 match num(text[..n])
                 case None => Failed(BadNumber(text[..n]))
                 case Some(v) => Cons(NumLit(v), Lex(text[n..] + rest, num))
  {
    SpanStops(text, rest);
    var n := NumeralSpan(text + rest);
    assert (text + rest)[0] == text[0];
    if text[0] == '-' { assert (text + rest)[1] == text[1]; }
    assert (text + rest)[..n] == text[..n] && (text + rest)[n..] == text[n..] + rest;
  }

  lemma {:induction false} SpanStops(text: string, rest: string)
    requires rest != "" && !IsNumeralChar(rest[0])
    ensures NumeralSpan(text + rest) == NumeralSpan(text) <= |text|
    ensures NumeralSpan(text) < |text| ==> !IsNumeralChar(text[NumeralSpan(text)])
  {
    if text == "" {
      assert text + rest == rest;
    } else {
      assert (text + rest)[1..] == text[1..] + rest;
      SpanStops(text[1..], rest);
    }
  }

  // --------------------------------------------------------------- parsing

  function NameSegments(names: seq<string>): (ss: seq<Segment>)
    ensures |ss| == |names| && forall i :: 0 <= i < |ss| ==> ss[i] == Name(names[i])
  {
    if names == [] then [] else [Name(names[0])] + NameSegments(names[1..])
  }

  lemma SegmentToksStep(s: Segment, ss: seq<Segment>)
    ensures SegmentToks([s] + ss) == [Dot, SegmentTok(s)] + SegmentToks(ss)
  {
    assert ([s] + ss)[1..] == ss;
  }

  lemma {:induction false} NameSegmentToks(names: seq<string>, more: seq<Segment>)
    ensures SegmentToks(NameSegments(names) + more) == NamesToks(names) + SegmentToks(more)
  {
    if names == [] {
      assert [] + more == more && [] + SegmentToks(more) == SegmentToks(more);
    } else {
      var rest := NameSegments(names[1..]) + more;
      NameSegmentToks(names[1..], more);
      assert NameSegments(names) + more == [Name(names[0])] + rest;
      SegmentToksStep(Name(names[0]), rest);
      assert [Dot, Ident(names[0])] + (NamesToks(names[1..]) + SegmentToks(more))
          == ([Dot, Ident(names[0])] + NamesToks(names[1..])) + SegmentToks(more);
    }
  }

  /** What the parser makes of EXISTS over a field and whatever follows it. */
  lemma ExistsParses(f: Field, rest: seq<Tok>)
    requires ValidField(f) && !Next(rest, Dot)
    ensures var toks := [ExistsTok, LParen] + (FieldToks(f) + rest);
            if rest == [RParen] then ParsePredicate(toks) == Ok(Exists(FieldText(f)))
            else !Next(rest, RParen) ==> ParsePredicate(toks).Err?
  {
    var toks := [ExistsTok, LParen] + (FieldToks(f) + rest);
    if rest == [RParen] {
      var t := ExistsLeaf(f);
      assert toks == Yield(t) by { assert [ExistsTok, LParen] + (FieldToks(f) + [RParen]) == [ExistsTok, LParen] + FieldToks(f) + [RParen]; }
      LevelsNest(t);
      ParserDecidesGrammar(toks, t);
      assert Build(t) == Exists(FieldText(f));
    } else if !Next(rest, RParen) {
      FieldComplete(f, rest);
      assert toks[1..][1..] == toks[2..] == FieldToks(f) + rest;
      AtomErrorIsFinal(toks);
    }
  }

  lemma AtomErrorIsFinal(toks: seq<Tok>)
    requires ParseAtom(toks).Err? && !Next(toks, NotTok)
    ensures ParsePredicate(toks).Err?
  {
    assert ParseNot(toks).Err?;
    assert ParseAnd(toks).Err?;
    assert ParseOr(toks).Err?;
  }

  lemma {:induction false} BadSegmentFails(names: seq<string>, t: Tok, rest: seq<Tok>)
    requires !IsSegmentTok(t)
    ensures ParseSegments(NamesToks(names) + ([Dot, t] + rest)).Err?
  {
    var toks := NamesToks(names) + ([Dot, t] + rest);
    if names != [] {
      BadSegmentFails(names[1..], t, rest);
      assert toks[2..] == NamesToks(names[1..]) + ([Dot, t] + rest);
    } else {
      assert toks == [Dot, t] + rest;
    }
  }

  lemma BadPathFails(first: string, names: seq<string>, t: Tok, rest: seq<Tok>)
    requires !IsSegmentTok(t)
    ensures ParsePredicate([ExistsTok, LParen] + ([Ident(first)] + (NamesToks(names) + ([Dot, t] + rest)))).Err?
  {
    var field := [Ident(first)] + (NamesToks(names) + ([Dot, t] + rest));
    var toks := [ExistsTok, LParen] + field;
    BadSegmentFails(names, t, rest);
    assert field[1..] == NamesToks(names) + ([Dot, t] + rest);
    assert toks[1..][0] == LParen && toks[2..] == field;
    AtomErrorIsFinal(toks);
  }

  // ----------------------------------------------------------- read back

  /** The text that asks whether a path exists. */
  function ExistsText(path: string): string {
    "EXISTS" + (['('] + (path + ")"))
  }

  lemma ThreeThen(a: Tok, b: Tok, c: Tok, l: Lexed)
    ensures Cons(a, Cons(b, Cons(c, l))) == Prepend([a, b, c], l)
  {
    if l.Toks? { assert [a] + ([b] + ([c] + l.toks)) == [a, b, c] + l.toks; }
  }

  lemma {:induction false} HeadLexes(first: string, after: string, num: string -> Option<F64>)
    requires IsName(first) && after != "" && !IsWordChar(after[0])
    ensures Lex("EXISTS" + (['('] + (first + after)), num) ==
              Prepend([ExistsTok, LParen, Ident(first)], Lex(after, num))
  {
    ExistsLexes(first + after, num);
    LexName(first, after, num);
    ThreeThen(ExistsTok, LParen, Ident(first), Lex(after, num));
  }

  lemma {:induction false} PathLexes(segments: seq<string>, num: string -> Option<F64>)
    requires segments != [] && IsName(segments[0]) && AllSegments(segments[1..])
    ensures Lex(ExistsText(Join(segments)), num) ==
              Prepend([ExistsTok, LParen, Ident(segments[0])], Lex(Dotted(segments[1..]) + ")", num))
  {
    var after := Dotted(segments[1..]) + ")";
    JoinIsDotted(segments);
    assert Join(segments) + ")" == segments[0] + after;
    assert !IsWordChar(after[0]);
    HeadLexes(segments[0], after, num);
  }

  /** The tokens of a path that ends in a numeral, or has none. */
  lemma {:induction false} NamesTailLexes(names: seq<string>, num: string -> Option<F64>)
    requires AllNames(names)
    ensures AllSegments(names) && Lex(Dotted(names) + ")", num) == Toks(SegmentToks(SegmentsFor(names)) + [RParen])
  {
    CloseLexes(num);
    NamesLex(names, ")", num);
    NameSegmentToks(names, []);
    NamesAreSegments(names);
    assert NameSegments(names) + [] == NameSegments(names) && NamesToks(names) + [] == NamesToks(names);
  }

  lemma {:induction false} CleanTailLexes(segments: seq<string>, num: string -> Option<F64>)
    requires AllSegments(segments) && NumeralOnlyLast(segments)
    requires segments != [] && IsNumeral(segments[|segments| - 1]) ==>
               num(segments[|segments| - 1]) == Some(Finite(DigitsValue(segments[|segments| - 1]) as real))
    ensures Lex(Dotted(segments) + ")", num) == Toks(SegmentToks(SegmentsFor(segments)) + [RParen])
  {
    if segments != [] && IsNumeral(segments[|segments| - 1]) {
      var names, last := segments[..|segments| - 1], segments[|segments| - 1];
      assert segments == names + [last];
      LastNumeralLexes(names, last, num);
      SegmentsOfNames(names, last);
    } else {
      NamesTailLexes(segments, num);
    }
  }

  lemma {:induction false} NamesAreSegments(names: seq<string>)
    requires AllNames(names)
    ensures AllSegments(names) && SegmentsFor(names) == NameSegments(names)
  {
  }

  lemma {:induction false} SegmentsOfNames(names: seq<string>, last: string)
    requires AllNames(names) && IsNumeral(last)
    ensures AllSegments(names + [last])
    ensures SegmentsFor(names + [last]) == NameSegments(names) + [Index(DigitsValue(last) as real)]
  {
    NumeralIsNoName(last);
  }

  lemma DotAssociates(a: string, b: string, c: string)
    ensures "." + (a + (b + c)) == ("." + (a + b)) + c
  {
    assert a + (b + c) == (a + b) + c;
  }

  lemma {:induction false} DottedSplits(names: seq<string>, more: seq<string>)
    ensures Dotted(names + more) == Dotted(names) + Dotted(more)
  {
    if names == [] {
      assert [] + more == more && "" + Dotted(more) == Dotted(more);
    } else {
      DottedSplits(names[1..], more);
      assert (names + more)[1..] == names[1..] + more;
      DotAssociates(names[0], Dotted(names[1..]), Dotted(more));
    }
  }

  lemma {:induction false} DotNumeralLexes(last: string, num: string -> Option<F64>)
    requires IsNumeral(last) && num(last).Some?
    ensures Lex("." + (last + ")"), num) == Toks([Dot, NumLit(num(last).value), RParen])
  {
    NumeralIsNoName(last);
    NumeralLexes(last, ")", num);
    CloseLexes(num);
    LexDot(last + ")", num);
    assert [Dot] + ([NumLit(num(last).value)] + [RParen]) == [Dot, NumLit(num(last).value), RParen];
  }

  lemma {:induction false} LastNumeralLexes(names: seq<string>, last: string, num: string -> Option<F64>)
    requires AllNames(names) && IsNumeral(last) && num(last) == Some(Finite(DigitsValue(last) as real))
    ensures Lex(Dotted(names + [last]) + ")", num) ==
              Toks(SegmentToks(NameSegments(names) + [Index(DigitsValue(last) as real)]) + [RParen])
  {
    var n := NumLit(Finite(DigitsValue(last) as real));
    var rest := "." + (last + ")");
    DottedSplits(names, [last]);
    assert Dotted([last]) == "." + (last + "") == "." + last;
    assert Dotted(names + [last]) + ")" == Dotted(names) + rest;
    DotNumeralLexes(last, num);
    NamesLex(names, rest, num);
    NameSegmentToks(names, [Index(DigitsValue(last) as real)]);
    assert SegmentToks([Index(DigitsValue(last) as real)]) == [Dot, n] + [];
    assert NamesToks(names) + [Dot, n, RParen] == (NamesToks(names) + [Dot, n]) + [RParen];
  }

  lemma {:induction false} TailOfPath(path: string)
    requires IsPath(path)
    ensures var segments := Split(path);
            && AllSegments(segments[1..]) && FieldFor(path) == Field(segments[0], SegmentsFor(segments[1..]))
            && (NumeralOnlyLast(segments) ==> NumeralOnlyLast(segments[1..]))
  {
  }

  /** A path with no numeral before its last segment is read back. */
  lemma {:induction false} CleanPathReadsBack(path: string, num: string -> Option<F64>)
    requires IsPath(path) && NumeralOnlyLast(Split(path)) && ReadsLast(path, num)
    ensures ParseText(ExistsText(path), num) == Expression(Exists(path))
  {
    var first, tail := Split(path)[0], Split(path)[1..];
    var f := FieldFor(path);
    JoinUndoesSplit(path);
    TailOfPath(path);
    PathLexes(Split(path), num);
    CleanTailLexes(tail, num);
    FieldForPath(path);
    FieldTokens(f);
    ExistsParses(f, [RParen]);
  }

  lemma FieldTokens(f: Field)
    ensures [ExistsTok, LParen, Ident(f.first)] + (SegmentToks(f.rest) + [RParen])
         == [ExistsTok, LParen] + (FieldToks(f) + [RParen])
  {
  }

  /** If the last segment is a numeral, the platform reads it as itself. */
  predicate ReadsLast(path: string, num: string -> Option<F64>) {
    var last := Split(path)[|Split(path)| - 1];
    IsNumeral(last) ==> num(last) == Some(Finite(DigitsValue(last) as real))
  }

  // ------------------------------------------------------------ swallowed

  /** The first numeral before the last segment. */
  function FirstNumeral(segments: seq<string>): (k: nat)
    requires !NumeralOnlyLast(segments)
    ensures k < |segments| - 1 && IsNumeral(segments[k])
    ensures forall i :: 0 <= i < k ==> !IsNumeral(segments[i])
  {
    if IsNumeral(segments[0]) then 0
    else
      assert forall i :: 1 <= i < |segments| ==> segments[i] == segments[1..][i - 1];
      1 + FirstNumeral(segments[1..])
  }

  /** The text the tokenizer reads that numeral from: everything after the dot before it. */
  function Swallowed(segments: seq<string>): string
    requires !NumeralOnlyLast(segments)
  {
    Join(segments[FirstNumeral(segments)..])
  }

  lemma {:induction false} JoinChars(segments: seq<string>)
    requires segments != [] && AllSegments(segments)
    ensures forall i :: 0 <= i < |Join(segments)| ==> Join(segments)[i] == '.' || IsWordChar(Join(segments)[i])
    decreases |segments|
  {
    if |segments| > 1 {
      JoinChars(segments[1..]);
      var rest := Join(segments[1..]);
      forall i | 0 <= i < |Join(segments)| ensures Join(segments)[i] == '.' || IsWordChar(Join(segments)[i]) {
        if i > |segments[0]| { assert Join(segments)[i] == rest[i - |segments[0]| - 1]; }
      }
    }
  }

  lemma {:induction false} WordComesFirst(text: string, num: string -> Option<F64>)
    requires text != "" && (IsLetter(text[0]) || text[0] == '_') && Lex(text, num).Toks?
    ensures var toks := Lex(text, num).toks; !Next(toks, Dot) && !Next(toks, RParen)
  {
    var word := text[..WordSpan(text)];
    assert LexOne(text, num) == One(WordTok(word), |word|);
    assert WordTok(word) != Dot && WordTok(word) != RParen;
  }

  /** What is left when the numeral stops short begins with a word, or does not lex. */
  lemma {:induction false} LeftoverIsNoBracket(segments: seq<string>, num: string -> Option<F64>)
    requires segments != [] && AllSegments(segments) && NumeralSpan(Join(segments)) < |Join(segments)|
    ensures var s := Join(segments);
            var rest := Lex(s[NumeralSpan(s)..] + ")", num);
            rest.Toks? ==> !Next(rest.toks, Dot) && !Next(rest.toks, RParen)
  {
    var s := Join(segments);
    var n := NumeralSpan(s);
    JoinChars(segments);
    SpanStops(s, ")");
    assert (s[n..] + ")")[0] == s[n];
    if Lex(s[n..] + ")", num).Toks? { WordComesFirst(s[n..] + ")", num); }
  }

  /** The number token that a text begins with, and the tokens after it. */
  function NumberFirst(s: string, num: string -> Option<F64>): Lexed {
    var n := NumeralSpan(s);
    match num(s[..n])
    case None => Failed(BadNumber(s[..n]))
    case Some(v) => Cons(NumLit(v), Lex(s[n..] + ")", num))
  }

  lemma {:induction false} DottedBeforeJoin(names: seq<string>, more: seq<string>)
    requires more != []
    ensures Dotted(names + more) + ")" == Dotted(names) + ("." + (Join(more) + ")"))
  {
    JoinIsDotted(more);
    DottedSplits(names, more);
    assert Dotted(more) == "." + Join(more);
    assert (Dotted(names) + ("." + Join(more))) + ")" == Dotted(names) + ("." + (Join(more) + ")"));
  }

  lemma {:induction false} SwallowedLexes(names: seq<string>, more: seq<string>, num: string -> Option<F64>)
    requires AllNames(names) && more != [] && IsNumeral(more[0])
    ensures Lex(Dotted(names + more) + ")", num) == Prepend(NamesToks(names), Cons(Dot, NumberFirst(Join(more), num)))
  {
    var s := Join(more);
    DottedBeforeJoin(names, more);
    NamesLex(names, "." + (s + ")"), num);
    LexDot(s + ")", num);
    NumeralIsNoName(more[0]);
    JoinIsDotted(more);
    assert s[0] == more[0][0];
    NumeralLexesAny(s, ")", num);
    SpanStops(s, ")");
  }

  /** Whether the numeral takes in the whole rest of the path and reads as an array index. */
  predicate ReadsAsIndex(text: string, num: string -> Option<F64>) {
    NumeralSpan(text) == |text| && num(text).Some? && num(text).value.Finite? && IsIndex(num(text).value.r)
  }

  function Misread(segments: seq<string>, num: string -> Option<F64>): string
    requires !NumeralOnlyLast(segments) && ReadsAsIndex(Swallowed(segments), num)
  {
    Join(segments[..FirstNumeral(segments)] + [IndexText(num(Swallowed(segments)).value.r)])
  }

  /** What the parser makes of names, then one number token, then the rest. */
  /** A numeral that reads as an index ends the path. */
  lemma {:induction false} IndexTailParses(first: string, names: seq<string>, v: F64, rest: seq<Tok>)
    requires IsSegmentTok(NumLit(v)) && !Next(rest, Dot)
    ensures var toks := [ExistsTok, LParen, Ident(first)] + (NamesToks(names) + [Dot, NumLit(v)] + rest);
            var f := Field(first, NameSegments(names) + [Index(v.r)]);
            && toks == [ExistsTok, LParen] + (FieldToks(f) + rest)
            && FieldText(f) == Join([first] + names + [IndexText(v.r)])
  {
    var f := Field(first, NameSegments(names) + [Index(v.r)]);
    NameSegmentToks(names, [Index(v.r)]);
    assert SegmentToks([Index(v.r)]) == [Dot, NumLit(v)] + [];
    assert FieldToks(f) + rest == [Ident(first)] + (NamesToks(names) + [Dot, NumLit(v)] + rest);
    SegmentTextsAre(f.rest);
    assert [first] + SegmentTexts(f.rest) == [first] + names + [IndexText(v.r)];
  }

  lemma {:induction false} NumberTailParses(first: string, names: seq<string>, v: F64, rest: seq<Tok>)
    requires !Next(rest, Dot) && (rest == [RParen] || !Next(rest, RParen))
    ensures var toks := [ExistsTok, LParen, Ident(first)] + (NamesToks(names) + [Dot, NumLit(v)] + rest);
            if rest == [RParen] && IsSegmentTok(NumLit(v))
            then ParsePredicate(toks) == Ok(Exists(Join([first] + names + [IndexText(v.r)])))
            else ParsePredicate(toks).Err?
  {
    if IsSegmentTok(NumLit(v)) {
      IndexTailParses(first, names, v, rest);
      ExistsParses(Field(first, NameSegments(names) + [Index(v.r)]), rest);
    } else {
      var toks := [ExistsTok, LParen, Ident(first)] + (NamesToks(names) + [Dot, NumLit(v)] + rest);
      assert toks == [ExistsTok, LParen] + ([Ident(first)] + (NamesToks(names) + ([Dot, NumLit(v)] + rest)));
      BadPathFails(first, names, NumLit(v), rest);
    }
  }

  lemma {:induction false} NumberPathParses(first: string, names: seq<string>, v: F64, rest: Lexed)
    requires rest.Toks? ==> !Next(rest.toks, Dot) && (rest.toks == [RParen] || !Next(rest.toks, RParen))
    ensures var lexed := Prepend([ExistsTok, LParen, Ident(first)],
                                 Prepend(NamesToks(names), Cons(Dot, Cons(NumLit(v), rest))));
            if rest == Toks([RParen]) && IsSegmentTok(NumLit(v))
            then ParseLexed(lexed) == Expression(Exists(Join([first] + names + [IndexText(v.r)])))
            else !ParseLexed(lexed).Expression?
  {
    if rest.Toks? {
      var head, ns := [ExistsTok, LParen, Ident(first)], NamesToks(names);
      assert ns + ([Dot] + ([NumLit(v)] + rest.toks)) == ns + [Dot, NumLit(v)] + rest.toks;
      NumberTailParses(first, names, v, rest.toks);
    }
  }

  lemma {:induction false} NumeralNotFirst(segments: seq<string>)
    requires segments != [] && IsName(segments[0]) && !NumeralOnlyLast(segments)
    requires forall i :: 1 <= i < |segments| ==> IsSegmentText(segments[i])
    ensures var k := FirstNumeral(segments);
            k > 0 && AllNames(segments[1..k]) && AllSegments(segments[1..]) && AllSegments(segments[k..])
  {
    if FirstNumeral(segments) == 0 { NumeralIsNoName(segments[0]); }
  }

  lemma {:induction false} PathAtNumeral(path: string)
    requires IsPath(path) && !NumeralOnlyLast(Split(path))
    ensures var segments := Split(path);
            var k := FirstNumeral(segments);
            && k > 0 && IsName(segments[0]) && AllNames(segments[1..k])
            && AllSegments(segments[1..]) && AllSegments(segments[k..])
            && segments[1..] == segments[1..k] + segments[k..]
            && [segments[0]] + segments[1..k] == segments[..k]
  {
    var segments := Split(path);
    NumeralNotFirst(segments);
    var k := FirstNumeral(segments);
    assert segments[1..] == segments[1..k] + segments[k..];
    assert [segments[0]] + segments[1..k] == segments[..k];
  }

  lemma {:induction false} LeftoverOfNumeral(segments: seq<string>, num: string -> Option<F64>)
    requires segments != [] && AllSegments(segments)
    ensures var s := Join(segments);
            var rest := Lex(s[NumeralSpan(s)..] + ")", num);
            && (rest.Toks? ==> !Next(rest.toks, Dot) && (rest.toks == [RParen] || !Next(rest.toks, RParen)))
            && (rest == Toks([RParen]) <==> NumeralSpan(s) == |s|)
  {
    var s := Join(segments);
    var n := NumeralSpan(s);
    if n == |s| {
      CloseLexes(num);
      assert s[n..] + ")" == ")";
    } else {
      LeftoverIsNoBracket(segments, num);
    }
  }

  lemma {:induction false} SwallowedPathLexes(path: string, num: string -> Option<F64>)
    requires IsPath(path) && !NumeralOnlyLast(Split(path))
    ensures var segments := Split(path);
            var names := segments[1..FirstNumeral(segments)];
            Lex(ExistsText(path), num) ==
              Prepend([ExistsTok, LParen, Ident(segments[0])],
                      Prepend(NamesToks(names), Cons(Dot, NumberFirst(Swallowed(segments), num))))
  {
    var segments := Split(path);
    var k := FirstNumeral(segments);
    JoinUndoesSplit(path);
    PathAtNumeral(path);
    PathLexes(segments, num);
    SwallowedLexes(segments[1..k], segments[k..], num);
  }

  lemma {:induction false} NumberFirstParses(first: string, names: seq<string>, segments: seq<string>, num: string -> Option<F64>)
    requires segments != [] && AllSegments(segments)
    ensures var s := Join(segments);
            var parsed := ParseLexed(Prepend([ExistsTok, LParen, Ident(first)],
                                             Prepend(NamesToks(names), Cons(Dot, NumberFirst(s, num)))));
            if ReadsAsIndex(s, num) then parsed == Expression(Exists(Join([first] + names + [IndexText(num(s).value.r)])))
            else !parsed.Expression?
  {
    var s := Join(segments);
    var n := NumeralSpan(s);
    LeftoverOfNumeral(segments, num);
    SpanStops(s, ")");
    assert n == |s| ==> s[..n] == s;
    if num(s[..n]).Some? {
      NumberPathParses(first, names, num(s[..n]).value, Lex(s[n..] + ")", num));
    }
  }

  /** A numeral before the last segment takes in what follows it as far as numerals reach. The text
      is then accepted exactly when that is all of it and reads as an index, and it is accepted as
      the shorter path that ends in that index. */
  lemma {:induction false} SwallowedPathReadsAs(path: string, num: string -> Option<F64>)
    requires IsPath(path) && !NumeralOnlyLast(Split(path))
    ensures ParseText(ExistsText(path), num).Expression? <==> ReadsAsIndex(Swallowed(Split(path)), num)
    ensures ReadsAsIndex(Swallowed(Split(path)), num) ==>
              ParseText(ExistsText(path), num) == Expression(Exists(Misread(Split(path), num)))
  {
    var segments := Split(path);
    var k := FirstNumeral(segments);
    PathAtNumeral(path);
    SwallowedPathLexes(path, num);
    NumberFirstParses(segments[0], segments[1..k], segments[k..], num);
  }

  /** Written without blanks, a path is read back exactly when no segment before the last is a
      numeral. */
  lemma {:induction false} PathReadsBackExactlyWhen(path: string, num: string -> Option<F64>)
    requires IsPath(path) && ReadsLast(path, num)
    ensures ParseText(ExistsText(path), num) == Expression(Exists(path)) <==> NumeralOnlyLast(Split(path))
  {
    if NumeralOnlyLast(Split(path)) {
      CleanPathReadsBack(path, num);
    } else {
      SwallowedPathReadsAs(path, num);
      if ReadsAsIndex(Swallowed(Split(path)), num) { MisreadIsShorter(path, num); }
    }
  }

  lemma {:induction false} MisreadIsShorter(path: string, num: string -> Option<F64>)
    requires IsPath(path) && !NumeralOnlyLast(Split(path)) && ReadsAsIndex(Swallowed(Split(path)), num)
    ensures |Split(Misread(Split(path), num))| < |Split(path)|
  {
    var segments := Split(path);
    var k := FirstNumeral(segments);
    var index := IndexText(num(Swallowed(segments)).value.r);
    IndexTextIsNumeral(num(Swallowed(segments)).value.r);
    var read := segments[..k] + [index];
    forall i | 0 <= i < |read| ensures NoDot(read[i]) {
      assert i < k ==> IsSegmentText(segments[i]);
    }
    SplitUndoesJoin(read);
  }
}
