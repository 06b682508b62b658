/** Predicate source text: quoting, writing tokens out, and the round trip through tokenizer and
    parser (crates/actant-cli/src/predicate_parse.rs). */
module Rendering {
  import opened Common
  import opened Predicates
  import opened Grammar
  import opened NormalForm
  import opened Lexer
  import Parser

  // ------------------------------------------------------------- quoting

  function Escape(s: string, quote: char): string {
    if s == "" then ""
    else (if s[0] == quote || s[0] == '\\' then ['\\', s[0]] else [s[0]]) + Escape(s[1..], quote)
  }

  function Quoted(s: string, quote: char): string {
    [quote] + Escape(s, quote) + [quote]
  }

  lemma {:induction false} UnescapeUndoesEscape(s: string, quote: char)
    requires IsQuote(quote)
    ensures UnescapeOnce(Escape(s, quote)) == s
  {
    if s != "" {
      UnescapeUndoesEscape(s[1..], quote);
      var rest := Escape(s[1..], quote);
      if s[0] == quote || s[0] == '\\' {
        assert (['\\', s[0]] + rest)[2..] == rest;
      } else {
        assert ([s[0]] + rest)[1..] == rest;
        if rest == "" { EscapeKeepsEmptiness(s[1..], quote); }
      }
    }
  }

  lemma EscapeKeepsEmptiness(s: string, quote: char)
    ensures Escape(s, quote) == "" ==> s == ""
  {
  }

  lemma {:induction false} ScanStopsAtClosingQuote(s: string, quote: char, rest: string)
    requires IsQuote(quote)
    ensures ScanEnd(Escape(s, quote) + [quote] + rest, quote) == |Escape(s, quote)|
  {
    var text := Escape(s, quote) + [quote] + rest;
    if s != "" {
      ScanStopsAtClosingQuote(s[1..], quote, rest);
      var after := Escape(s[1..], quote) + [quote] + rest;
      if s[0] == quote || s[0] == '\\' {
        assert text == ['\\', s[0]] + after;
        assert text[2..] == after;
      } else {
        assert text == [s[0]] + after;
        assert text[1..] == after;
      }
    }
  }

  lemma {:induction false} LiteralLexes(raw: string, quote: char, rest: string, num: string -> Option<F64>)
    requires IsQuote(quote) && ScanEnd(raw + [quote] + rest, quote) == |raw|
    ensures LexOne([quote] + (raw + [quote] + rest), num) == One(StrLit(Unescape(raw)), |raw| + 2)
    ensures ([quote] + (raw + [quote] + rest))[|raw| + 2..] == rest
  {
    var text := [quote] + (raw + [quote] + rest);
    assert text[0] == quote && text[1..] == raw + [quote] + rest;
    assert text[1..1 + |raw|] == raw;
  }

  /** Whatever the text holds, quoting it gives one string token with exactly that text. */
  lemma {:induction false} QuotedStringIsOneToken(s: string, quote: char, rest: string, num: string -> Option<F64>)
    requires IsQuote(quote)
    ensures Lex(Quoted(s, quote) + rest, num) == Cons(StrLit(s), Lex(rest, num))
  {
    var raw := Escape(s, quote);
    ScanStopsAtClosingQuote(s, quote, rest);
    LiteralLexes(raw, quote, rest, num);
    UnescapeIsOnePass(raw);
    UnescapeUndoesEscape(s, quote);
    assert Quoted(s, quote) + rest == [quote] + (raw + [quote] + rest);
  }

  // ------------------------------------------------------------- writing

  function RenderOp(op: Comparator): string {
    match op
    case Eq => "=="
    case Ne => "!="
    case Lt => "<"
    case Le => "<="
    case Gt => ">"
    case Ge => ">="
  }

  function Render(t: Tok, show: F64 -> string): string {
    match t
    case Ident(name) => name
    case StrLit(s) => Quoted(s, '"')
    case NumLit(n) => show(n)
    case CompareOp(op) => RenderOp(op)
    case LParen => "("
    case RParen => ")"
    case Dot => "."
    case Comma => ","
    case TrueTok => "TRUE"
    case FalseTok => "FALSE"
    case NullTok => "NULL"
    case AndTok => "AND"
    case OrTok => "OR"
    case NotTok => "NOT"
    case ExistsTok => "EXISTS"
  }

  /** Each token followed by a blank. */
  function RenderAll(toks: seq<Tok>, show: F64 -> string): string {
    if toks == [] then "" else Render(toks[0], show) + (" " + RenderAll(toks[1..], show))
  }

  /** `show` writes `n` as one numeral that the platform reads back as `n`. */
  predicate Shows(n: F64, show: F64 -> string, num: string -> Option<F64>) {
    var text := show(n);
    && text != "" && StartsNumeral(text)
    && (forall i :: 0 <= i < |text| ==> IsNumeralChar(text[i]))
    && num(text) == Some(n)
  }

  predicate Writable(t: Tok, show: F64 -> string, num: string -> Option<F64>) {
    (t.Ident? ==> IsName(t.name)) && (t.NumLit? ==> Shows(t.n, show, num))
  }

  lemma {:induction false} NumeralSpanTo(s: string, rest: string)
    requires forall i :: 0 <= i < |s| ==> IsNumeralChar(s[i])
    requires rest == "" || !IsNumeralChar(rest[0])
    ensures NumeralSpan(s + rest) == |s|
  {
    var text := s + rest;
    if s == "" {
      assert text == rest;
    } else {
      assert text[1..] == s[1..] + rest;
      NumeralSpanTo(s[1..], rest);
    }
  }

  lemma {:induction false} WordSpanTo(s: string, rest: string)
    requires forall i :: 0 <= i < |s| ==> IsWordChar(s[i])
    requires rest == "" || !IsWordChar(rest[0])
    ensures WordSpan(s + rest) == |s|
  {
    var text := s + rest;
    if s == "" {
      assert text == rest;
    } else {
      assert text[1..] == s[1..] + rest;
      WordSpanTo(s[1..], rest);
    }
  }

  lemma {:induction false} WordLexes(word: string, rest: string, num: string -> Option<F64>)
    requires word != "" && !IsDigit(word[0]) && forall i :: 0 <= i < |word| ==> IsWordChar(word[i])
    requires rest == "" || !IsWordChar(rest[0])
    ensures Lex(word + rest, num) == Cons(WordTok(word), Lex(rest, num))
  {
    WordSpanTo(word, rest);
    assert (word + rest)[..|word|] == word && (word + rest)[|word|..] == rest;
  }

  lemma {:induction false} NumeralLexes(text: string, rest: string, num: string -> Option<F64>)
    requires text != "" && StartsNumeral(text) && forall i :: 0 <= i < |text| ==> IsNumeralChar(text[i])
    requires rest == "" || !IsNumeralChar(rest[0])
    requires num(text).Some?
    ensures Lex(text + rest, num) == Cons(NumLit(num(text).value), Lex(rest, num))
  {
    NumeralSpanTo(text, rest);
    assert (text + rest)[0] == text[0];
    if text[0] == '-' { assert (text + rest)[1] == text[1]; }
    assert (text + rest)[..|text|] == text && (text + rest)[|text|..] == rest;
  }

  lemma {:induction false} UpperOfUpper(s: string)
    requires forall i :: 0 <= i < |s| ==> 'A' <= s[i] <= 'Z'
    ensures Upper(s) == s
  {
    if s != "" { UpperOfUpper(s[1..]); }
  }

  function Keyword(t: Tok): Option<string> {
    match t
    case TrueTok => Some("TRUE")
    case FalseTok => Some("FALSE")
    case NullTok => Some("NULL")
    case AndTok => Some("AND")
    case OrTok => Some("OR")
    case NotTok => Some("NOT")
    case ExistsTok => Some("EXISTS")
    case _ => None
  }

  lemma {:induction false} KeywordIsItsWord(t: Tok)
    requires Keyword(t).Some?
    ensures WordTok(Keyword(t).value) == t
  {
    UpperOfUpper(Keyword(t).value);
  }

  lemma {:induction false} KeywordLexes(t: Tok, rest: string, num: string -> Option<F64>)
    requires Keyword(t).Some?
    ensures Lex(Keyword(t).value + (" " + rest), num) == Cons(t, Lex(" " + rest, num))
  {
    KeywordIsItsWord(t);
    WordLexes(Keyword(t).value, " " + rest, num);
  }

  /** A numeral is a digit, or a minus sign and a digit, and all the numeral characters that follow;
      it is one token if the platform reads it as a number, and an error otherwise. */
  lemma {:induction false} SignedNumeralLexes(sign: string, digits: string, rest: string, num: string -> Option<F64>)
    requires sign == "" || sign == "-"
    requires digits != "" && IsDigit(digits[0]) && forall i :: 0 <= i < |digits| ==> IsNumeralChar(digits[i])
    requires rest == "" || !IsNumeralChar(rest[0])
    ensures var text := sign + digits;
            Lex(text + rest, num) ==
              if num(text).Some? then Cons(NumLit(num(text).value), Lex(rest, num)) else Failed(BadNumber(text))
  {
    var text := sign + digits;
    assert text[|sign|] == digits[0];
    if sign == "" { assert text == digits; }
    NumeralSpanTo(text, rest);
    assert (text + rest)[..|text|] == text && (text + rest)[|text|..] == rest;
  }

  /** Blanks, tabs and line ends of every kind are skipped. */
  lemma {:induction false} WhitespaceIsSkipped(c: char, rest: string, num: string -> Option<F64>)
    requires c in {' ', '\t', '\n', 11 as char, 12 as char, '\r'}
    ensures Lex([c] + rest, num) == Lex(rest, num)
  {
    assert ([c] + rest)[1..] == rest;
  }

  /** A character that starts no token, whatever follows it. */
  predicate StartsNothing(c: char) {
    && !IsSpace(c) && !IsQuote(c) && !IsDigit(c) && !IsLetter(c) && c != '_'
    && c !in {'(', ')', '.', ',', '=', '!', '<', '>', '-'}
  }

  /** An equals sign or an exclamation mark that no equals sign follows, a minus sign that no digit
      follows, and every character that starts no token are errors. */
  lemma {:induction false} StrayCharactersFail(c: char, rest: string, num: string -> Option<F64>)
    requires || StartsNothing(c)
             || ((c == '=' || c == '!') && (rest == "" || rest[0] != '='))
             || (c == '-' && (rest == "" || !IsDigit(rest[0])))
    ensures Lex([c] + rest, num) == Failed(UnexpectedCharacter(c))
  {
    var s := [c] + rest;
    assert |s| > 1 ==> s[1] == rest[0];
    assert LexOne(s, num) == Bad(UnexpectedCharacter(c));
  }

  lemma {:induction false} SymbolLexes(t: Tok, rest: string, show: F64 -> string, num: string -> Option<F64>)
    requires t.CompareOp? || t.LParen? || t.RParen? || t.Dot? || t.Comma?
    ensures Lex(Render(t, show) + (" " + rest), num) == Cons(t, Lex(" " + rest, num))
  {
    var s := Render(t, show);
    var text := s + (" " + rest);
    assert text[|s|..] == " " + rest;
    if t.CompareOp? && |s| == 1 {
      assert text[1] == ' ';
    } else if t.CompareOp? {
      assert text[0] == s[0] && text[1] == '=';
    }
  }

  lemma LexDropsBlank(rest: string, num: string -> Option<F64>)
    ensures Lex([' '] + rest, num) == Lex(rest, num)
  {
    assert ([' '] + rest)[1..] == rest;
  }

  lemma {:induction false} RenderThenLex(t: Tok, rest: string, show: F64 -> string, num: string -> Option<F64>)
    requires Writable(t, show, num)
    ensures Lex(Render(t, show) + (" " + rest), num) == Cons(t, Lex(rest, num))
  {
    LexDropsBlank(rest, num);
    if t.StrLit? {
      QuotedStringIsOneToken(t.s, '"', " " + rest, num);
    } else if t.Ident? {
      IdentIsNoKeyword(t.name);
      WordLexes(t.name, " " + rest, num);
    } else if t.NumLit? {
      NumeralLexes(show(t.n), " " + rest, num);
    } else if Keyword(t).Some? {
      KeywordLexes(t, rest, num);
    } else {
      SymbolLexes(t, rest, show, num);
    }
  }

  lemma {:induction false} RenderAllUnfolds(toks: seq<Tok>, show: F64 -> string)
    requires toks != []
    ensures RenderAll(toks, show) == Render(toks[0], show) + (" " + RenderAll(toks[1..], show))
  {
  }

  lemma HeadThenTail(toks: seq<Tok>)
    requires toks != []
    ensures Cons(toks[0], Toks(toks[1..])) == Toks(toks)
  {
    assert [toks[0]] + toks[1..] == toks;
  }

  /** Tokenizing the written tokens gives those tokens back. */
  lemma {:induction false} RenderAllThenLex(toks: seq<Tok>, show: F64 -> string, num: string -> Option<F64>)
    requires forall i :: 0 <= i < |toks| ==> Writable(toks[i], show, num)
    ensures Lex(RenderAll(toks, show), num) == Toks(toks)
  {
    if toks != [] {
      var rest := RenderAll(toks[1..], show);
      RenderAllUnfolds(toks, show);
      RenderThenLex(toks[0], rest, show, num);
      RenderAllThenLex(toks[1..], show, num);
      HeadThenTail(toks);
    }
  }

  // ---------------------------------------------------------- end to end

  datatype Parsed = Expression(p: Predicate) | LexProblem(l: LexError) | ParseProblem(e: ParseError)

  function ParseLexed(lexed: Lexed): Parsed {
    match lexed
    case Failed(l) => LexProblem(l)
    case Toks(toks) =>
      match ParsePredicate(toks)
      case Err(e) => ParseProblem(e)
      case Ok(p) => Expression(p)
  }

  /** Tokenize, then parse. */
  function ParseText(text: string, num: string -> Option<F64>): Parsed {
    ParseLexed(Lex(text, num))
  }

  method Parse(text: string, num: string -> Option<F64>) returns (r: Parsed)
    ensures r == ParseText(text, num)
  {
    var lexed := Tokenize(text, num);
    if lexed.Failed? { return LexProblem(lexed.error); }
    var parsed := Parser.ParseAll(lexed.toks);
    r := match parsed case Ok(p) => Expression(p) case Err(e) => ParseProblem(e);
  }

  lemma {:induction false} TokensAreLexable(s: string, num: string -> Option<F64>)
    requires Lex(s, num).Toks?
    ensures LexableToks(Lex(s, num).toks)
    decreases |s|
  {
    if s != "" {
      match LexOne(s, num) {
        case Blank => TokensAreLexable(s[1..], num);
        case Bad(_) =>
        case One(t, n) =>
          TokensAreLexable(s[n..], num);
          if t.Ident? { WordIsName(s); }
      }
    }
  }

  lemma {:induction false} WordSpanIsWord(s: string)
    ensures forall i :: 0 <= i < WordSpan(s) ==> IsWordChar(s[i])
  {
    if s != "" && IsWordChar(s[0]) { WordSpanIsWord(s[1..]); }
  }

  lemma IdentIsNoKeyword(word: string)
    ensures WordTok(word).Ident? <==> Upper(word) !in KEYWORDS
    ensures WordTok(word).Ident? ==> WordTok(word) == Ident(word)
  {
  }

  lemma WordIsName(s: string)
    requires s != "" && (IsLetter(s[0]) || s[0] == '_') && WordTok(s[..WordSpan(s)]).Ident?
    ensures IsName(WordTok(s[..WordSpan(s)]).name)
  {
    WordSpanIsWord(s);
    IdentIsNoKeyword(s[..WordSpan(s)]);
  }

  /** Whatever the text, a successful parse is in normal form. */
  lemma ParsedTextIsNormal(text: string, num: string -> Option<F64>)
    requires ParseText(text, num).Expression?
    ensures Normal(ParseText(text, num).p)
  {
    TokensAreLexable(text, num);
    ParserImageIsNormalForms(ParseText(text, num).p);
  }

  /** Writing a normal form out as text and parsing that text gives it back. */
  lemma WriteThenParseText(p: Predicate, show: F64 -> string, num: string -> Option<F64>)
    requires Normal(p)
    requires forall n :: NumLit(n) in Print(p) ==> Shows(n, show, num)
    ensures ParseText(RenderAll(Print(p), show), num) == Expression(p)
  {
    PrintThenParse(p);
    TreeIsFaithful(p);
    NamedYieldIsLexable(TreeFor(p));
    RenderAllThenLex(Print(p), show, num);
  }

  lemma LexDot(rest: string, num: string -> Option<F64>)
    ensures Lex("." + rest, num) == Cons(Dot, Lex(rest, num))
  {
    assert ("." + rest)[1..] == rest;
  }

  lemma {:induction false} LexName(word: string, rest: string, num: string -> Option<F64>)
    requires IsName(word) && (rest == "" || !IsWordChar(rest[0]))
    ensures Lex(word + rest, num) == Cons(Ident(word), Lex(rest, num))
  {
    IdentIsNoKeyword(word);
    WordLexes(word, rest, num);
  }

  /** However it was written, an equality with a number never holds of an integer field. */
  lemma ParsedEqualityMissesIntegers(text: string, num: string -> Option<F64>, root: Value)
    requires ParseText(text, num).Expression? && ParseText(text, num).p.Compare?
    requires ParseText(text, num).p.op == Eq && ParseText(text, num).p.value.Num?
    ensures var p := ParseText(text, num).p;
            Evaluate(p, root) <==>
              Resolve(root, p.field).Some? && Resolve(root, p.field).value == p.value && p.value.n.Float?
  {
    ParsedTextIsNormal(text, num);
  }
}
