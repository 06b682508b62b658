/** The tokenizer of crates/actant-cli/src/predicate_parse.rs on ASCII text. How the platform
    reads a numeral as f64 is the parameter `num`. */
module Lexer {
  import opened Common
  import opened Predicates
  import opened Grammar
  import opened NormalForm

  datatype LexError = UnterminatedString | BadNumber(text: string) | UnexpectedCharacter(c: char)

  datatype Lexed = Toks(toks: seq<Tok>) | Failed(error: LexError)

  // ---------------------------------------------------------- unescaping

  /** `str::replace` for a two-character pattern and a one-character replacement. */
  function Replace(s: string, a: char, b: char, out: char): string {
    if |s| < 2 then s
    else if s[0] == a && s[1] == b then [out] + Replace(s[2..], a, b, out)
    else [s[0]] + Replace(s[1..], a, b, out)
  }

  /** The three passes of the tokenizer, in its order. */
  function Unescape(raw: string): string {
    Replace(Replace(Replace(raw, '\\', '"', '"'), '\\', '\'', '\''), '\\', '\\', '\\')
  }

  predicate IsQuote(c: char) {
    c == '"' || c == '\''
  }

  /** One pass, left to right: a backslash before a quote or a backslash escapes it. */
  function UnescapeOnce(raw: string): string {
    if |raw| < 2 then raw
    else if raw[0] == '\\' && (IsQuote(raw[1]) || raw[1] == '\\') then [raw[1]] + UnescapeOnce(raw[2..])
    else [raw[0]] + UnescapeOnce(raw[1..])
  }

  /** `t` after a run of `n` backslashes. */
  function AfterSlashes(n: nat, t: string): (s: string)
    ensures |s| == n + |t|
  {
    if n == 0 then t else ['\\'] + AfterSlashes(n - 1, t)
  }

  lemma ReplaceMatch(rest: string, a: char, b: char, out: char)
    ensures Replace([a] + ([b] + rest), a, b, out) == [out] + Replace(rest, a, b, out)
  {
    assert ([a] + ([b] + rest))[2..] == rest;
  }

  lemma ReplaceMiss(c: char, rest: string, a: char, b: char, out: char)
    requires c == a && rest != "" ==> rest[0] != b
    ensures Replace([c] + rest, a, b, out) == [c] + Replace(rest, a, b, out)
  {
    assert ([c] + rest)[1..] == rest;
  }

  /** Replacing an escaped quote shortens the run before that quote by one. */
  lemma {:induction false} ReplaceQuoteAtRun(n: nat, c: char, t: string, q: char)
    requires c != '\\' && q != '\\'
    ensures Replace(AfterSlashes(n, [c] + t), '\\', q, q)
         == AfterSlashes(if n > 0 && c == q then n - 1 else n, [c] + Replace(t, '\\', q, q))
  {
    if n == 0 {
      ReplaceMiss(c, t, '\\', q, q);
    } else if n == 1 && c == q {
      ReplaceMatch(t, '\\', q, q);
    } else {
      ReplaceQuoteAtRun(n - 1, c, t, q);
      ReplaceMiss('\\', AfterSlashes(n - 1, [c] + t), '\\', q, q);
    }
  }

  lemma {:induction false} ReplaceQuoteAtEnd(n: nat, q: char)
    requires q != '\\'
    ensures Replace(AfterSlashes(n, ""), '\\', q, q) == AfterSlashes(n, "")
  {
    if n > 0 {
      ReplaceQuoteAtEnd(n - 1, q);
      ReplaceMiss('\\', AfterSlashes(n - 1, ""), '\\', q, q);
    }
  }

  /** Replacing escaped backslashes halves a run, rounding up. */
  lemma {:induction false} ReplaceSlashAtRun(n: nat, c: char, t: string)
    requires c != '\\'
    ensures Replace(AfterSlashes(n, [c] + t), '\\', '\\', '\\')
         == AfterSlashes((n + 1) / 2, [c] + Replace(t, '\\', '\\', '\\'))
  {
    if n == 0 {
      ReplaceMiss(c, t, '\\', '\\', '\\');
    } else if n == 1 {
      ReplaceSlashAtRun(0, c, t);
      ReplaceMiss('\\', [c] + t, '\\', '\\', '\\');
    } else {
      ReplaceSlashAtRun(n - 2, c, t);
      ReplaceMatch(AfterSlashes(n - 2, [c] + t), '\\', '\\', '\\');
    }
  }

  lemma {:induction false} ReplaceSlashAtEnd(n: nat)
    ensures Replace(AfterSlashes(n, ""), '\\', '\\', '\\') == AfterSlashes((n + 1) / 2, "")
  {
    if n == 1 {
      assert AfterSlashes(1, "") == ['\\'] + AfterSlashes(0, "");
    } else if n > 1 {
      ReplaceSlashAtEnd(n - 2);
      assert AfterSlashes(n, "") == ['\\'] + (['\\'] + AfterSlashes(n - 2, ""));
      assert (n + 1) / 2 == (n - 2 + 1) / 2 + 1;
      ReplaceMatch(AfterSlashes(n - 2, ""), '\\', '\\', '\\');
    }
  }

  lemma UnescapeOnceMatch(c: char, rest: string)
    requires IsQuote(c) || c == '\\'
    ensures UnescapeOnce(['\\'] + ([c] + rest)) == [c] + UnescapeOnce(rest)
  {
    assert (['\\'] + ([c] + rest))[2..] == rest;
  }

  lemma UnescapeOnceMiss(c: char, rest: string)
    requires c == '\\' && rest != "" ==> !IsQuote(rest[0]) && rest[0] != '\\'
    ensures UnescapeOnce([c] + rest) == [c] + UnescapeOnce(rest)
  {
    assert ([c] + rest)[1..] == rest;
  }

  /** One pass halves a run: down before a quote, up before any other character. */
  lemma {:induction false} UnescapeOnceAtRun(n: nat, c: char, t: string)
    requires c != '\\'
    ensures UnescapeOnce(AfterSlashes(n, [c] + t))
         == AfterSlashes(if IsQuote(c) then n / 2 else (n + 1) / 2, [c] + UnescapeOnce(t))
  {
    if n == 0 {
      UnescapeOnceMiss(c, t);
    } else if n == 1 {
      UnescapeOnceMiss(c, t);
      if IsQuote(c) { UnescapeOnceMatch(c, t); } else { UnescapeOnceMiss('\\', [c] + t); }
    } else {
      UnescapeOnceAtRun(n - 2, c, t);
      UnescapeOnceMatch('\\', AfterSlashes(n - 2, [c] + t));
    }
  }

  lemma {:induction false} UnescapeOnceAtEnd(n: nat)
    ensures UnescapeOnce(AfterSlashes(n, "")) == AfterSlashes((n + 1) / 2, "")
  {
    if n == 1 {
      assert AfterSlashes(1, "") == ['\\'] + AfterSlashes(0, "");
    } else if n > 1 {
      UnescapeOnceAtEnd(n - 2);
      UnescapeOnceMatch('\\', AfterSlashes(n - 2, ""));
    }
  }

  /** The three passes at a run come to the same. */
  lemma UnescapeAtRun(n: nat, c: char, t: string)
    requires c != '\\'
    ensures Unescape(AfterSlashes(n, [c] + t))
         == AfterSlashes(if IsQuote(c) then n / 2 else (n + 1) / 2, [c] + Unescape(t))
  {
    var n1 := if n > 0 && c == '"' then n - 1 else n;
    var n2 := if n1 > 0 && c == '\'' then n1 - 1 else n1;
    var t1 := Replace(t, '\\', '"', '"');
    ReplaceQuoteAtRun(n, c, t, '"');
    ReplaceQuoteAtRun(n1, c, t1, '\'');
    ReplaceSlashAtRun(n2, c, Replace(t1, '\\', '\'', '\''));
  }

  lemma UnescapeAtEnd(n: nat)
    ensures Unescape(AfterSlashes(n, "")) == AfterSlashes((n + 1) / 2, "")
  {
    ReplaceQuoteAtEnd(n, '"');
    ReplaceQuoteAtEnd(n, '\'');
    ReplaceSlashAtEnd(n);
  }

  lemma {:induction false} LeadingRun(s: string) returns (n: nat, tail: string)
    ensures s == AfterSlashes(n, tail) && (tail == "" || tail[0] != '\\')
  {
    if s == "" || s[0] != '\\' {
      n, tail := 0, s;
    } else {
      n, tail := LeadingRun(s[1..]);
      assert s == ['\\'] + s[1..];
      n := n + 1;
    }
  }

  /** The chained replacements equal one left-to-right unescape, on every text. */
  lemma {:induction false} UnescapeIsOnePass(raw: string)
    ensures Unescape(raw) == UnescapeOnce(raw)
    decreases |raw|
  {
    var n, tail := LeadingRun(raw);
    if tail == "" {
      UnescapeAtEnd(n);
      UnescapeOnceAtEnd(n);
    } else {
      var c, t := tail[0], tail[1..];
      assert tail == [c] + t;
      UnescapeIsOnePass(t);
      UnescapeAtRun(n, c, t);
      UnescapeOnceAtRun(n, c, t);
    }
  }

  // ------------------------------------------------------------ tokenizing

  predicate IsSpace(c: char) {
    c == ' ' || '\t' <= c <= '\r'
  }

  /** Where the closing quote is, skipping escaped characters; the length if there is none. */
  function ScanEnd(s: string, quote: char): (n: nat)
    ensures n <= |s|
  {
    if s == "" || s[0] == quote then 0
    else if s[0] == '\\' && |s| > 1 then 2 + ScanEnd(s[2..], quote)
    else 1 + ScanEnd(s[1..], quote)
  }

  predicate IsNumeralChar(c: char) {
    IsDigit(c) || c == '.' || c == 'e' || c == 'E' || c == '+' || c == '-'
  }

  function NumeralSpan(s: string): (n: nat)
    ensures n <= |s|
  {
    if s == "" || !IsNumeralChar(s[0]) then 0 else 1 + NumeralSpan(s[1..])
  }

  function WordSpan(s: string): (n: nat)
    ensures n <= |s|
  {
    if s == "" || !IsWordChar(s[0]) then 0 else 1 + WordSpan(s[1..])
  }

  predicate StartsNumeral(s: string)
    requires s != ""
  {
    IsDigit(s[0]) || (s[0] == '-' && |s| > 1 && IsDigit(s[1]))
  }

  function WordTok(word: string): Tok {
    var upper := Upper(word);
    if upper == "AND" then AndTok
    else if upper == "OR" then OrTok
    else if upper == "NOT" then NotTok
    else if upper == "TRUE" then TrueTok
    else if upper == "FALSE" then FalseTok
    else if upper == "NULL" then NullTok
    else if upper == "EXISTS" then ExistsTok
    else Ident(word)
  }

  /** Keywords are read in any mix of cases; every other word is kept as it is written. */
  lemma {:induction false} KeywordsIgnoreCase(a: string, b: string)
    requires Upper(a) == Upper(b)
    ensures WordTok(a).Ident? <==> WordTok(b).Ident?
    ensures !WordTok(a).Ident? ==> WordTok(a) == WordTok(b)
    ensures WordTok(a).Ident? ==> WordTok(a) == Ident(a)
  {
  }

  /** One token, or a blank, at the start of the text, and how many characters it takes. */
  datatype Lexeme = Blank | One(tok: Tok, length: nat) | Bad(error: LexError)

  function LexOne(s: string, num: string -> Option<F64>): (l: Lexeme)
    requires s != ""
    ensures l.One? ==> 0 < l.length <= |s|
  {
    var c := s[0];
    var eq := |s| > 1 && s[1] == '=';
    if IsSpace(c) then Blank
    else if c == '(' then One(LParen, 1)
    else if c == ')' then One(RParen, 1)
    else if c == '.' then One(Dot, 1)
    else if c == ',' then One(Comma, 1)
    else if c == '=' && eq then One(CompareOp(Eq), 2)
    else if c == '!' && eq then One(CompareOp(Ne), 2)
    else if c == '<' then (if eq then One(CompareOp(Le), 2) else One(CompareOp(Lt), 1))
    else if c == '>' then (if eq then One(CompareOp(Ge), 2) else One(CompareOp(Gt), 1))
    else if IsQuote(c) then
      var n := ScanEnd(s[1..], c);
      if n == |s| - 1 then Bad(UnterminatedString) else One(StrLit(Unescape(s[1..1 + n])), n + 2)
    else if StartsNumeral(s) then
      var n := NumeralSpan(s);
      (match num(s[..n])
       case None => Bad(BadNumber(s[..n]))
       case Some(v) => One(NumLit(v), n))
    else if IsLetter(c) || c == '_' then One(WordTok(s[..WordSpan(s)]), WordSpan(s))
    else Bad(UnexpectedCharacter(c))
  }

  function Cons(t: Tok, l: Lexed): Lexed {
    if l.Toks? then Toks([t] + l.toks) else l
  }

  function Lex(s: string, num: string -> Option<F64>): Lexed {
    if s == "" then Toks([])
    else match LexOne(s, num)
      case Blank => Lex(s[1..], num)
      case One(t, n) => Cons(t, Lex(s[n..], num))
      case Bad(e) => Failed(e)
  }

  function Append(out: seq<Tok>, l: Lexed): Lexed {
    if l.Toks? then Toks(out + l.toks) else l
  }

  /** `l` is what the text from position `i` begins with, the rest being left to the rest of the text. */
  predicate Begins(src: string, i: nat, l: Lexeme, num: string -> Option<F64>)
    requires i < |src|
  {
    match l
    case Blank => Lex(src[i..], num) == Lex(src[i + 1..], num)
    case One(t, n) => 0 < n <= |src| - i && Lex(src[i..], num) == Cons(t, Lex(src[i + n..], num))
    case Bad(e) => Lex(src[i..], num) == Failed(e)
  }

  lemma {:induction false} LexemeBegins(src: string, i: nat, num: string -> Option<F64>)
    requires i < |src|
    ensures Begins(src, i, LexOne(src[i..], num), num)
  {
    var s := src[i..];
    var l := LexOne(s, num);
    assert s[1..] == src[i + 1..];
    if l.One? { assert s[l.length..] == src[i + l.length..]; }
  }

  lemma {:induction false} AppendCons(out: seq<Tok>, t: Tok, rest: Lexed)
    ensures Append(out, Cons(t, rest)) == Append(out + [t], rest)
  {
    if rest.Toks? { assert out + ([t] + rest.toks) == (out + [t]) + rest.toks; }
  }

  /** The tokens `out` and what the text from position `i` gives are what the whole text gives. */
  predicate Reads(src: string, i: nat, out: seq<Tok>, num: string -> Option<F64>)
    requires i <= |src|
  {
    Append(out, Lex(src[i..], num)) == Lex(src, num)
  }

  lemma NothingRead(src: string, num: string -> Option<F64>)
    ensures Reads(src, 0, [], num)
  {
    assert src[0..] == src;
    if Lex(src, num).Toks? { assert [] + Lex(src, num).toks == Lex(src, num).toks; }
  }

  lemma AllRead(src: string, out: seq<Tok>, num: string -> Option<F64>)
    requires Reads(src, |src|, out, num)
    ensures Lex(src, num) == Toks(out)
  {
    assert src[|src|..] == "" && out + [] == out;
  }

  lemma ReadsOn(src: string, i: nat, out: seq<Tok>, l: Lexeme, num: string -> Option<F64>)
    requires i < |src| && Reads(src, i, out, num) && Begins(src, i, l, num)
    ensures match l
            case Blank => Reads(src, i + 1, out, num)
            case One(t, n) => Reads(src, i + n, out + [t], num)
            case Bad(e) => Lex(src, num) == Failed(e)
  {
    if l.One? { AppendCons(out, l.tok, Lex(src[i + l.length..], num)); }
  }

  /** The inner loop of a string literal: from the character after the opening quote to the
      closing one, or to the end of the text. */
  method ScanString(src: string, first: nat, quote: char) returns (i: nat)
    requires first <= |src|
    ensures i == first + ScanEnd(src[first..], quote)
  {
    i := first;
    while i < |src| && src[i] != quote
      invariant first <= i <= |src|
      invariant (i - first) + ScanEnd(src[i..], quote) == ScanEnd(src[first..], quote)
    {
      if src[i] == '\\' && i + 1 < |src| {
        assert src[i..][2..] == src[i + 2..];
        i := i + 2;
      } else {
        assert src[i..][1..] == src[i + 1..];
        i := i + 1;
      }
    }
  }

  /** What stands at position `i`; a string literal is scanned by its own loop. */
  method ScanLexeme(src: string, i: nat, num: string -> Option<F64>) returns (l: Lexeme)
    requires i < |src|
    ensures Begins(src, i, l, num)
  {
    var c := src[i];
    LexemeBegins(src, i, num);
    if !IsQuote(c) { return LexOne(src[i..], num); }
    var first := i + 1;
    var last := ScanString(src, first, c);
    StringLexeme(src, i, num);
    l := if last >= |src| then Bad(UnterminatedString) else One(StrLit(Unescape(src[first..last])), last + 1 - i);
  }

  /** What is left to read after the lexeme `l` at position `i`. */
  function After(i: nat, l: Lexeme): nat {
    match l
    case Blank => i + 1
    case One(_, n) => i + n
    case Bad(_) => i
  }

  function Grown(out: seq<Tok>, l: Lexeme): seq<Tok> {
    if l.One? then out + [l.tok] else out
  }

  /** The lexeme at position `i`, and how far the text is then read. */
  method ReadLexeme(src: string, i: nat, ghost out: seq<Tok>, num: string -> Option<F64>) returns (l: Lexeme)
    requires i < |src| && Reads(src, i, out, num)
    ensures l.Bad? ==> Lex(src, num) == Failed(l.error)
    ensures !l.Bad? ==> i < After(i, l) <= |src| && Reads(src, After(i, l), Grown(out, l), num)
  {
    l := ScanLexeme(src, i, num);
    ReadsOn(src, i, out, l, num);
  }

  /** The tokenizer's index loop. */
  method Tokenize(src: string, num: string -> Option<F64>) returns (r: Lexed)
    ensures r == Lex(src, num)
  {
    var i := 0;
    var out: seq<Tok> := [];
    NothingRead(src, num);
    while i < |src|
      invariant i <= |src|
      invariant Reads(src, i, out, num)
    {
      var l := ReadLexeme(src, i, out, num);
      if l.Bad? { return Failed(l.error); }
      i, out := After(i, l), Grown(out, l);
    }
    AllRead(src, out, num);
    return Toks(out);
  }

  lemma {:induction false} StringLexeme(src: string, i: nat, num: string -> Option<F64>)
    requires i < |src| && IsQuote(src[i])
    ensures var last := i + 1 + ScanEnd(src[i + 1..], src[i]);
            last <= |src|
            && (last == |src| ==> LexOne(src[i..], num) == Bad(UnterminatedString))
            && (last < |src| ==>
                  LexOne(src[i..], num) == One(StrLit(Unescape(src[i + 1..last])), last + 1 - i))
  {
    var s := src[i..];
    var n := ScanEnd(src[i + 1..], src[i]);
    assert s[1..] == src[i + 1..];
    if n < |s| - 1 { assert s[1..1 + n] == src[i + 1..i + 1 + n]; }
  }
}
