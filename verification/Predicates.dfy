/** JSON values, the subscription predicate AST and its evaluator
    (crates/actant-subscribe/src/predicate.rs). */
module Predicates {
  import opened Common
  import opened Text

  /** A JSON number keeps the form it was read in; equality compares forms. */
  datatype Number = PosInt(magnitude: nat) | NegInt(value: int) | Float(r: real)

  datatype Value =
    | Null
    | Bool(b: bool)
    | Num(n: Number)
    | Str(s: string)
    | Arr(items: seq<Value>)
    | Obj(fields: map<string, Value>)

  datatype Comparator = Eq | Ne | Lt | Le | Gt | Ge

  datatype Predicate =
    | True
    | False
    | Compare(op: Comparator, field: string, value: Value)
    | Exists(field: string)
    | And(parts: seq<Predicate>)
    | Or(parts: seq<Predicate>)
    | Not(inner: Predicate)

  datatype Ordering = Less | Equal | Greater

  // ----------------------------------------------------------- resolve

  function Split(path: string): (r: seq<string>)
    ensures r != []
  {
    if path == "" then [""]
    else if path[0] == '.' then [""] + Split(path[1..])
    else
      var r := Split(path[1..]);
      [[path[0]] + r[0]] + r[1..]
  }

  predicate IsDigit(c: char) {
    '0' <= c <= '9'
  }

  predicate AllDigits(s: string) {
    forall i :: 0 <= i < |s| ==> IsDigit(s[i])
  }

  function DigitsValue(s: string): nat
    requires AllDigits(s)
  {
    if s == "" then 0 else 10 * DigitsValue(s[..|s| - 1]) + (s[|s| - 1] as int - '0' as int)
  }

  const INDEX_SPAN := 0x1_0000_0000_0000_0000

  /** Parsing an unsigned machine word: an optional plus sign, then digits, in range. */
  function ParseIndex(s: string): Option<nat> {
    var digits := if s != "" && s[0] == '+' then s[1..] else s;
    if digits == "" || !AllDigits(digits) || DigitsValue(digits) >= INDEX_SPAN then None
    else Some(DigitsValue(digits))
  }

  function Step(cur: Value, segment: string): Option<Value> {
    if segment == "" then None
    else match cur
      case Obj(fields) => if segment in fields then Some(fields[segment]) else None
      case Arr(items) =>
        (match ParseIndex(segment)
         case Some(i) => if i < |items| then Some(items[i]) else None
         case None => None)
      case _ => None
  }

  function Walk(cur: Value, segments: seq<string>): Option<Value>
    decreases |segments|
  {
    if segments == [] then Some(cur)
    else match Step(cur, segments[0])
      case Some(next) => Walk(next, segments[1..])
      case None => None
  }

  function Resolve(root: Value, path: string): Option<Value> {
    Walk(root, Split(path))
  }

  lemma {:induction false} SplitJoined(a: string, b: string)
    ensures Split(a + "." + b) == Split(a) + Split(b)
  {
    var path := a + "." + b;
    if a == "" {
      assert path[1..] == b;
    } else {
      assert path[1..] == a[1..] + "." + b;
      SplitJoined(a[1..], b);
    }
  }

  lemma {:induction false} WalkOn(cur: Value, a: seq<string>, b: seq<string>)
    ensures Walk(cur, a + b) == if Walk(cur, a).Some? then Walk(Walk(cur, a).value, b) else None
    decreases |a|
  {
    if a == [] {
      assert a + b == b;
    } else {
      assert (a + b)[1..] == a[1..] + b;
      match Step(cur, a[0])
      case Some(next) => WalkOn(next, a[1..], b);
      case None =>
    }
  }

  /** A dotted path is followed from left to right. */
  lemma {:induction false} PathsCompose(root: Value, a: string, b: string)
    ensures Resolve(root, a + "." + b) == if Resolve(root, a).Some? then Resolve(Resolve(root, a).value, b) else None
  {
    SplitJoined(a, b);
    WalkOn(root, Split(a), Split(b));
  }

  /** A path with an empty segment finds nothing, in any document. */
  lemma {:induction false} EmptySegmentsFindNothing(cur: Value, segments: seq<string>)
    requires "" in segments
    ensures Walk(cur, segments) == None
    decreases |segments|
  {
    if segments[0] != "" {
      assert segments == [segments[0]] + segments[1..];
      match Step(cur, segments[0])
      case Some(next) => EmptySegmentsFindNothing(next, segments[1..]);
      case None =>
    }
  }

  /** A segment picks an element of an array exactly when it is a numeral, with or without a plus
      sign, below the machine word's span and the array's length; it is then that element. */
  lemma {:induction false} NumeralsPickElements(items: seq<Value>, s: string)
    ensures forall v :: Step(Arr(items), s) == Some(v) <==>
              exists digits :: && (s == digits || s == "+" + digits) && digits != "" && AllDigits(digits)
                               && DigitsValue(digits) < INDEX_SPAN && DigitsValue(digits) < |items|
                               && v == items[DigitsValue(digits)]
  {
    var digits := if s != "" && s[0] == '+' then s[1..] else s;
    assert s != "" && s[0] == '+' ==> s == "+" + digits;
    forall d | (s == d || s == "+" + d) && d != "" && AllDigits(d) ensures d == digits {
      if s == "+" + d { assert s[1..] == d; } else { assert IsDigit(d[0]); }
    }
  }

  /** The resolver's loop. */
  method ResolvePath(root: Value, path: string) returns (found: Option<Value>)
    ensures found == Resolve(root, path)
  {
    var cur := root;
    var segments := Split(path);
    for i := 0 to |segments|
      invariant Walk(cur, segments[i..]) == Resolve(root, path)
    {
      var next := Step(cur, segments[i]);
      assert segments[i..][1..] == segments[i + 1..];
      if next.None? { return None; }
      cur := next.value;
    }
    return Some(cur);
  }

  // ----------------------------------------------------------- evaluate

  function AsReal(n: Number): real {
    match n
    case PosInt(i) => i as real
    case NegInt(i) => i as real
    case Float(r) => r
  }

  function Order(a: Value, b: Value): Option<Ordering> {
    match (a, b)
    case (Num(x), Num(y)) =>
      Some(if AsReal(x) < AsReal(y) then Less else if AsReal(x) == AsReal(y) then Equal else Greater)
    case (Str(x), Str(y)) => Some(if x == y then Equal else if TextLess(x, y) then Less else Greater)
    case (Bool(x), Bool(y)) => Some(if x == y then Equal else if y then Less else Greater)
    case (Null, Null) => Some(Equal)
    case _ => None
  }

  predicate Accepts(op: Comparator, o: Ordering) {
    match op
    case Lt => o == Less
    case Le => o != Greater
    case Gt => o == Greater
    case Ge => o != Less
    case _ => false
  }

  predicate Evaluate(p: Predicate, root: Value) {
    match p
    case True => true
    case False => false
    case Compare(op, field, value) =>
      var got := Resolve(root, field);
      (match op
       case Eq => got == Some(value)
       case Ne => got.None? || got.value != value
       case _ => got.Some? && Order(got.value, value).Some? && Accepts(op, Order(got.value, value).value))
    case Exists(field) => Resolve(root, field).Some?
    case And(xs) => forall x :: x in xs ==> Evaluate(x, root)
    case Or(xs) => exists x :: x in xs && Evaluate(x, root)
    case Not(inner) => !Evaluate(inner, root)
  }

  /** A field exists exactly when it equals some value. */
  lemma ExistsMeansEqualToSomething(field: string, root: Value)
    ensures Evaluate(Exists(field), root) <==> exists value :: Evaluate(Compare(Eq, field, value), root)
  {
    if Evaluate(Exists(field), root) { assert Evaluate(Compare(Eq, field, Resolve(root, field).value), root); }
  }

  /** On a missing field a comparison holds exactly when it is Ne, whatever the literal. */
  lemma MissingFieldSatisfiesOnlyNe(op: Comparator, field: string, value: Value, root: Value)
    requires Resolve(root, field).None?
    ensures Evaluate(Compare(op, field, value), root) <==> op == Ne
  {
  }

  /** Values of one kind that have an order. */
  predicate Comparable(a: Value, b: Value) {
    (a.Num? && b.Num?) || (a.Str? && b.Str?) || (a.Bool? && b.Bool?) || (a.Null? && b.Null?)
  }

  /** `n` is the number `x`, in whichever form. */
  predicate Denotes(n: Number, x: real) {
    n == Float(x) || (n.PosInt? && n.magnitude as real == x) || (n.NegInt? && n.value as real == x)
  }

  /** Numbers by size, strings by dictionary order, and false before true. */
  ghost predicate Precedes(a: Value, b: Value) {
    || (a.Num? && b.Num? && exists x, y :: Denotes(a.n, x) && Denotes(b.n, y) && x < y)
    || (a.Str? && b.Str? && ComesBefore(a.s, b.s))
    || (a == Bool(false) && b == Bool(true))
  }

  lemma OrderIsPrecedence(a: Value, b: Value)
    ensures Order(a, b).Some? <==> Comparable(a, b)
    ensures Comparable(a, b) ==>
              && (Order(a, b) == Some(Less) <==> Precedes(a, b))
              && (Order(a, b) == Some(Greater) <==> Precedes(b, a))
  {
    if a.Num? && b.Num? {
      assert Denotes(a.n, AsReal(a.n)) && Denotes(b.n, AsReal(b.n));
    }
    if a.Str? && b.Str? {
      TextLessIsTotal(a.s, b.s);
      TextLessIsDictionaryOrder(a.s, b.s);
      TextLessIsDictionaryOrder(b.s, a.s);
    }
  }

  /** The order comparisons hold as the value found stands to the literal, and all four fail on a
      missing field or one of another kind; so Lt and Ge, and Gt and Le, are each other's negation
      exactly on comparable values. */
  lemma OrderComparisonsExclude(field: string, value: Value, root: Value)
    ensures var got := Resolve(root, field);
            var comparable := got.Some? && Comparable(got.value, value);
            && (comparable ==> (Evaluate(Compare(Lt, field, value), root) <==> Precedes(got.value, value)))
            && (comparable ==> (Evaluate(Compare(Gt, field, value), root) <==> Precedes(value, got.value)))
            && (comparable ==> (Evaluate(Compare(Lt, field, value), root) <==> !Evaluate(Compare(Ge, field, value), root)))
            && (comparable ==> (Evaluate(Compare(Gt, field, value), root) <==> !Evaluate(Compare(Le, field, value), root)))
            && (!comparable ==> forall op :: op in {Lt, Le, Gt, Ge} ==> !Evaluate(Compare(op, field, value), root))
  {
    if Resolve(root, field).Some? { OrderIsPrecedence(Resolve(root, field).value, value); }
  }

  /** On numbers, in whichever form each is written, the comparisons are those of the reals. */
  lemma NumbersCompareByValue(field: string, m: Number, x: real, n: Number, y: real, root: Value)
    requires Resolve(root, field) == Some(Num(m)) && Denotes(m, x) && Denotes(n, y)
    ensures Evaluate(Compare(Lt, field, Num(n)), root) <==> x < y
    ensures Evaluate(Compare(Le, field, Num(n)), root) <==> x <= y
    ensures Evaluate(Compare(Gt, field, Num(n)), root) <==> x > y
    ensures Evaluate(Compare(Ge, field, Num(n)), root) <==> x >= y
  {
  }

  /** A float literal equals exactly the same float of the document: never an integer, positive or
      negative, although the order comparisons place every number by its value. */
  lemma FloatLiteralMatchesExactly(field: string, r: real, root: Value)
    ensures var got, literal := Resolve(root, field), Num(Float(r));
            && (Evaluate(Compare(Eq, field, literal), root) <==> got == Some(literal))
            && (Evaluate(Compare(Le, field, literal), root) && Evaluate(Compare(Ge, field, literal), root)
                <==> got.Some? && got.value.Num? && AsReal(got.value.n) == r)
  {
  }

  /** So an order comparison and an equality part company on exactly the integers of that value. */
  lemma EqualityMissesExactlyIntegers(field: string, r: real, root: Value)
    ensures var got, literal := Resolve(root, field), Num(Float(r));
            (Evaluate(Compare(Le, field, literal), root) && Evaluate(Compare(Ge, field, literal), root)
             && !Evaluate(Compare(Eq, field, literal), root))
            <==> got.Some? && got.value.Num? && !got.value.n.Float? && AsReal(got.value.n) == r
  {
  }
}
