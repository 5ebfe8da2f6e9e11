/**
 * The JavaScript primitive values that the diary code stores in an entry and the
 * coercions it applies to them: Number(), Boolean(), `==` against a boolean or
 * `undefined`, and `>=`, following the abstract operations of ECMAScript
 * (ToNumber, ToBoolean, IsLooselyEqual, IsLessThan).
 */
module JsValues {
  import opened Decimal

  /** A JavaScript number. Finite numbers are kept as exact reals. */
  datatype Number = Finite(r: real) | NaN

  /** The primitive values a CSV library can hand to the diary code. */
  datatype Value = Undefined | Null | Bool(b: bool) | Num(n: Number) | Str(s: string)

  /** Number of leading decimal digits of `s`. */
  function LeadingDigits(s: string): (k: nat)
    ensures k <= |s| && AllDigits(s[..k])
    ensures k < |s| ==> !IsDigit(s[k])
  {
    if s == [] || !IsDigit(s[0]) then 0
    else
      var k' := LeadingDigits(s[1..]);
      assert s[..k' + 1] == [s[0]] + s[1..][..k'];
      k' + 1
  }

  /** The value of the digits after a decimal point. */
  function Fraction(s: string): (f: real)
    requires AllDigits(s)
    ensures 0.0 <= f <= 1.0
  {
    if s == [] then 0.0 else (DigitValue(s[0]) as real + Fraction(s[1..])) / 10.0
  }

  /** `digits`, `digits.`, `digits.digits` or `.digits`; anything else is NaN. */
  function UnsignedNumber(s: string): Number {
    var k := LeadingDigits(s);
    if k == |s| then
      (if k == 0 then NaN else Finite(DigitsValue(s) as real))
    else if s[k] == '.' && AllDigits(s[k + 1..]) && (k > 0 || k + 1 < |s|) then
      Finite(DigitsValue(s[..k]) as real + Fraction(s[k + 1..]))
    else NaN
  }

  function Negate(n: Number): Number {
    match n
    case Finite(r) => Finite(-r)
    case NaN => NaN
  }

  /**
   * The characters StringToNumber strips from both ends of its argument: the
   * WhiteSpace and LineTerminator code points of ECMAScript (tab, vertical tab,
   * form feed, byte order mark, the Zs space separators, LF, CR, LS and PS).
   */
  predicate IsWhiteSpace(c: char) {
    || c == '\t' || c == '\n' || c == '\U{B}' || c == '\U{C}' || c == '\r'
    || c == ' ' || c == '\U{A0}' || c == '\U{1680}' || ('\U{2000}' <= c <= '\U{200A}')
    || c == '\U{2028}' || c == '\U{2029}' || c == '\U{202F}' || c == '\U{205F}'
    || c == '\U{3000}' || c == '\U{FEFF}'
  }

  /** `s` without its leading white space. */
  function TrimStart(s: string): (t: string)
    ensures |t| <= |s| && t == s[|s| - |t|..]
    ensures t == [] || !IsWhiteSpace(t[0])
  {
    if s != [] && IsWhiteSpace(s[0]) then TrimStart(s[1..]) else s
  }

  /** `s` without its trailing white space. */
  function TrimEnd(s: string): (t: string)
    ensures |t| <= |s| && t == s[..|t|]
    ensures t == [] || !IsWhiteSpace(t[|t| - 1])
  {
    if s != [] && IsWhiteSpace(s[|s| - 1]) then TrimEnd(s[..|s| - 1]) else s
  }

  /** `s` with white space stripped from both ends. */
  function Trim(s: string): (t: string)
    ensures t == [] || (!IsWhiteSpace(t[0]) && !IsWhiteSpace(t[|t| - 1]))
  {
    TrimEnd(TrimStart(s))
  }

  /** What the leading trim cuts off is white space. */
  lemma {:induction false} TrimStartCutsWhiteSpace(s: string)
    ensures forall k :: 0 <= k < |s| - |TrimStart(s)| ==> IsWhiteSpace(s[k])
  {
    if s != [] && IsWhiteSpace(s[0]) {
      TrimStartCutsWhiteSpace(s[1..]);
      assert forall k :: 1 <= k < |s| ==> s[k] == s[1..][k - 1];
    }
  }

  /** What the trailing trim cuts off is white space. */
  lemma {:induction false} TrimEndCutsWhiteSpace(s: string)
    ensures forall k :: |TrimEnd(s)| <= k < |s| ==> IsWhiteSpace(s[k])
  {
    if s != [] && IsWhiteSpace(s[|s| - 1]) {
      TrimEndCutsWhiteSpace(s[..|s| - 1]);
      assert forall k :: 0 <= k < |s| - 1 ==> s[k] == s[..|s| - 1][k];
    }
  }

  /** The trimmed string is a slice of `s` with nothing but white space on either side of it. */
  lemma TrimIsInfix(s: string)
    ensures exists i, j :: 0 <= i <= j <= |s| && Trim(s) == s[i..j]
              && (forall k :: 0 <= k < i ==> IsWhiteSpace(s[k]))
              && (forall k :: j <= k < |s| ==> IsWhiteSpace(s[k]))
  {
    var u := TrimStart(s);
    var t := TrimEnd(u);
    TrimStartCutsWhiteSpace(s);
    TrimEndCutsWhiteSpace(u);
    var i := |s| - |u|;
    var j := i + |t|;
    assert t == s[i..j];
    forall k | j <= k < |s| ensures IsWhiteSpace(s[k]) {
      assert s[k] == u[k - i];
    }
  }

  /** A blank prefix before a string that starts with no white space is cut off by the leading trim. */
  lemma {:induction false} TrimStartBlankPrefix(w: string, t: string)
    requires forall k :: 0 <= k < |w| ==> IsWhiteSpace(w[k])
    requires t != [] && !IsWhiteSpace(t[0])
    ensures TrimStart(w + t) == t
  {
    if w == [] {
      assert w + t == t;
    } else {
      assert (w + t)[1..] == w[1..] + t;
      TrimStartBlankPrefix(w[1..], t);
    }
  }

  /** A blank suffix after a string that ends in no white space is cut off by the trailing trim. */
  lemma {:induction false} TrimEndBlankSuffix(t: string, w: string)
    requires forall k :: 0 <= k < |w| ==> IsWhiteSpace(w[k])
    requires t != [] && !IsWhiteSpace(t[|t| - 1])
    ensures TrimEnd(t + w) == t
  {
    if w == [] {
      assert t + w == t;
    } else {
      assert (t + w)[..|t + w| - 1] == t + w[..|w| - 1];
      TrimEndBlankSuffix(t, w[..|w| - 1]);
    }
  }

  /** Number() ignores white space before and after the text it reads. */
  lemma NumberOfPadded(w1: string, t: string, w2: string)
    requires forall k :: 0 <= k < |w1| ==> IsWhiteSpace(w1[k])
    requires forall k :: 0 <= k < |w2| ==> IsWhiteSpace(w2[k])
    requires t == [] || (!IsWhiteSpace(t[0]) && !IsWhiteSpace(t[|t| - 1]))
    ensures NumberOf(w1 + t + w2) == NumberOf(t)
  {
    if t == [] {
      var s := w1 + t + w2;
      assert forall k :: 0 <= k < |s| ==> IsWhiteSpace(s[k]) by {
        forall k | 0 <= k < |s| ensures IsWhiteSpace(s[k]) {
          if k < |w1| { assert s[k] == w1[k]; } else { assert s[k] == w2[k - |w1|]; }
        }
      }
    } else {
      assert w1 + t + w2 == w1 + (t + w2);
      TrimStartBlankPrefix(w1, t + w2);
      TrimEndBlankSuffix(t, w2);
      TrimmedAlready(t);
    }
  }

  /** Only a string made of white space trims to nothing. */
  lemma {:induction false} TrimBlank(s: string)
    ensures Trim(s) == [] <==> forall i :: 0 <= i < |s| ==> IsWhiteSpace(s[i])
  {
    if forall i :: 0 <= i < |s| ==> IsWhiteSpace(s[i]) {
      TrimStartBlank(s);
    } else {
      var i :| 0 <= i < |s| && !IsWhiteSpace(s[i]);
      TrimStartKeeps(s, i);
      TrimEndKeepsFirst(TrimStart(s));
    }
  }

  lemma {:induction false} TrimStartBlank(s: string)
    requires forall i :: 0 <= i < |s| ==> IsWhiteSpace(s[i])
    ensures TrimStart(s) == []
  {
    if s != [] {
      assert forall i :: 0 <= i < |s| - 1 ==> s[1..][i] == s[i + 1];
      TrimStartBlank(s[1..]);
    }
  }

  /** The leading trim stops at the first character that is not white space. */
  lemma {:induction false} TrimStartKeeps(s: string, i: nat)
    requires i < |s| && !IsWhiteSpace(s[i])
    ensures TrimStart(s) != []
  {
    if IsWhiteSpace(s[0]) {
      assert s[1..][i - 1] == s[i];
      TrimStartKeeps(s[1..], i - 1);
    }
  }

  /** The trailing trim stops, at the latest, at a first character that is not white space. */
  lemma {:induction false} TrimEndKeepsFirst(s: string)
    requires s != [] && !IsWhiteSpace(s[0])
    ensures TrimEnd(s) != []
  {
    if IsWhiteSpace(s[|s| - 1]) {
      TrimEndKeepsFirst(s[..|s| - 1]);
    }
  }

  /** A string that neither starts nor ends with white space trims to itself. */
  lemma TrimmedAlready(s: string)
    requires s == [] || (!IsWhiteSpace(s[0]) && !IsWhiteSpace(s[|s| - 1]))
    ensures Trim(s) == s
  {
  }

  /** The numeric literal of an already trimmed string: the empty string is 0. */
  function NumericLiteral(s: string): Number {
    if s == [] then Finite(0.0)
    else if s[0] == '-' then Negate(UnsignedNumber(s[1..]))
    else if s[0] == '+' then UnsignedNumber(s[1..])
    else UnsignedNumber(s)
  }

  /** `Number(s)`: white space around the literal is ignored, so a blank string is 0. */
  function NumberOf(s: string): (n: Number)
    ensures (forall i :: 0 <= i < |s| ==> IsWhiteSpace(s[i])) ==> n == Finite(0.0)
  {
    TrimBlank(s);
    NumericLiteral(Trim(s))
  }

  /**
   * ECMAScript ToNumber, restricted to the primitives above. Every falsy value
   * other than `undefined` and NaN converts to 0.
   */
  function ToNumber(v: Value): (n: Number)
    ensures !ToBoolean(v) && v != Undefined && v != Num(NaN) ==> n == Finite(0.0)
  {
    match v
    case Undefined => NaN
    case Null => Finite(0.0)
    case Bool(b) => Finite(if b then 1.0 else 0.0)
    case Num(n) => n
    case Str(s) => NumberOf(s)
  }

  /** ECMAScript ToBoolean: what `Boolean(v)` and `v || w` test. No nullish value is truthy. */
  predicate ToBoolean(v: Value)
    ensures ToBoolean(v) ==> !IsNullish(v)
  {
    match v
    case Undefined => false
    case Null => false
    case Bool(b) => b
    case Num(n) => n.Finite? && n.r != 0.0
    case Str(s) => s != ""
  }

  /** `v || w`: one of the two operands, truthy exactly when either is. */
  function Or(v: Value, w: Value): (r: Value)
    ensures r == v || r == w
    ensures ToBoolean(r) <==> ToBoolean(v) || ToBoolean(w)
  {
    if ToBoolean(v) then v else w
  }

  /** `v == undefined`: true exactly of `undefined` and `null`. */
  predicate IsNullish(v: Value) {
    v == Undefined || v == Null
  }

  /**
   * `v == b` for a boolean `b`: the boolean is converted to 0 or 1 and compared
   * as a number; `null` and `undefined` equal no number.
   */
  predicate LooselyEqualsBoolean(v: Value, b: bool)
    ensures LooselyEqualsBoolean(v, b) <==> !IsNullish(v) && ToNumber(v) == Finite(if b then 1.0 else 0.0)
  {
    match v
    case Undefined => false
    case Null => false
    case Bool(c) => c == b
    case Num(n) => n == Finite(if b then 1.0 else 0.0)
    case Str(s) => NumberOf(s) == Finite(if b then 1.0 else 0.0)
  }

  /** Lexicographic order of strings, character by character. */
  predicate StringLess(x: string, y: string) {
    if x == [] then y != []
    else if y == [] then false
    else if x[0] != y[0] then x[0] < y[0]
    else StringLess(x[1..], y[1..])
  }

  /**
   * `x >= y`: two strings compare lexicographically, anything else as numbers,
   * where NaN compares false.
   */
  predicate GreaterOrEqual(x: Value, y: Value) {
    if x.Str? && y.Str? then !StringLess(x.s, y.s)
    else
      match (ToNumber(x), ToNumber(y))
      case (Finite(a), Finite(b)) => a >= b
      case _ => false
  }

  /** No two strings are each lexicographically below the other. */
  lemma {:induction false} StringLessAsymmetric(x: string, y: string)
    ensures !(StringLess(x, y) && StringLess(y, x))
  {
    if x != [] && y != [] && x[0] == y[0] {
      StringLessAsymmetric(x[1..], y[1..]);
    }
  }

  /**
   * `>=` orders two strings, and two values that both convert to finite
   * numbers, one way or the other; outside the two-strings case a NaN
   * operand makes both `x >= y` and `y >= x` false.
   */
  lemma GreaterOrEqualOrder(x: Value, y: Value)
    ensures (x.Str? && y.Str?) || (ToNumber(x).Finite? && ToNumber(y).Finite?) ==>
              GreaterOrEqual(x, y) || GreaterOrEqual(y, x)
    ensures !(x.Str? && y.Str?) && (ToNumber(x) == NaN || ToNumber(y) == NaN) ==>
              !GreaterOrEqual(x, y) && !GreaterOrEqual(y, x)
  {
    if x.Str? && y.Str? {
      StringLessAsymmetric(x.s, y.s);
    }
  }

  /** A padded digit string reads back, through Number(), as the number it renders. */
  lemma NumberOfDigits(n: nat, width: nat)
    requires 0 < width && n < Pow10(width)
    ensures NumberOf(Digits(n, width)) == Finite(n as real)
  {
    NumberOfDigitString(Digits(n, width));
    DigitsRoundTrip(n, width);
  }

  /** Number() of a non-empty digit string is the value of its digits. */
  lemma NumberOfDigitString(s: string)
    requires s != [] && AllDigits(s)
    ensures NumberOf(s) == Finite(DigitsValue(s) as real)
  {
    assert IsDigit(s[0]) && IsDigit(s[|s| - 1]);
    TrimmedAlready(s);
    assert LeadingDigits(s) == |s|;
  }

  /** Number() of a text that starts with neither a sign, a digit nor a point is NaN. */
  lemma NumberOfNonNumeric(s: string)
    requires s != [] && !IsWhiteSpace(s[0]) && !IsWhiteSpace(s[|s| - 1])
    requires !IsDigit(s[0]) && s[0] != '+' && s[0] != '-' && s[0] != '.'
    ensures NumberOf(s) == NaN
  {
    TrimmedAlready(s);
    assert LeadingDigits(s) == 0;
  }

  /** Number() reads a half-star rating such as "3.5" as its exact value. */
  lemma {:induction false} NumberOfDecimal(d: nat, e: nat)
    requires d < 10 && e < 10
    ensures NumberOf([DigitChar(d), '.', DigitChar(e)]) == Finite(d as real + e as real / 10.0)
  {
    var s := [DigitChar(d), '.', DigitChar(e)];
    assert IsDigit(s[0]) && IsDigit(s[2]);
    TrimmedAlready(s);
    assert NumberOf(s) == NumericLiteral(s);
    assert LeadingDigits(s[2..]) == 1;
    assert LeadingDigits(s[1..]) == 0;
    assert LeadingDigits(s) == 1;
    assert s[..1] == [DigitChar(d)];
    assert DigitsValue(s[..1]) == d by {
      assert s[..1][..0] == [];
    }
    assert s[2..] == [DigitChar(e)];
    assert Fraction(s[2..]) == e as real / 10.0 by {
      assert s[2..][1..] == [];
    }
  }
}
