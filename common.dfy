/** Helpers shared by every page model: optional values, handler outcomes and PHP truthiness. */
module Common {

  /** A nullable column or an optional form field. */
  datatype Option<+T> = None | Some(value: T)

  /** A validated value, or the message of the exception that refused it. */
  datatype Result<T> = Ok(value: T) | Err(message: string)

  /** What a POST handler ends with: it completed, or it threw an exception with this message. */
  datatype Outcome = Done | Failed(message: string)

  /** PHP's truthiness of a string (`if ($s)`, `!empty($s)`): "" and "0" are the falsy strings. */
  predicate Truthy(s: string)
  {
    s != "" && s != "0"
  }

  /** The characters PHP's `trim` strips: space, tab, newline, carriage return, NUL and vertical tab. */
  predicate IsTrimmed(ch: char)
  {
    ch == ' ' || ch == '\t' || ch == '\n' || ch == '\r' || ch == '\0' || ch == '\U{0B}'
  }

  /** Where the text starts once leading blanks are skipped. */
  function TrimStart(s: string): (i: nat)
    ensures i <= |s|
    ensures forall k :: 0 <= k < i ==> IsTrimmed(s[k])
    ensures i < |s| ==> !IsTrimmed(s[i])
  {
    if s == [] || !IsTrimmed(s[0]) then 0
    else
      var i := TrimStart(s[1..]);
      assert forall k :: 1 <= k < i + 1 ==> s[k] == s[1..][k - 1];
      i + 1
  }

  /** Where the text ends once trailing blanks after position `from` are dropped. */
  function TrimEnd(s: string, from: nat): (j: nat)
    requires from <= |s|
    ensures from <= j <= |s|
    ensures forall k :: j <= k < |s| ==> IsTrimmed(s[k])
    ensures j > from ==> !IsTrimmed(s[j - 1])
    decreases |s|
  {
    if |s| == from || !IsTrimmed(s[|s| - 1]) then |s|
    else
      var j := TrimEnd(s[..|s| - 1], from);
      assert forall k :: j <= k < |s| - 1 ==> s[k] == s[..|s| - 1][k];
      j
  }

  /** PHP's `trim($s)`: the text between the leading and the trailing blanks. */
  function Trim(s: string): (r: string)
    ensures |r| <= |s|
    ensures r != [] ==> !IsTrimmed(r[0]) && !IsTrimmed(r[|r| - 1])
    ensures (forall k :: 0 <= k < |s| ==> IsTrimmed(s[k])) <==> r == []
  {
    var i := TrimStart(s);
    var j := TrimEnd(s, i);
    assert i == |s| ==> j == |s|;
    assert j == i ==> forall k :: 0 <= k < |s| ==> IsTrimmed(s[k]);
    s[i..j]
  }

  /** The whitespace PHP 8 allows around a numeric string: space, tab, newline, carriage return, vertical tab and form feed. */
  predicate IsNumericSpace(ch: char)
  {
    ch == ' ' || ch == '\t' || ch == '\n' || ch == '\r' || ch == '\U{0B}' || ch == '\U{0C}'
  }

  predicate IsDigit(ch: char)
  {
    '0' <= ch <= '9'
  }

  /** The length of the run of decimal digits at the start of `s`. */
  function DigitRun(s: string): (n: nat)
    ensures n <= |s|
    ensures forall k :: 0 <= k < n ==> IsDigit(s[k])
    ensures n < |s| ==> !IsDigit(s[n])
  {
    if s == [] || !IsDigit(s[0]) then 0
    else
      var n := DigitRun(s[1..]);
      assert forall k :: 1 <= k < n + 1 ==> s[k] == s[1..][k - 1];
      n + 1
  }

  /** The value of a run of decimal digits. */
  function DigitsValue(s: string): nat
    requires forall k :: 0 <= k < |s| ==> IsDigit(s[k])
  {
    if s == [] then 0
    else
      assert IsDigit(s[|s| - 1]);
      10 * DigitsValue(s[..|s| - 1]) + (s[|s| - 1] as int - '0' as int)
  }

  function Pow10(n: nat): (p: nat)
    ensures p >= 1
  {
    if n == 0 then 1 else 10 * Pow10(n - 1)
  }

  /** `s` without the numeric whitespace around it. */
  function StripSpace(s: string): (r: string)
    ensures |r| <= |s|
    ensures r != [] ==> !IsNumericSpace(r[0]) && !IsNumericSpace(r[|r| - 1])
  {
    if s != [] && IsNumericSpace(s[0]) then StripSpace(s[1..])
    else if s != [] && IsNumericSpace(s[|s| - 1]) then StripSpace(s[..|s| - 1])
    else s
  }

  /** An exponent suffix: nothing (exponent 0), or `e`/`E`, an optional sign and at least one digit, and nothing after. */
  function Exponent(s: string): Option<int>
  {
    if s == [] then Some(0)
    else if s[0] != 'e' && s[0] != 'E' then None
    else
      var t := s[1..];
      var u := if t != [] && (t[0] == '+' || t[0] == '-') then t[1..] else t;
      if u != [] && DigitRun(u) == |u| then
        Some(if t[0] == '-' then -(DigitsValue(u) as int) else DigitsValue(u))
      else None
  }

  /**
   * What PHP reads from a numeric string. The number is kept exact: minus `negative`, `digits`
   * times ten to the power `exponent`. `whole` is the value of the digits before any decimal
   * point or exponent, and `integral` says the string has neither (PHP's integer form).
   */
  datatype Number = Number(negative: bool, digits: nat, exponent: int, whole: nat, integral: bool)

  /** Two to the power 63: the first magnitude a 64-bit PHP integer cannot hold. */
  const LongLimit: nat := 9223372036854775808

  /** Ten to the power 19: a number with this many digits or more before its point has twenty significant digits. */
  const TwentyDigits: nat := 10000000000000000000

  /** 2^1024 - 2^970: from this magnitude on, a correctly rounded decimal-to-double conversion gives infinity. */
  const DoubleLimit: nat := 179769313486231580793728971405303415079934132710037826936173778980444968292764750946649017977587207096330286416692887910946555547851940402630657488671505820681908902000708383676273854845817711531764475730270069855571366959622842914819860834936475292719074168444365510704342711559699508093042880177904174497792

  /** The two numbers are equal: both zero whatever their signs, or the same sign and the same digits once the exponents are aligned. */
  predicate SameNumber(x: Number, y: Number)
  {
    var low := if x.exponent <= y.exponent then x.exponent else y.exponent;
    (x.digits == 0 && y.digits == 0) ||
    (x.negative == y.negative && x.digits * Pow10(x.exponent - low) == y.digits * Pow10(y.exponent - low))
  }

  /** The number's magnitude is at least `DoubleLimit`, so PHP holds it as an infinite double. */
  predicate Infinite(x: Number)
  {
    if x.exponent >= 0 then x.digits * Pow10(x.exponent) >= DoubleLimit
    else x.digits >= DoubleLimit * Pow10(-x.exponent)
  }

  /** `s` ends with numeric whitespace. */
  predicate TrailingSpace(s: string)
  {
    s != [] && IsNumericSpace(s[|s| - 1])
  }

  /**
   * The side to which PHP's numeric-string reader reports an integer overflow for `s`, read as
   * `x`: 1 above, -1 below, 0 for none. It reports one when twenty or more significant digits
   * come before any decimal point or exponent, and when an integer-form string lies outside the
   * 64-bit range. It checks that range by comparing the digits with those of 2^63 up to the end
   * of the string, so -2^63 followed by whitespace counts as overflowed too.
   */
  function OverflowSide(s: string, x: Number): (side: int)
    ensures -1 <= side <= 1
    ensures side != 0 ==> (side == -1 <==> x.negative)
    ensures x.whole < LongLimit ==> side == 0
  {
    var beyond :=
      if x.integral then x.whole > LongLimit || (x.whole == LongLimit && (!x.negative || TrailingSpace(s)))
      else x.whole >= TwentyDigits;
    if !beyond then 0 else if x.negative then -1 else 1
  }

  /** An unsigned number: digits with at most one decimal point and at least one digit, then an optional exponent. */
  function Unsigned(u: string): Option<Number>
  {
    var i := DigitRun(u);
    if i < |u| && u[i] == '.' then
      var v := u[i + 1..];
      var j := DigitRun(v);
      if i + j == 0 then None
      else
        match Exponent(v[j..])
        case None => None
        case Some(e) => Some(Number(false, DigitsValue(u[..i] + v[..j]), e - j, DigitsValue(u[..i]), false))
    else if i == 0 then None
    else
      match Exponent(u[i..])
      case None => None
      case Some(e) => Some(Number(false, DigitsValue(u[..i]), e, DigitsValue(u[..i]), u[i..] == []))
  }

  /**
   * The value of a PHP 8 numeric string: optional surrounding whitespace, an optional sign and an
   * unsigned number. None for every other string ("12abc", "", "."), which PHP does not compare
   * as a number.
   */
  function NumericValue(s: string): Option<Number>
  {
    var t := StripSpace(s);
    if t != [] && t[0] == '-' then
      match Unsigned(t[1..])
      case None => None
      case Some(x) => Some(x.(negative := true))
    else if t != [] && t[0] == '+' then Unsigned(t[1..])
    else Unsigned(t)
  }

  /**
   * PHP 8's loose `==` on two strings (64-bit build). Unless both are numeric, they are compared
   * character by character. Two numbers that overflowed to the same side, or that are the same
   * infinity, are compared as text as well, because their doubles cannot tell them apart. An
   * overflowed number never equals an in-range integer. Any other pair is compared by value.
   */
  predicate LooseStrEq(a: string, b: string)
  {
    if NumericValue(a).None? || NumericValue(b).None? then a == b
    else
      var x, y := NumericValue(a).value, NumericValue(b).value;
      var p, q := OverflowSide(a, x), OverflowSide(b, y);
      if p != 0 && p == q then a == b
      else if (p != 0 && y.integral && q == 0) || (q != 0 && x.integral && p == 0) then false
      else if Infinite(x) && Infinite(y) && x.negative == y.negative then a == b
      else SameNumber(x, y)
  }

  /** Equal strings are loosely equal, loose equality is symmetric, and a non-numeric string is loosely equal only to itself. */
  lemma LooseStrEqBasics(a: string, b: string)
    ensures a == b ==> LooseStrEq(a, b)
    ensures LooseStrEq(a, b) == LooseStrEq(b, a)
    ensures NumericValue(a).None? ==> (LooseStrEq(a, b) <==> a == b)
  {
    if NumericValue(a).Some? && NumericValue(b).Some? {
      SameNumberSymmetric(NumericValue(a).value, NumericValue(b).value);
    }
  }

  lemma SameNumberSymmetric(x: Number, y: Number)
    ensures SameNumber(x, y) == SameNumber(y, x)
  {
    if x.exponent == y.exponent {
      assert SameNumber(x, y) <==> (x.digits == 0 && y.digits == 0) || (x.negative == y.negative && x.digits * Pow10(0) == y.digits * Pow10(0));
    }
  }

  /** A string of digits alone is an integer-form numeric string with the digits' value. */
  lemma DigitStringValue(s: string)
    requires s != [] && AllDigits(s)
    ensures NumericValue(s) == Some(Number(false, DigitsValue(s), 0, DigitsValue(s), true))
  {
    assert IsDigit(s[0]) && IsDigit(s[|s| - 1]);
    assert StripSpace(s) == s;
    assert DigitRun(s) == |s|;
    assert Exponent(s[|s|..]) == Some(0) by {
      assert s[|s|..] == [];
    }
    assert s[..|s|] == s;
  }

  /** Every character of `s` is a digit. */
  predicate AllDigits(s: string)
  {
    forall k :: 0 <= k < |s| ==> IsDigit(s[k])
  }

  /** Zeros in front of digits do not change their value. */
  lemma {:induction false} ZerosInFront(z: string, s: string)
    requires forall k :: 0 <= k < |z| ==> z[k] == '0'
    requires AllDigits(s)
    ensures AllDigits(z + s)
    ensures DigitsValue(z + s) == DigitsValue(s)
    decreases |z| + |s|
  {
    var w := z + s;
    assert AllDigits(w) by {
      assert forall k :: 0 <= k < |w| ==> w[k] == if k < |z| then z[k] else s[k - |z|];
    }
    if s == [] {
      if z != [] {
        assert w[..|w| - 1] == z[..|z| - 1] + [];
        ZerosInFront(z[..|z| - 1], []);
      }
    } else {
      assert w[..|w| - 1] == z + s[..|s| - 1];
      ZerosInFront(z, s[..|s| - 1]);
    }
  }

  /**
   * Zeros in front of a digit string leave it loosely equal to the bare digits exactly when there
   * are none or the number fits a 64-bit integer: past 2^63 both overflow upwards and PHP
   * compares the text ("09223372036854775808" and "9223372036854775808" differ).
   */
  lemma LeadingZerosLooselyEqual(z: string, s: string)
    requires forall k :: 0 <= k < |z| ==> z[k] == '0'
    requires s != [] && AllDigits(s)
    ensures LooseStrEq(z + s, s) <==> z == [] || DigitsValue(s) < LongLimit
  {
    ZerosInFront(z, s);
    DigitStringValue(z + s);
    DigitStringValue(s);
    assert IsDigit((z + s)[|z + s| - 1]) && IsDigit(s[|s| - 1]);
    IntegersLooselyEqual(z + s, s, DigitsValue(s), DigitsValue(s));
    if z != [] {
      assert |z + s| != |s|;
    }
  }

  /** Two integer-form strings without trailing whitespace: text past 2^63 on both sides, value otherwise. */
  lemma IntegersLooselyEqual(a: string, b: string, v: nat, w: nat)
    requires NumericValue(a) == Some(Number(false, v, 0, v, true)) && !TrailingSpace(a)
    requires NumericValue(b) == Some(Number(false, w, 0, w, true)) && !TrailingSpace(b)
    ensures LooseStrEq(a, b) <==> if v >= LongLimit && w >= LongLimit then a == b else v == w
  {
    assert Pow10(0) == 1;
  }

  /** A run of digits followed by more characters starts with that run. */
  lemma {:induction false} DigitRunPrefix(s: string, t: string)
    requires AllDigits(s)
    ensures DigitRun(s + t) == |s| + DigitRun(t)
    decreases |s|
  {
    if s != [] {
      assert (s + t)[1..] == s[1..] + t;
      DigitRunPrefix(s[1..], t);
    } else {
      assert s + t == t;
    }
  }

  /** `e` and digits make an exponent of the digits' value. */
  lemma ExponentDigits(k: string)
    requires k != [] && AllDigits(k)
    ensures Exponent("e" + k) == Some(DigitsValue(k) as int)
  {
    assert ("e" + k)[1..] == k;
    assert DigitRun(k) == |k|;
  }

  /** Digits, `e` and digits make an unsigned number with the first digits as mantissa and the second as exponent. */
  lemma UnsignedExponentForm(s: string, k: string)
    requires s != [] && AllDigits(s)
    requires k != [] && AllDigits(k)
    ensures Unsigned(s + ("e" + k)) == Some(Number(false, DigitsValue(s), DigitsValue(k), DigitsValue(s), false))
  {
    var u := s + ("e" + k);
    DigitRunPrefix(s, "e" + k);
    assert DigitRun("e" + k) == 0;
    assert u[..|s|] == s && u[|s|..] == "e" + k;
    ExponentDigits(k);
  }

  /** Digits, `e` and digits are numeric, with the first digits as mantissa and the second as exponent. */
  lemma ExponentForm(s: string, k: string)
    requires s != [] && AllDigits(s)
    requires k != [] && AllDigits(k)
    ensures NumericValue(s + "e" + k) == Some(Number(false, DigitsValue(s), DigitsValue(k), DigitsValue(s), false))
  {
    var u := s + ("e" + k);
    assert u == s + "e" + k;
    assert u[0] == s[0] && u[|u| - 1] == k[|k| - 1];
    assert StripSpace(u) == u;
    UnsignedExponentForm(s, k);
  }

  /**
   * A zero in front of a number in exponent form leaves it loosely equal to itself without the
   * zero exactly when the number has fewer than twenty digits before its exponent and is finite
   * as a double; otherwise PHP compares the text and the two differ.
   */
  lemma ZeroBeforeExponentForm(s: string, k: string)
    requires s != [] && AllDigits(s)
    requires k != [] && AllDigits(k)
    ensures LooseStrEq("0" + s + "e" + k, s + "e" + k) <==>
              DigitsValue(s) < TwentyDigits && DigitsValue(s) * Pow10(DigitsValue(k)) < DoubleLimit
  {
    ZerosInFront("0", s);
    ExponentForm("0" + s, k);
    ExponentForm(s, k);
    assert |"0" + s + "e" + k| != |s + "e" + k|;
  }

  /** "1e3" reads as one times ten to the third, in float form. */
  lemma OneEThree()
    ensures NumericValue("1e3") == Some(Number(false, 1, 3, 1, false))
  {
    ExponentForm("1", "3");
    assert "1" + "e" + "3" == "1e3";
    assert DigitsValue("3") == 3 && DigitsValue("1") == 1 by {
      assert "3"[..0] == [] && "1"[..0] == [];
    }
  }

  /** "1000" reads as the integer 1000. */
  lemma OneThousand()
    ensures NumericValue("1000") == Some(Number(false, 1000, 0, 1000, true))
  {
    var s := "1000";
    assert s[..3] == "100" && "100"[..2] == "10" && "10"[..1] == "1" && "1"[..0] == "";
    assert DigitsValue("1") == 1;
    assert DigitsValue("10") == 10;
    assert DigitsValue("100") == 100;
    assert DigitsValue(s) == 1000;
    DigitStringValue(s);
  }

  /** The two readings are the same number, neither overflowed nor infinite. */
  lemma ThousandsAgree(x: Number, y: Number)
    requires x == Number(false, 1, 3, 1, false) && y == Number(false, 1000, 0, 1000, true)
    ensures OverflowSide("1e3", x) == 0 && OverflowSide("1000", y) == 0
    ensures !Infinite(x) && !Infinite(y) && SameNumber(x, y)
  {
    assert Pow10(3) == 1000 && Pow10(0) == 1;
  }

  /** An exponent spells the same number as the digits it stands for: "1e3" and "1000" are loosely equal. */
  lemma ExponentLooselyEqual()
    ensures LooseStrEq("1e3", "1000")
  {
    OneEThree();
    OneThousand();
    ThousandsAgree(NumericValue("1e3").value, NumericValue("1000").value);
  }

  /** A string with anything after its number is not numeric, so it is compared as text. */
  lemma TrailingTextNotNumeric()
    ensures NumericValue("12abc").None?
    ensures !LooseStrEq("12abc", "12")
  {
    var u := "12abc";
    assert StripSpace(u) == u;
    assert DigitRun(u) == 2 by {
      assert u[1..] == "2abc" && "2abc"[1..] == "abc";
    }
    assert u[2..] == "abc";
  }

  /** PHP's `implode(sep, parts)`. */
  function Join(parts: seq<string>, sep: string): (r: string)
    ensures parts == [] ==> r == ""
    ensures |parts| == 1 ==> r == parts[0]
  {
    if parts == [] then ""
    else if |parts| == 1 then parts[0]
    else parts[0] + sep + Join(parts[1..], sep)
  }

  /** Position `j` holds the first occurrence of its key. */
  predicate FirstAt<T(==)>(keys: seq<T>, j: int)
    requires 0 <= j < |keys|
  {
    forall k :: 0 <= k < j ==> keys[k] != keys[j]
  }

  /**
   * The positions below `n` that hold the first occurrence of their key, in increasing order:
   * what a loop that keeps a row only when its key has not been seen yet keeps.
   */
  function FirstPositions<T(==)>(keys: seq<T>, n: nat): (ps: seq<nat>)
    requires n <= |keys|
    ensures |ps| <= n
    ensures forall k :: 0 <= k < |ps| ==> ps[k] < n && FirstAt(keys, ps[k])
    ensures forall k, l :: 0 <= k < l < |ps| ==> ps[k] < ps[l]
    ensures forall j :: 0 <= j < n && FirstAt(keys, j) ==> j in ps
  {
    if n == 0 then []
    else FirstPositions(keys, n - 1) + (if FirstAt(keys, n - 1) then [n - 1] else [])
  }

  /** The kept positions hold pairwise different keys. */
  lemma FirstPositionsDistinct<T>(keys: seq<T>, n: nat)
    requires n <= |keys|
    ensures var ps := FirstPositions(keys, n);
            forall k, l :: 0 <= k < l < |ps| ==> keys[ps[k]] != keys[ps[l]]
  {
    var ps := FirstPositions(keys, n);
    forall k, l | 0 <= k < l < |ps|
      ensures keys[ps[k]] != keys[ps[l]]
    {
      assert FirstAt(keys, ps[l]);
    }
  }

  /** Every key below `n` is kept, at the position of its first occurrence. */
  lemma {:induction false} FirstPositionsCover<T>(keys: seq<T>, n: nat, j: nat)
    requires j < n <= |keys|
    ensures exists k :: 0 <= k < |FirstPositions(keys, n)| && keys[FirstPositions(keys, n)[k]] == keys[j]
    decreases j
  {
    var ps := FirstPositions(keys, n);
    if FirstAt(keys, j) {
      var k :| 0 <= k < |ps| && ps[k] == j;
    } else {
      var i :| 0 <= i < j && keys[i] == keys[j];
      FirstPositionsCover(keys, n, i);
    }
  }

  /** When no key repeats, every position is kept. */
  lemma {:induction false} FirstPositionsAll<T>(keys: seq<T>, n: nat)
    requires n <= |keys|
    requires forall i, j :: 0 <= i < j < |keys| ==> keys[i] != keys[j]
    ensures |FirstPositions(keys, n)| == n
    ensures forall k :: 0 <= k < n ==> FirstPositions(keys, n)[k] == k
  {
    if n > 0 {
      FirstPositionsAll(keys, n - 1);
      assert FirstAt(keys, n - 1);
    }
  }

  /** Position `i` is added exactly when its key is not among those before it. */
  lemma FirstPositionsStep<T>(keys: seq<T>, i: nat)
    requires i < |keys|
    ensures keys[i] !in keys[..i] ==> FirstPositions(keys, i + 1) == FirstPositions(keys, i) + [i]
    ensures keys[i] in keys[..i] ==> FirstPositions(keys, i + 1) == FirstPositions(keys, i)
  {
    if keys[i] in keys[..i] {
      var j :| 0 <= j < i && keys[..i][j] == keys[i];
      assert !FirstAt(keys, i);
    } else {
      assert FirstAt(keys, i);
    }
  }

  /** Extending a prefix by one position. */
  lemma PrefixStep<T>(keys: seq<T>, i: nat)
    requires i < |keys|
    ensures keys[..i + 1] == keys[..i] + [keys[i]]
  {
  }
}
