/** Values carried by chain nodes, JavaScript's comparisons on them, and their decimal rendering. */
module Values {

  /** What a chain node holds. `Int` stands for a JavaScript number holding an integer (and for
      the decimal string `toString` makes of one, which every comparison with a number turns
      back into that number); `Text` stands for a string that `isNaN` rejects as a number.
      Nothing in the type enforces that: a `Text` whose string JavaScript reads as a number
      (`"5"`, `""`, `"Infinity"`) lies outside the model, which treats it as non-numeric. */
  datatype Val = Int(n: int) | Text(s: string)

  /** JavaScript's `a < b` on two strings: element by element, a proper prefix first. */
  predicate StrLess(a: string, b: string)
    ensures StrLess(a, b) ==> a != b
  {
    if a == [] then b != []
    else if b == [] then false
    else a[0] < b[0] || (a[0] == b[0] && StrLess(a[1..], b[1..]))
  }

  /** A proper prefix of a string is less than it. */
  lemma {:induction false} StrLessPrefix(a: string, b: string)
    requires |a| < |b| && a == b[..|a|]
    ensures StrLess(a, b)
  {
    if a != [] {
      assert a[0] == b[0];
      assert a[1..] == b[1..][..|a| - 1];
      StrLessPrefix(a[1..], b[1..]);
    }
  }

  lemma {:induction false} StrLessAsymmetric(a: string, b: string)
    ensures !(StrLess(a, b) && StrLess(b, a))
  {
    if a != [] && b != [] && a[0] == b[0] {
      StrLessAsymmetric(a[1..], b[1..]);
    }
  }

  /** Two different strings are always ordered one way or the other. */
  lemma {:induction false} StrLessTotal(a: string, b: string)
    ensures a == b || StrLess(a, b) || StrLess(b, a)
  {
    if a != [] && b != [] && a[0] == b[0] {
      StrLessTotal(a[1..], b[1..]);
      if a[1..] == b[1..] {
        assert a == [a[0]] + a[1..] && b == [b[0]] + b[1..];
      }
    }
  }

  /** JavaScript's `a < b`: numbers by value, strings by `StrLess`; a number against a
      non-numeric string compares against NaN and is false. */
  predicate Less(a: Val, b: Val)
    ensures Less(a, b) ==> a != b && a.Int? == b.Int?
  {
    match (a, b)
    case (Int(x), Int(y)) => x < y
    case (Text(s), Text(t)) => StrLess(s, t)
    case _ => false
  }

  /** JavaScript's `a <= b`, which is `!(b < a)` unless one side is NaN. */
  predicate LessOrEqual(a: Val, b: Val)
    ensures a == b ==> LessOrEqual(a, b)
    ensures a.Int? != b.Int? ==> !LessOrEqual(a, b)
  {
    match (a, b)
    case (Int(x), Int(y)) => x <= y
    case (Text(s), Text(t)) => !StrLess(t, s)
    case _ => false
  }

  /** On values of the same kind `<=` is "less or equal"; across kinds both are false. */
  lemma LessOrEqualMeaning(a: Val, b: Val)
    ensures LessOrEqual(a, b) <==> Less(a, b) || (a == b && a.Int? == b.Int?)
    ensures a.Int? != b.Int? ==> !LessOrEqual(a, b) && !Less(a, b)
  {
    if a.Text? && b.Text? {
      StrLessTotal(a.s, b.s);
      StrLessAsymmetric(a.s, b.s);
    }
  }

  /** The six comparison symbols the engine recognises. */
  predicate IsCondition(condition: string)
  {
    condition == "==" || condition == "!=" || condition == "<" ||
    condition == ">" || condition == "<=" || condition == ">="
  }

  /** `a condition b` for the six comparison symbols, as JavaScript evaluates them on the
      modelled values (loose `==` and `!=` never equate a number with a non-numeric string);
      any other symbol selects no comparison and yields false. */
  predicate Compare(condition: string, a: Val, b: Val)
    // the strict comparisons never hold between equal values
    ensures Compare(condition, a, b) && (condition == "<" || condition == ">") ==> a != b
    // the comparisons that admit equality hold between equal values
    ensures a == b && (condition == "==" || condition == "<=" || condition == ">=") ==> Compare(condition, a, b)
    // a number and a non-numeric string satisfy `!=` and nothing else
    ensures a.Int? != b.Int? ==> (Compare(condition, a, b) <==> condition == "!=")
    ensures !IsCondition(condition) ==> !Compare(condition, a, b)
  {
    if condition == "==" then a == b
    else if condition == "!=" then a != b
    else if condition == "<" then Less(a, b)
    else if condition == ">" then Less(b, a)
    else if condition == "<=" then LessOrEqual(a, b)
    else if condition == ">=" then LessOrEqual(b, a)
    else false
  }

  predicate IsDigit(c: char) { '0' <= c <= '9' }

  function DigitChar(d: nat): (c: char)
    requires d < 10
    ensures IsDigit(c) && c as int - '0' as int == d
  {
    ('0' as int + d) as char
  }

  /** `Number.prototype.toString` on a non-negative integer: its decimal digits, with no
      leading zero. */
  function NatToString(n: nat): (r: string)
    ensures r != [] && forall i | 0 <= i < |r| :: IsDigit(r[i])
    ensures r[0] == '0' <==> n == 0
    decreases n
  {
    if n < 10 then [DigitChar(n)] else NatToString(n / 10) + [DigitChar(n % 10)]
  }

  /** An optionally signed string of decimal digits. */
  predicate IsNumeral(s: string)
  {
    s != [] && (s[0] == '-' || IsDigit(s[0])) && forall i | 1 <= i < |s| :: IsDigit(s[i])
  }

  /** `Number.prototype.toString` on an integer: a numeral with a leading `-` exactly when the
      integer is negative, and no leading zero (so no `-0` either). */
  function IntToString(n: int): (r: string)
    ensures IsNumeral(r)
    ensures r[0] == '-' <==> n < 0
    ensures r[0] != '-' ==> (r[0] == '0' <==> n == 0)
    ensures r[0] == '-' ==> |r| >= 2 && r[1] != '0'
    ensures n == 0 ==> r == "0"
  {
    if n < 0 then "-" + NatToString(-n) else NatToString(n)
  }

  /** The number a string of decimal digits denotes. */
  function DigitsValue(s: string): nat
    requires forall i | 0 <= i < |s| :: IsDigit(s[i])
  {
    if s == [] then 0
    else
      assert IsDigit(s[|s| - 1]);
      DigitsValue(s[..|s| - 1]) * 10 + (s[|s| - 1] as int - '0' as int)
  }

  /** Reads back an optionally signed decimal numeral (`parseInt` on a well-formed one). */
  function ParseDecimal(s: string): int
    requires IsNumeral(s)
  {
    if s[0] == '-' then -(DigitsValue(s[1..]) as int) else DigitsValue(s)
  }

  lemma {:induction false} NatToStringRoundTrip(n: nat)
    ensures DigitsValue(NatToString(n)) == n
    decreases n
  {
    if n >= 10 {
      NatToStringRoundTrip(n / 10);
      var r := NatToString(n);
      assert r[..|r| - 1] == NatToString(n / 10);
    }
  }

  /** Reading back the decimal text of an integer gives the integer: the boundary value that
      `toString` writes out is the number a later comparison reads. */
  lemma DecimalRoundTrip(n: int)
    ensures ParseDecimal(IntToString(n)) == n
  {
    if n < 0 {
      NatToStringRoundTrip(-n);
      assert IntToString(n)[1..] == NatToString(-n);
    } else {
      NatToStringRoundTrip(n);
    }
  }

  /** The text `${v}` gives for a node's value: a string as it is, a number as the numeral
      that reads back as it. */
  function RenderValue(v: Val): (r: string)
    ensures v.Text? ==> r == v.s
    ensures v.Int? ==> IsNumeral(r) && ParseDecimal(r) == v.n
  {
    match v
    case Int(n) => DecimalRoundTrip(n); IntToString(n)
    case Text(s) => s
  }
}
