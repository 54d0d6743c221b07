/**
 * The values of a decoded JSON request body as PHP sees them, and the few PHP
 * primitives the validation rules and the prompt template apply to them:
 * `empty()`, `trim()`, `is_numeric()`, `filter_var(..., FILTER_VALIDATE_INT)`
 * and string interpolation.
 */
module PhpValues {
  import opened Wrappers

  /**
   * A request value.  JSON arrays and objects are only ever counted or rejected
   * by the rules in use, so `Arr` keeps just the number of entries.
   */
  datatype Value = Null | Bool(b: bool) | Int(i: int) | Float(r: real) | Str(s: string) | Arr(count: nat)

  const PhpIntMax: int := 9223372036854775807
  const PhpIntMin: int := -9223372036854775808

  /** PHP's `empty()` on a string: the empty string and "0" are both empty. */
  predicate EmptyString(s: string)
  {
    s == "" || s == "0"
  }

  /** The characters `trim()` removes by default. */
  const TrimChars: set<char> := {' ', '\t', '\n', '\r', '\0', '\U{000B}'}
  /** The white space `is_numeric()` allows before and after the number. */
  const NumericSpace: set<char> := {' ', '\t', '\n', '\r', '\U{000B}', '\U{000C}'}
  /** The white space FILTER_VALIDATE_INT trims before parsing. */
  const FilterSpace: set<char> := {' ', '\t', '\r', '\U{000B}', '\n'}

  predicate AllIn(s: string, cs: set<char>)
  {
    forall k :: 0 <= k < |s| ==> s[k] in cs
  }

  /** `trim(s) === ''`. */
  predicate Blank(s: string)
  {
    AllIn(s, TrimChars)
  }

  predicate IsDigit(c: char)
  {
    '0' <= c <= '9'
  }

  predicate AllDigits(s: string)
  {
    forall k :: 0 <= k < |s| ==> IsDigit(s[k])
  }

  /** `s` without its leading characters from `cs`. */
  function DropLeading(s: string, cs: set<char>): (r: string)
    ensures |r| <= |s| && r == s[|s| - |r|..]
    ensures forall k :: 0 <= k < |s| - |r| ==> s[k] in cs
    ensures r == [] || r[0] !in cs
  {
    if s == [] || s[0] !in cs then s
    else
      var r := DropLeading(s[1..], cs);
      assert forall k :: 0 < k < |s| ==> s[1..][k - 1] == s[k];
      r
  }

  /** `s` without its trailing characters from `cs`. */
  function DropTrailing(s: string, cs: set<char>): (r: string)
    ensures |r| <= |s| && r == s[..|r|]
    ensures forall k :: |r| <= k < |s| ==> s[k] in cs
    ensures r == [] || r[|r| - 1] !in cs
  {
    if s == [] || s[|s| - 1] !in cs then s
    else
      var r := DropTrailing(s[..|s| - 1], cs);
      r
  }

  /** The first position in `s` holding a character of `cs`, or `|s|` when there is none. */
  function IndexOf(s: string, cs: set<char>): (i: nat)
    ensures i <= |s|
    ensures i < |s| ==> s[i] in cs
    ensures forall k :: 0 <= k < i ==> s[k] !in cs
  {
    if s == [] then 0
    else if s[0] in cs then 0
    else 1 + IndexOf(s[1..], cs)
  }

  /** `s` without one leading `+` or `-`. */
  function Unsigned(s: string): string
  {
    if |s| > 0 && (s[0] == '+' || s[0] == '-') then s[1..] else s
  }

  /** PHP's LNUM and DNUM: digits with at most one decimal point, and at least one digit. */
  predicate DecimalNumeral(m: string)
  {
    var dot := IndexOf(m, {'.'});
    if dot == |m| then |m| > 0 && AllDigits(m)
    else AllDigits(m[..dot]) && AllDigits(m[dot + 1..]) && |m| > 1
  }

  /** A numeral with an optional sign and an optional exponent, and no surrounding space. */
  predicate NumericBody(t: string)
  {
    var u := Unsigned(t);
    var e := IndexOf(u, {'e', 'E'});
    DecimalNumeral(u[..e]) &&
    (e == |u| || (|Unsigned(u[e + 1..])| > 0 && AllDigits(Unsigned(u[e + 1..]))))
  }

  /** PHP 8's `is_numeric()` on a string: white space, a numeral, white space. */
  predicate IsNumericString(s: string)
  {
    NumericBody(DropTrailing(DropLeading(s, NumericSpace), NumericSpace))
  }

  /** The value of a string of decimal digits. */
  function DigitsValue(s: string): (n: nat)
    requires AllDigits(s)
  {
    if s == [] then 0
    else DigitsValue(s[..|s| - 1]) * 10 + (s[|s| - 1] as int - '0' as int)
  }

  /**
   * `filter_var(s, FILTER_VALIDATE_INT)` on a string: after trimming its white
   * space, an optional sign and then "0" or a digit string without a leading
   * zero, whose value fits PHP's 64-bit integer.
   */
  function FilterInt(s: string): (r: Option<int>)
    ensures r.Some? ==> PhpIntMin <= r.value <= PhpIntMax
  {
    ParseInt(DropTrailing(DropLeading(s, FilterSpace), FilterSpace))
  }

  /** The integer FILTER_VALIDATE_INT reads from an already trimmed string. */
  function ParseInt(t: string): (r: Option<int>)
    ensures r.Some? ==> PhpIntMin <= r.value <= PhpIntMax
  {
    var d := Unsigned(t);
    if |d| == 0 || !AllDigits(d) || (d[0] == '0' && |d| > 1) then None
    else
      var n: int := if |t| > 0 && t[0] == '-' then -(DigitsValue(d) as int) else DigitsValue(d);
      if PhpIntMin <= n <= PhpIntMax then Some(n) else None
  }

  /** The decimal digits of a natural number, most significant first, no leading zero. */
  function NatString(n: nat): (s: string)
    ensures |s| > 0 && AllDigits(s)
    ensures (s[0] == '0') == (n == 0)
    ensures |s| == 1 <==> n < 10
  {
    if n < 10 then [('0' as int + n) as char]
    else NatString(n / 10) + [('0' as int + n % 10) as char]
  }

  /** PHP's string form of an integer. */
  function IntString(n: int): string
  {
    if n < 0 then "-" + NatString(-n) else NatString(n)
  }

  /**
   * A float PHP prints as a plain integer: integral and below 10^14 in
   * magnitude, so that its 14 significant digits show no exponent.
   */
  predicate PlainIntegralFloat(r: real)
  {
    r == r.Floor as real && -100000000000000.0 < r < 100000000000000.0
  }

  /** A value that string interpolation turns into text without a warning or a fraction. */
  predicate Printable(v: Value)
  {
    match v
    case Arr(_) => false
    case Float(r) => PlainIntegralFloat(r)
    case _ => true
  }

  /**
   * `"{$v}"`.  Floats are rendered only when PHP prints them as an integer;
   * an array would raise "Array to string conversion".
   */
  function Interpolate(v: Value): string
    requires Printable(v)
  {
    match v
    case Null => ""
    case Bool(b) => if b then "1" else ""
    case Int(i) => IntString(i)
    case Float(r) => IntString(r.Floor)
    case Str(s) => s
  }

  // ---------------------------------------------------------------------------
  // Round trips between the numerals and their values.

  lemma {:induction false} DigitsValueOfNatString(n: nat)
    ensures DigitsValue(NatString(n)) == n
  {
    if n >= 10 {
      var s := NatString(n);
      DigitsValueOfNatString(n / 10);
      assert s[..|s| - 1] == NatString(n / 10);
    }
  }

  lemma DropNothing(s: string, cs: set<char>)
    requires s == [] || (s[0] !in cs && s[|s| - 1] !in cs)
    ensures DropTrailing(DropLeading(s, cs), cs) == s
  {
  }

  /** FILTER_VALIDATE_INT reads back every integer PHP prints. */
  lemma FilterIntOfIntString(n: int)
    requires PhpIntMin <= n <= PhpIntMax
    ensures FilterInt(IntString(n)) == Some(n)
  {
    IntStringEnds(n);
    DropNothing(IntString(n), FilterSpace);
    ParseIntOfIntString(n);
  }

  /** PHP's integer text starts with a sign or a digit and ends with a digit. */
  lemma IntStringEnds(n: int)
    ensures var s := IntString(n); s != [] && (s[0] == '-' || IsDigit(s[0])) && IsDigit(s[|s| - 1])
  {
    var m: nat := if n < 0 then -n else n;
    var d := NatString(m);
    assert IsDigit(d[0]) && IsDigit(d[|d| - 1]);
  }

  lemma ParseIntOfIntString(n: int)
    requires PhpIntMin <= n <= PhpIntMax
    ensures ParseInt(IntString(n)) == Some(n)
  {
    var s := IntString(n);
    var m: nat := if n < 0 then -n else n;
    DigitsValueOfNatString(m);
    assert Unsigned(s) == NatString(m);
  }

  /**
   * A string FILTER_VALIDATE_INT accepts is also numeric to `is_numeric()`,
   * so a size rule compares its integer value and not its length.
   */
  lemma FilterIntIsNumeric(s: string)
    requires FilterInt(s).Some?
    ensures IsNumericString(s)
  {
    var t := DropTrailing(DropLeading(s, FilterSpace), FilterSpace);
    ParseIntIsNumericBody(t);
    DropBothSides(s, t, FilterSpace, NumericSpace);
  }

  lemma ParseIntIsNumericBody(t: string)
    requires ParseInt(t).Some?
    ensures t != [] && t[0] !in NumericSpace && t[|t| - 1] !in NumericSpace
    ensures NumericBody(t)
  {
    var d := Unsigned(t);
    assert |d| > 0 && AllDigits(d);
    assert IsDigit(d[0]) && IsDigit(d[|d| - 1]);
    assert t[|t| - 1] == d[|d| - 1];
    var e := IndexOf(d, {'e', 'E'});
    assert e == |d|;
    assert IndexOf(d, {'.'}) == |d|;
    assert d[..e] == d;
  }

  /** Trimming a narrower set of characters leaves nothing the wider trim would keep. */
  lemma DropBothSides(s: string, t: string, narrow: set<char>, wide: set<char>)
    requires narrow <= wide
    requires t == DropTrailing(DropLeading(s, narrow), narrow)
    requires t != [] && t[0] !in wide && t[|t| - 1] !in wide
    ensures DropTrailing(DropLeading(s, wide), wide) == t
  {
    var l := DropLeading(s, narrow);
    assert t == l[..|t|];
    assert l != [] && l[0] == t[0];
    LeadingWider(s, narrow, wide);
    TrailingWider(l, narrow, wide);
  }

  lemma LeadingWider(s: string, narrow: set<char>, wide: set<char>)
    requires narrow <= wide
    requires DropLeading(s, narrow) != [] && DropLeading(s, narrow)[0] !in wide
    ensures DropLeading(s, wide) == DropLeading(s, narrow)
  {
    var l := DropLeading(s, narrow);
    var i := |s| - |l|;
    DropLeadingAt(s, wide, i);
  }

  lemma TrailingWider(l: string, narrow: set<char>, wide: set<char>)
    requires narrow <= wide
    requires DropTrailing(l, narrow) != [] && DropTrailing(l, narrow)[|DropTrailing(l, narrow)| - 1] !in wide
    ensures DropTrailing(l, wide) == DropTrailing(l, narrow)
  {
    var t := DropTrailing(l, narrow);
    DropTrailingAt(l, wide, |t|);
  }

  /** `DropLeading` cuts at the first position whose character is not in `cs`. */
  lemma {:induction false} DropLeadingAt(s: string, cs: set<char>, i: nat)
    requires i <= |s|
    requires forall k :: 0 <= k < i ==> s[k] in cs
    requires i == |s| || s[i] !in cs
    ensures DropLeading(s, cs) == s[i..]
  {
    if i > 0 {
      var t := s[1..];
      forall k | 0 <= k < i - 1 ensures t[k] in cs {
        assert t[k] == s[k + 1];
      }
      assert i - 1 == |t| || t[i - 1] == s[i];
      DropLeadingAt(t, cs, i - 1);
      assert t[i - 1..] == s[i..];
    }
  }

  /** `DropTrailing` cuts after the last position whose character is not in `cs`. */
  lemma {:induction false} DropTrailingAt(s: string, cs: set<char>, j: nat)
    requires j <= |s|
    requires forall k :: j <= k < |s| ==> s[k] in cs
    requires j == 0 || s[j - 1] !in cs
    ensures DropTrailing(s, cs) == s[..j]
  {
    if j < |s| {
      var t := s[..|s| - 1];
      forall k | j <= k < |t| ensures t[k] in cs {
        assert t[k] == s[k];
      }
      assert j == 0 || t[j - 1] == s[j - 1];
      DropTrailingAt(t, cs, j);
      assert t[..j] == s[..j];
    }
  }
}
