/**
 * The few pieces of JavaScript and lodash 3 value semantics the hot map relies on:
 * whitespace trimming (`_.trim`), `parseInt` with no radix, number-to-string
 * conversion, strict equality (`===`, also used by `indexOf`), string comparison
 * and substring search.
 */
module JsValues {

  /** A spreadsheet cell value as the hot map sees it: the raw text read from the
      sheet, or a number produced by `parseInt` (which may be NaN). */
  datatype Value = Str(s: string) | Num(n: int) | NaN

  /** A value that may be absent (JavaScript `undefined`). */
  datatype Option<T> = None | Some(value: T)

  /** The characters `_.trim` (lodash 3) and `parseInt` skip as white space. */
  predicate IsSpace(c: char)
  {
    var n := c as int;
    (9 <= n <= 13) || n == 32 || n == 160 || n == 5760 || n == 6158 ||
    (8192 <= n <= 8202) || n == 8232 || n == 8233 || n == 8239 || n == 8287 ||
    n == 12288 || n == 65279
  }

  /** Drops leading white space. */
  function TrimLeft(s: string): (r: string)
    ensures |r| <= |s|
    ensures r == [] || !IsSpace(r[0])
  {
    if s != [] && IsSpace(s[0]) then TrimLeft(s[1..]) else s
  }

  /** What `TrimLeft` keeps is a suffix of its argument. */
  lemma {:induction false} TrimLeftSuffix(s: string)
    ensures TrimLeft(s) == s[|s| - |TrimLeft(s)|..]
  {
    if s != [] && IsSpace(s[0]) {
      TrimLeftSuffix(s[1..]);
      assert s[1..][|s| - 1 - |TrimLeft(s)|..] == s[|s| - |TrimLeft(s)|..];
    }
  }

  /** Drops trailing white space. */
  function TrimRight(s: string): (r: string)
    ensures |r| <= |s|
    ensures r == [] || !IsSpace(r[|r| - 1])
  {
    if s != [] && IsSpace(s[|s| - 1]) then TrimRight(s[..|s| - 1]) else s
  }

  /** What `TrimRight` keeps is a prefix of its argument. */
  lemma {:induction false} TrimRightPrefix(s: string)
    ensures TrimRight(s) == s[..|TrimRight(s)|]
  {
    if s != [] && IsSpace(s[|s| - 1]) {
      TrimRightPrefix(s[..|s| - 1]);
      assert s[..|s| - 1][..|TrimRight(s)|] == s[..|TrimRight(s)|];
    }
  }

  /** `_.trim(s)`: the text between the first and the last non-space character. */
  function Trim(s: string): string
  {
    TrimRight(TrimLeft(s))
  }

  /** A string `Trim` leaves as it is. */
  predicate Trimmed(s: string)
  {
    s == [] || (!IsSpace(s[0]) && !IsSpace(s[|s| - 1]))
  }

  /** `t` occurs in `s` starting at index `i`. */
  predicate InfixAt(s: string, t: string, i: int)
  {
    0 <= i <= |s| - |t| && s[i..i + |t|] == t
  }

  /** `Trim` cuts an infix out of its argument. */
  lemma TrimInfix(s: string)
    ensures exists i :: InfixAt(s, Trim(s), i)
  {
    var l := TrimLeft(s);
    var r := TrimRight(l);
    var i := |s| - |l|;
    TrimLeftSuffix(s);
    TrimRightPrefix(l);
    assert l == s[i..] && r == l[..|r|];
    assert s[i..i + |r|] == s[i..][..|r|];
    assert InfixAt(s, r, i);
    assert Trim(s) == r;
  }

  /** `Trim` leaves a trimmed string. */
  lemma TrimTrimmed(s: string)
    ensures Trimmed(Trim(s))
  {
    var l := TrimLeft(s);
    var r := TrimRight(l);
    if r != [] {
      TrimRightPrefix(l);
      assert r[0] == l[0];
    }
  }

  /** Trimming twice is trimming once. */
  lemma TrimIdempotent(s: string)
    ensures Trim(Trim(s)) == Trim(s)
  {
    TrimTrimmed(s);
    TrimmedFixed(Trim(s));
  }

  lemma TrimmedFixed(s: string)
    requires Trimmed(s)
    ensures Trim(s) == s
  {
    assert TrimLeft(s) == s;
  }

  // ---------------------------------------------------------------------------
  // Number <-> text

  predicate IsDecimalDigit(c: char) { '0' <= c <= '9' }

  /** The value of `c` as a digit in `radix` (10 or 16), or -1 when it is not one. */
  function DigitValue(c: char, radix: int): (d: int)
    ensures radix == 10 ==> (d >= 0 <==> IsDecimalDigit(c))
  {
    if '0' <= c <= '9' && (c as int) - ('0' as int) < radix then (c as int) - ('0' as int)
    else if radix == 16 && 'a' <= c <= 'f' then (c as int) - ('a' as int) + 10
    else if radix == 16 && 'A' <= c <= 'F' then (c as int) - ('A' as int) + 10
    else -1
  }

  /** The longest prefix of `s` made of digits of `radix`. */
  function DigitPrefix(s: string, radix: int): (z: string)
    ensures |z| <= |s|
    ensures forall i :: 0 <= i < |z| ==> DigitValue(z[i], radix) >= 0
    ensures |z| < |s| ==> DigitValue(s[|z|], radix) < 0
  {
    if s != [] && DigitValue(s[0], radix) >= 0 then [s[0]] + DigitPrefix(s[1..], radix) else []
  }

  /** What `DigitPrefix` reads is a prefix of its argument. */
  lemma {:induction false} DigitPrefixIsPrefix(s: string, radix: int)
    ensures DigitPrefix(s, radix) == s[..|DigitPrefix(s, radix)|]
  {
    if s != [] && DigitValue(s[0], radix) >= 0 {
      DigitPrefixIsPrefix(s[1..], radix);
    }
  }

  /** The number a digit string denotes in `radix`. */
  function DigitsValue(z: string, radix: int): int
    requires forall i :: 0 <= i < |z| ==> DigitValue(z[i], radix) >= 0
  {
    if z == [] then 0 else DigitsValue(z[..|z| - 1], radix) * radix + DigitValue(z[|z| - 1], radix)
  }

  /** The digits after the sign: switch to radix 16 after "0x"/"0X", and read the
      longest digit prefix; no digit at all gives NaN. */
  function ParseUnsigned(u: string): (v: Value)
    ensures v.Num? || v.NaN?
  {
    var hex := |u| >= 2 && u[0] == '0' && (u[1] == 'x' || u[1] == 'X');
    var z := DigitPrefix(if hex then u[2..] else u, if hex then 16 else 10);
    if z == [] then NaN
    else if hex then Num(DigitsValue(z, 16))
    else Num(DigitsValue(z, 10))
  }

  function Negate(v: Value): (r: Value)
    ensures v.Num? ==> r == Num(-v.n)
    ensures !v.Num? ==> r == v
  {
    if v.Num? then Num(-v.n) else v
  }

  /** `parseInt(s)` with no radix (ECMAScript 5.1, section 15.1.2.2): skip leading
      white space, take an optional sign, then read the digits. */
  function ParseInt(s: string): (v: Value)
    ensures v.Num? || v.NaN?
  {
    var t := TrimLeft(s);
    var signed := t != [] && (t[0] == '-' || t[0] == '+');
    var v := ParseUnsigned(if signed then t[1..] else t);
    if signed && t[0] == '-' then Negate(v) else v
  }

  function DigitChar(d: nat): (c: char)
    requires d < 10
    ensures IsDecimalDigit(c) && DigitValue(c, 10) == d
  {
    (('0' as int) + d) as char
  }

  /** The decimal digits of a natural number, most significant first. */
  function NatDigits(n: nat): (z: string)
    ensures z != []
    ensures forall i :: 0 <= i < |z| ==> IsDecimalDigit(z[i])
    ensures z[0] == '0' ==> n == 0
  {
    if n < 10 then [DigitChar(n)] else NatDigits(n / 10) + [DigitChar(n % 10)]
  }

  /** `String(n)` for an integer: an optional minus sign and the decimal digits.
      (JavaScript switches to exponent notation from 10^21 on; see README.) */
  function Decimal(n: int): string
  {
    if n < 0 then "-" + NatDigits(-n) else NatDigits(n)
  }

  lemma {:induction false} NatDigitsValue(n: nat)
    ensures DigitsValue(NatDigits(n), 10) == n
  {
    if n >= 10 {
      var z := NatDigits(n);
      assert z[..|z| - 1] == NatDigits(n / 10);
      NatDigitsValue(n / 10);
    }
  }

  lemma {:induction false} DigitPrefixOfDigits(z: string)
    requires forall i :: 0 <= i < |z| ==> IsDecimalDigit(z[i])
    ensures DigitPrefix(z, 10) == z
  {
    if z != [] {
      DigitPrefixOfDigits(z[1..]);
    }
  }

  /** Text that does not start with white space is its own `TrimLeft`. */
  lemma TrimLeftFixed(s: string)
    requires s == [] || !IsSpace(s[0])
    ensures TrimLeft(s) == s
  {
  }

  /** A digit string reads back as its value. */
  lemma UnsignedDigits(z: string)
    requires z != [] && forall i :: 0 <= i < |z| ==> IsDecimalDigit(z[i])
    ensures ParseUnsigned(z) == Num(DigitsValue(z, 10))
  {
    assert !(|z| >= 2 && z[0] == '0' && (z[1] == 'x' || z[1] == 'X'));
    DigitPrefixOfDigits(z);
  }

  lemma ParseIntDigits(z: string)
    requires z != [] && forall i :: 0 <= i < |z| ==> IsDecimalDigit(z[i])
    ensures ParseInt(z) == Num(DigitsValue(z, 10))
  {
    TrimLeftFixed(z);
    UnsignedDigits(z);
  }

  /** `parseInt` of text that starts with a minus sign is the negated reading of
      the rest. */
  lemma ParseIntMinus(t: string)
    requires t != [] && t[0] == '-'
    ensures ParseInt(t) == Negate(ParseUnsigned(t[1..]))
  {
    TrimLeftFixed(t);
  }

  /** A minus sign and a digit string read back as the negated value. */
  lemma ParseIntNegated(t: string)
    requires |t| >= 2 && t[0] == '-' && forall i :: 1 <= i < |t| ==> IsDecimalDigit(t[i])
    ensures ParseInt(t) == Num(-DigitsValue(t[1..], 10))
  {
    ParseIntMinus(t);
    UnsignedDigits(t[1..]);
  }

  /** Reading back what `Decimal` writes gives the number again: `parseInt(String(n)) == n`. */
  lemma ParseIntDecimal(n: int)
    ensures ParseInt(Decimal(n)) == Num(n)
  {
    var m: nat := if n < 0 then -n else n;
    var z := NatDigits(m);
    NatDigitsValue(m);
    if n < 0 {
      var t := Decimal(n);
      assert t[1..] == z;
      ParseIntNegated(t);
    } else {
      ParseIntDigits(z);
    }
  }

  /** What `parseInt(v)` makes of a cell value. `parseInt` first converts its
      argument to a string, so a number is written out and read back, which gives
      the number again (`ParseIntDecimal`); NaN is written "NaN", which has no digit. */
  function Coerce(v: Value): (r: Value)
    ensures r.Num? || r.NaN?
    ensures v.Num? ==> r == v
    ensures v.NaN? ==> r == ParseInt("NaN")
  {
    match v
    case Str(s) => ParseInt(s)
    case Num(n) => v
    case NaN => ParseInt("NaN")
  }

  /** Coercing an already coerced value changes nothing. */
  lemma CoerceIdempotent(v: Value)
    ensures Coerce(Coerce(v)) == Coerce(v)
  {
    var r := Coerce(v);
    if r.NaN? {
      assert DigitPrefix("NaN", 10) == [];
    }
  }

  /** JavaScript `a === b`: NaN equals nothing, not even itself. */
  predicate StrictEq(a: Value, b: Value)
  {
    a == b && !a.NaN?
  }

  /** `values.indexOf(v) !== -1`. */
  predicate Includes(values: seq<Value>, v: Value)
  {
    exists i :: 0 <= i < |values| && StrictEq(values[i], v)
  }

  lemma IncludesNeverNaN(values: seq<Value>)
    ensures !Includes(values, NaN)
  {
  }

  // ---------------------------------------------------------------------------
  // Strings

  /** JavaScript `a < b` on strings: lexicographic by character code. */
  predicate StrLt(a: string, b: string)
  {
    if a == [] then b != []
    else if b == [] then false
    else a[0] < b[0] || (a[0] == b[0] && StrLt(a[1..], b[1..]))
  }

  lemma {:induction false} StrLtIrreflexive(a: string)
    ensures !StrLt(a, a)
  {
    if a != [] { StrLtIrreflexive(a[1..]); }
  }

  lemma {:induction false} StrLtTransitive(a: string, b: string, c: string)
    requires StrLt(a, b) && StrLt(b, c)
    ensures StrLt(a, c)
  {
    if a != [] && b != [] && c != [] && a[0] == b[0] == c[0] {
      StrLtTransitive(a[1..], b[1..], c[1..]);
    }
  }

  lemma {:induction false} StrLtTotal(a: string, b: string)
    ensures a == b || StrLt(a, b) || StrLt(b, a)
  {
    if a != [] && b != [] && a[0] == b[0] {
      StrLtTotal(a[1..], b[1..]);
      if a[1..] == b[1..] {
        assert a == [a[0]] + a[1..] && b == [b[0]] + b[1..];
      }
    }
  }

  /** `s.indexOf(p) !== -1`: `p` occurs in `s` as a contiguous infix. */
  predicate HasInfix(s: string, p: string)
    decreases |s|
  {
    |p| <= |s| && (s[..|p|] == p || (s != [] && HasInfix(s[1..], p)))
  }

  lemma {:induction false} HasInfixSpec(s: string, p: string)
    ensures HasInfix(s, p) <==> exists i :: InfixAt(s, p, i)
    decreases |s|
  {
    if HasInfix(s, p) {
      if s[..|p|] == p {
        assert InfixAt(s, p, 0);
      } else {
        HasInfixSpec(s[1..], p);
        var j :| InfixAt(s[1..], p, j);
        assert s[1..][j..j + |p|] == s[j + 1..j + 1 + |p|];
        assert InfixAt(s, p, j + 1);
      }
    }
    if exists i :: InfixAt(s, p, i) {
      var i :| InfixAt(s, p, i);
      if i > 0 {
        assert s[1..][i - 1..i - 1 + |p|] == s[i..i + |p|];
        assert InfixAt(s[1..], p, i - 1);
        HasInfixSpec(s[1..], p);
      } else {
        assert s[..|p|] == p;
      }
    }
  }
}
