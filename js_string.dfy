/** The JavaScript built-ins the core relies on, on strings of UTF-16 code
    units modelled as `seq<char>`: `String#trim`, `parseInt` without a radix,
    `Number#toString` on whole numbers, `String#padStart`, the first piece
    of `String#split` on a one-character separator, and the `%` operator on
    whole numbers. */
module JsString {
  import opened Types

  /** The ECMAScript WhiteSpace and LineTerminator code points: what `trim`
      removes and what `parseInt` skips before the number. */
  predicate IsWhiteSpace(c: char)
  {
    || c == '\t' || c == '\n' || c == '\U{000B}' || c == '\U{000C}' || c == '\r' || c == ' '
    || c == '\U{00A0}' || c == '\U{1680}' || ('\U{2000}' <= c <= '\U{200A}')
    || c == '\U{2028}' || c == '\U{2029}' || c == '\U{202F}' || c == '\U{205F}'
    || c == '\U{3000}' || c == '\U{FEFF}'
  }

  /** `String#trimStart`: the suffix that starts at the first non-white-space character. */
  function TrimStart(s: string): (r: string)
    ensures |r| <= |s|
    ensures r == [] || !IsWhiteSpace(r[0])
    ensures forall i :: 0 <= i < |s| - |r| ==> IsWhiteSpace(s[i])
  {
    if s != [] && IsWhiteSpace(s[0]) then TrimStart(s[1..]) else s
  }

  /** `String#trimEnd`: the prefix that ends at the last non-white-space character. */
  function TrimEnd(s: string): (r: string)
    ensures |r| <= |s| && r == s[..|r|]
    ensures r == [] || !IsWhiteSpace(r[|r| - 1])
    ensures forall i :: |r| <= i < |s| ==> IsWhiteSpace(s[i])
  {
    if s != [] && IsWhiteSpace(s[|s| - 1]) then TrimEnd(s[..|s| - 1]) else s
  }

  /** `String#trim`: the middle of the string, with only white space cut off
      at either end, and neither starting nor ending with white space. */
  function Trim(s: string): (r: string)
    ensures r != [] ==> !IsWhiteSpace(r[0]) && !IsWhiteSpace(r[|r| - 1])
    ensures exists a, b ::
      && 0 <= a <= b <= |s| && r == s[a..b]
      && (forall i :: 0 <= i < a ==> IsWhiteSpace(s[i]))
      && (forall i :: b <= i < |s| ==> IsWhiteSpace(s[i]))
  {
    var t := TrimStart(s);
    var r := TrimEnd(t);
    assert r != [] ==> r[0] == t[0];
    TrimStartSuffix(s);
    var a := |s| - |t|;
    assert r == s[a..a + |r|];
    assert forall i :: a + |r| <= i < |s| ==> s[i] == t[i - a];
    r
  }

  /** A string trims to nothing exactly when all its characters are white space. */
  lemma TrimBlank(s: string)
    ensures Trim(s) == [] <==> forall i :: 0 <= i < |s| ==> IsWhiteSpace(s[i])
  {
    if Trim(s) == [] {
      assert TrimStart(s) == [];
    } else {
      TrimStartSuffix(s);
    }
  }

  /** What `trimStart` keeps is a suffix of its input. */
  lemma {:induction false} TrimStartSuffix(s: string)
    ensures TrimStart(s) == s[|s| - |TrimStart(s)|..]
  {
    if s != [] && IsWhiteSpace(s[0]) {
      TrimStartSuffix(s[1..]);
    }
  }

  predicate IsDigit(c: char) { '0' <= c <= '9' }

  predicate AllDigits(s: string) { forall i :: 0 <= i < |s| ==> IsDigit(s[i]) }

  predicate IsHexDigit(c: char) { IsDigit(c) || 'a' <= c <= 'f' || 'A' <= c <= 'F' }

  /** A digit of radix 16 when `hex` holds, of radix 10 otherwise. */
  predicate IsDigitIn(c: char, hex: bool) { if hex then IsHexDigit(c) else IsDigit(c) }

  function DigitValue(c: char): (d: nat)
    requires IsHexDigit(c)
    ensures d < 16
    ensures IsDigit(c) <==> d < 10
  {
    if IsDigit(c) then c as int - '0' as int
    else if 'a' <= c <= 'f' then c as int - 'a' as int + 10
    else c as int - 'A' as int + 10
  }

  function DigitChar(d: nat): (c: char)
    requires d < 10
    ensures IsDigit(c) && DigitValue(c) == d
  {
    ('0' as int + d) as char
  }

  /** The number a string of digits denotes in the given radix, most significant digit first. */
  function DigitsValue(ds: string, radix: nat): nat
    requires forall i :: 0 <= i < |ds| ==> IsHexDigit(ds[i])
  {
    if ds == [] then 0 else DigitsValue(ds[..|ds| - 1], radix) * radix + DigitValue(ds[|ds| - 1])
  }

  /** The longest prefix of `s` made of digits (of radix 16 when `hex` holds). */
  function DigitPrefix(s: string, hex: bool): (p: string)
    ensures |p| <= |s| && p == s[..|p|]
    ensures forall i :: 0 <= i < |p| ==> IsDigitIn(p[i], hex)
    ensures |p| < |s| ==> !IsDigitIn(s[|p|], hex)
  {
    if s != [] && IsDigitIn(s[0], hex) then [s[0]] + DigitPrefix(s[1..], hex) else []
  }

  /** `parseInt(s)` with no radix: skip white space, read an optional sign,
      then the magnitude. No digit at all gives NaN, written `None`. */
  function ParseInt(s: string): (r: Option<int>)
    ensures r.Some? ==> var u := Unsigned(TrimStart(s)); u != [] && IsDigit(u[0])
    ensures r.Some? && r.value < 0 ==> TrimStart(s) != [] && TrimStart(s)[0] == '-'
    ensures r.Some? && TrimStart(s) != [] && TrimStart(s)[0] == '-' ==> r.value <= 0
  {
    var t := TrimStart(s);
    ApplySign(t != [] && t[0] == '-', ParseMagnitude(Unsigned(t)))
  }

  /** What follows an optional leading sign. */
  function Unsigned(t: string): string
  {
    if t != [] && (t[0] == '-' || t[0] == '+') then t[1..] else t
  }

  /** A magnitude with its sign; NaN stays NaN. */
  function ApplySign(negative: bool, m: Option<nat>): Option<int>
  {
    match m
    case None => None
    case Some(k) => var v: int := k; Some(if negative then -v else v)
  }

  /** The magnitude part of `parseInt`: radix 16 after a `0x`/`0X` prefix,
      radix 10 otherwise, then the longest run of digits of that radix. */
  function ParseMagnitude(u: string): (m: Option<nat>)
    ensures m.Some? ==> u != [] && IsDigit(u[0])
  {
    var hex := |u| >= 2 && u[0] == '0' && (u[1] == 'x' || u[1] == 'X');
    var digits := DigitPrefix(if hex then u[2..] else u, hex);
    if digits == [] then None else Some(DigitsValue(digits, if hex then 16 else 10))
  }

  /** `Number#toString` on a non-negative whole number: its decimal digits. */
  function ShowNat(n: nat): (s: string)
    ensures s != []
    ensures forall i :: 0 <= i < |s| ==> IsDigit(s[i])
  {
    if n < 10 then [DigitChar(n)] else ShowNat(n / 10) + [DigitChar(n % 10)]
  }

  /** `Number#toString` on a whole number. */
  function ShowInt(i: int): (r: string)
    ensures r != [] && (r[0] == '-' <==> i < 0)
    ensures i >= 0 ==> AllDigits(r)
    ensures i < 0 ==> r[1..] != [] && AllDigits(r[1..])
  {
    if i < 0 then "-" + ShowNat(-i) else ShowNat(i)
  }

  /** `s.padStart(targetLength, fill)` with a one-character fill. */
  function PadStart(s: string, targetLength: nat, fill: char): (r: string)
    ensures |r| == if |s| >= targetLength then |s| else targetLength
    ensures r[|r| - |s|..] == s
    ensures forall i :: 0 <= i < |r| - |s| ==> r[i] == fill
  {
    if |s| >= targetLength then s else seq(targetLength - |s|, _ => fill) + s
  }

  /** `s.split(sep)[0]` for a one-character separator: everything before the
      first `sep`, or all of `s` when it has none. */
  function BeforeFirst(s: string, sep: char): (p: string)
    ensures |p| <= |s| && p == s[..|p|]
    ensures sep !in p
    ensures |p| < |s| ==> s[|p|] == sep
  {
    if s == [] || s[0] == sep then [] else [s[0]] + BeforeFirst(s[1..], sep)
  }

  /** `a % b` on whole numbers with `b > 0`: the remainder takes the sign of
      `a` (truncating division), unlike Dafny's `%`. */
  function Rem(a: int, b: int): (r: int)
    requires b > 0
    ensures a >= 0 ==> 0 <= r < b
    ensures a < 0 ==> -b < r <= 0
    ensures a == (if a >= 0 then a / b else -((-a) / b)) * b + r
  {
    if a >= 0 then a % b
    else
      var q := (-a) / b;
      assert -a == q * b + (-a) % b;
      assert (-q) * b == -(q * b);
      -((-a) % b)
  }

  /** Without a separator, `split` gives back the whole string as its first piece. */
  lemma {:induction false} BeforeFirstAbsent(s: string, sep: char)
    requires sep !in s
    ensures BeforeFirst(s, sep) == s
  {
    if s != [] {
      assert s == [s[0]] + s[1..];
      BeforeFirstAbsent(s[1..], sep);
    }
  }

  /** Only digits occur in what `ShowNat` writes. */
  lemma ShowNatOnlyDigits(n: nat, c: char)
    requires !IsDigit(c)
    ensures c !in ShowNat(n)
  {
    var s := ShowNat(n);
    assert forall i :: 0 <= i < |s| ==> s[i] != c;
  }

  /** `split` stops at the first separator: what comes before it is the first piece. */
  lemma {:induction false} BeforeFirstOf(x: string, sep: char, y: string)
    requires sep !in x
    ensures BeforeFirst(x + [sep] + y, sep) == x
  {
    if x != [] {
      assert (x + [sep] + y)[1..] == x[1..] + [sep] + y;
      BeforeFirstOf(x[1..], sep, y);
    } else {
      assert x + [sep] + y == [sep] + y;
    }
  }

  /** Reading back the digits `ShowNat` writes gives the number again. */
  lemma {:induction false} DigitsValueShowNat(n: nat)
    ensures DigitsValue(ShowNat(n), 10) == n
  {
    var s := ShowNat(n);
    if n >= 10 {
      DigitsValueShowNat(n / 10);
      assert s[..|s| - 1] == ShowNat(n / 10);
    }
  }

  /** The longest digit prefix of digits followed by a non-digit is exactly those digits. */
  lemma {:induction false} DigitPrefixOfDigits(ds: string, rest: string, hex: bool)
    requires forall i :: 0 <= i < |ds| ==> IsDigitIn(ds[i], hex)
    requires rest == [] || !IsDigitIn(rest[0], hex)
    ensures DigitPrefix(ds + rest, hex) == ds
  {
    if ds != [] {
      assert (ds + rest)[0] == ds[0];
      assert (ds + rest)[1..] == ds[1..] + rest;
      DigitPrefixOfDigits(ds[1..], rest, hex);
    } else {
      assert ds + rest == rest;
    }
  }

  /** The magnitude part of `parseInt` reads back the digits `ShowNat` writes. */
  lemma ParseMagnitudeShowNat(m: nat, rest: string)
    requires rest == [] || (!IsDigit(rest[0]) && rest[0] != 'x' && rest[0] != 'X')
    ensures ParseMagnitude(ShowNat(m) + rest) == Some(m)
  {
    var u := ShowNat(m) + rest;
    assert u[0] == ShowNat(m)[0];
    assert |u| >= 2 ==> u[1] != 'x' && u[1] != 'X' by {
      if |u| >= 2 && |ShowNat(m)| < 2 {
        assert u[1] == rest[0];
      } else if |u| >= 2 {
        assert u[1] == ShowNat(m)[1];
      }
    }
    DigitPrefixOfDigits(ShowNat(m), rest, false);
    DigitsValueShowNat(m);
  }

  /** Without leading white space or sign, `parseInt` is its magnitude part. */
  lemma ParseIntUnsigned(u: string, m: nat)
    requires u != [] && IsDigit(u[0])
    requires ParseMagnitude(u) == Some(m)
    ensures ParseInt(u) == Some(m)
  {
    assert !IsWhiteSpace(u[0]);
    assert TrimStart(u) == u;
  }

  /** After a leading minus sign, `parseInt` negates its magnitude part. */
  lemma ParseIntNegative(u: string, m: nat)
    requires u != [] && IsDigit(u[0])
    requires ParseMagnitude(u) == Some(m)
    ensures ParseInt(['-'] + u) == Some(-(m as int))
  {
    var s := ['-'] + u;
    assert !IsWhiteSpace(s[0]);
    assert TrimStart(s) == s;
    assert s[1..] == u;
  }

  /** `parseInt` reads back what `Number#toString` writes, whatever non-digit
      text follows (a following `x` would turn a lone `0` into a hex prefix). */
  lemma ParseIntShowInt(n: int, rest: string)
    requires rest == [] || (!IsDigit(rest[0]) && rest[0] != 'x' && rest[0] != 'X')
    ensures ParseInt(ShowInt(n) + rest) == Some(n)
  {
    if n < 0 {
      ParseIntShowNegative(-n, rest);
    } else {
      ParseIntShowNat(n, rest);
    }
  }

  lemma ParseIntShowNat(m: nat, rest: string)
    requires rest == [] || (!IsDigit(rest[0]) && rest[0] != 'x' && rest[0] != 'X')
    ensures ParseInt(ShowNat(m) + rest) == Some(m)
  {
    var u := ShowNat(m) + rest;
    assert u[0] == ShowNat(m)[0];
    ParseMagnitudeShowNat(m, rest);
    ParseIntUnsigned(u, m);
  }

  lemma ParseIntShowNegative(m: nat, rest: string)
    requires m > 0
    requires rest == [] || (!IsDigit(rest[0]) && rest[0] != 'x' && rest[0] != 'X')
    ensures ParseInt(ShowInt(-(m as int)) + rest) == Some(-(m as int))
  {
    var u := ShowNat(m) + rest;
    assert u[0] == ShowNat(m)[0];
    ParseMagnitudeShowNat(m, rest);
    ParseIntNegative(u, m);
    ShowIntNegative(m, rest);
  }

  lemma ShowIntNegative(m: nat, rest: string)
    requires m > 0
    ensures ShowInt(-(m as int)) + rest == ['-'] + (ShowNat(m) + rest)
  {
  }

  /** `parseInt` gives NaN when the first non-white-space character is neither
      a sign nor a decimal digit. */
  lemma ParseIntRejects(s: string)
    requires TrimStart(s) != []
    requires var c := TrimStart(s)[0]; c != '-' && c != '+' && !IsDigit(c)
    ensures ParseInt(s) == None
  {
  }
}
