/** The pieces of the C++ and Boost string libraries that the modelled code
    relies on: std::stoi (C strtol underneath), decimal output of integers as
    std::stringstream writes them, std::string::find / find_last_of, and
    boost::algorithm::split with token compression. */
module Strings {
  import opened Wrappers
  import opened Ints

  // ---------------------------------------------------------------------
  // Character classes of the C library (the "C" locale)
  // ---------------------------------------------------------------------

  /** isspace: blank, tab, newline, vertical tab, form feed, carriage return. */
  predicate IsSpace(c: char) {
    c == ' ' || ('\t' <= c <= '\r')
  }

  /** Value of an alphanumeric digit ('0'-'9', then 'a'/'A' = 10 ...); 99 for
      any other character, so that it is a digit in no radix used here. */
  function DigitValue(c: char): nat {
    if '0' <= c <= '9' then c as int - '0' as int
    else if 'a' <= c <= 'z' then c as int - 'a' as int + 10
    else if 'A' <= c <= 'Z' then c as int - 'A' as int + 10
    else 99
  }

  predicate IsDigitIn(c: char, radix: nat) {
    DigitValue(c) < radix
  }

  predicate IsDecimalDigit(c: char) {
    '0' <= c <= '9'
  }

  // ---------------------------------------------------------------------
  // std::stoi
  // ---------------------------------------------------------------------

  /** The longest prefix of s made of digits of the given radix. */
  function DigitRun(s: string, radix: nat): (d: string)
    ensures |d| <= |s| && d == s[..|d|]
    ensures forall i :: 0 <= i < |d| ==> IsDigitIn(d[i], radix)
    ensures |d| == |s| || !IsDigitIn(s[|d|], radix)
  {
    if s != [] && IsDigitIn(s[0], radix) then [s[0]] + DigitRun(s[1..], radix) else []
  }

  /** The number that a string of digits denotes, most significant first. */
  function DigitsValue(d: string, radix: nat): int {
    if d == [] then 0 else DigitsValue(d[..|d| - 1], radix) * radix + DigitValue(d[|d| - 1])
  }

  /** s without its leading white space. */
  function DropSpaces(s: string): (t: string)
    ensures |t| <= |s| && t == s[|s| - |t|..]
    ensures t == [] || !IsSpace(t[0])
  {
    if s != [] && IsSpace(s[0]) then DropSpaces(s[1..]) else s
  }

  /** The exceptions std::stoi throws. */
  datatype StoiError = InvalidArgument | OutOfRange

  /** The radix strtol uses for the text after the sign: the given base, or
      for base 0 hexadecimal after "0x"/"0X" followed by a hex digit, octal
      after a leading '0', decimal otherwise. */
  function Radix(u: string, base: nat): (radix: nat)
    requires base == 0 || base == 10
    ensures radix == 16 ==> |u| >= 3
  {
    if base != 0 then base
    else if |u| >= 3 && u[0] == '0' && (u[1] == 'x' || u[1] == 'X') && IsDigitIn(u[2], 16) then 16
    else if u != [] && u[0] == '0' then 8
    else 10
  }

  /** strtol on text that does not start with white space, then stoi's check
      that the result fits an int. Parsing stops at the first character that
      is not a digit; no digit at all is an invalid argument. */
  function ParseSigned(t: string, base: nat): Result<int32, StoiError>
    requires base == 0 || base == 10
  {
    var negative := t != [] && t[0] == '-';
    var u := if t != [] && (t[0] == '-' || t[0] == '+') then t[1..] else t;
    var radix := Radix(u, base);
    var digits := DigitRun(if radix == 16 then u[2..] else u, radix);
    SignedResult(negative, digits, radix)
  }

  /** The result of strtol and stoi's range check for the digits read. */
  function SignedResult(negative: bool, digits: string, radix: nat): Result<int32, StoiError> {
    if digits == [] then Failure(InvalidArgument)
    else
      var v := if negative then -DigitsValue(digits, radix) else DigitsValue(digits, radix);
      if -TWO_TO_THE_31 <= v < TWO_TO_THE_31 then Success(v) else Failure(OutOfRange)
  }

  /** std::stoi(s, nullptr, base) for base 10 (the default) and base 0. */
  function Stoi(s: string, base: nat): Result<int32, StoiError>
    requires base == 0 || base == 10
  {
    ParseSigned(DropSpaces(s), base)
  }

  // ---------------------------------------------------------------------
  // Decimal output (operator<< of an int on a stringstream)
  // ---------------------------------------------------------------------

  function DigitChar(d: nat): (c: char)
    requires d < 10
    ensures IsDecimalDigit(c) && DigitValue(c) == d
  {
    ('0' as int + d) as char
  }

  function NatToDecimal(n: nat): (s: string)
    ensures s != []
    ensures forall i :: 0 <= i < |s| ==> IsDecimalDigit(s[i])
  {
    if n < 10 then [DigitChar(n)] else NatToDecimal(n / 10) + [DigitChar(n % 10)]
  }

  function IntToDecimal(n: int): (s: string)
    ensures s != []
  {
    if n < 0 then "-" + NatToDecimal(-n) else NatToDecimal(n)
  }

  lemma {:induction false} DecimalValue(n: nat)
    ensures DigitsValue(NatToDecimal(n), 10) == n
  {
    if n >= 10 {
      var s := NatToDecimal(n / 10);
      var t := NatToDecimal(n);
      assert t == s + [DigitChar(n % 10)];
      assert t[..|t| - 1] == s;
      DecimalValue(n / 10);
    }
  }

  lemma {:induction false} DecimalLeadingDigit(n: nat)
    requires n > 0
    ensures NatToDecimal(n)[0] != '0'
  {
    if n >= 10 {
      DecimalLeadingDigit(n / 10);
    }
  }

  /** A text made only of digits of the radix is read whole. */
  lemma {:induction false} DigitRunOfDigits(s: string, radix: nat)
    requires forall i :: 0 <= i < |s| ==> IsDigitIn(s[i], radix)
    ensures DigitRun(s, radix) == s
  {
    if s != [] {
      assert forall i :: 0 <= i < |s[1..]| ==> s[1..][i] == s[i + 1];
      DigitRunOfDigits(s[1..], radix);
      assert s == [s[0]] + s[1..];
    }
  }

  /** Digits read without a sign give their value. */
  lemma UnsignedResult(digits: string, radix: nat)
    requires digits != [] && DigitsValue(digits, radix) < TWO_TO_THE_31
    ensures SignedResult(false, digits, radix).Success?
    ensures SignedResult(false, digits, radix).value == DigitsValue(digits, radix)
  {
    DigitsValueNonNegative(digits, radix);
  }

  /** In automatic base, "0x" followed by hex digits is read in base 16. */
  lemma StoiHex(d: string)
    requires d != [] && forall i :: 0 <= i < |d| ==> IsDigitIn(d[i], 16)
    requires DigitsValue(d, 16) < TWO_TO_THE_31
    ensures Stoi("0x" + d, 0).Success? && Stoi("0x" + d, 0).value == DigitsValue(d, 16)
  {
    var s := "0x" + d;
    assert DropSpaces(s) == s by { assert s[0] == '0'; }
    ParseHexPrefix(d);
    UnsignedResult(d, 16);
  }

  lemma ParseHexPrefix(d: string)
    requires d != [] && forall i :: 0 <= i < |d| ==> IsDigitIn(d[i], 16)
    ensures ParseSigned("0x" + d, 0) == SignedResult(false, d, 16)
  {
    var s := "0x" + d;
    assert s[0] == '0' && s[1] == 'x' && s[2] == d[0];
    assert Radix(s, 0) == 16;
    assert s[2..] == d;
    DigitRunOfDigits(d, 16);
  }

  /** In automatic base, a leading '0' followed by octal digits is read in base 8. */
  lemma StoiOctal(s: string)
    requires s != [] && s[0] == '0' && forall i :: 0 <= i < |s| ==> IsDigitIn(s[i], 8)
    requires DigitsValue(s, 8) < TWO_TO_THE_31
    ensures Stoi(s, 0).Success? && Stoi(s, 0).value == DigitsValue(s, 8)
  {
    assert DropSpaces(s) == s;
    ParseOctalPrefix(s);
    UnsignedResult(s, 8);
  }

  lemma ParseOctalPrefix(s: string)
    requires s != [] && s[0] == '0' && forall i :: 0 <= i < |s| ==> IsDigitIn(s[i], 8)
    ensures ParseSigned(s, 0) == SignedResult(false, s, 8)
  {
    assert Radix(s, 0) == 8 by {
      assert |s| >= 3 ==> IsDigitIn(s[1], 8);
      assert !IsDigitIn('x', 8) && !IsDigitIn('X', 8);
    }
    DigitRunOfDigits(s, 8);
  }

  lemma {:induction false} DigitsValueNonNegative(d: string, radix: nat)
    ensures DigitsValue(d, radix) >= 0
  {
    if d != [] {
      DigitsValueNonNegative(d[..|d| - 1], radix);
    }
  }

  /** The digits operator<< writes for a natural number are all read back,
      in automatic base as in base 10. */
  lemma ParseDecimalDigits(m: nat, base: nat)
    requires base == 0 || base == 10
    ensures var u := NatToDecimal(m);
      Radix(u, base) != 16 &&
      DigitRun(u, Radix(u, base)) == u && DigitsValue(u, Radix(u, base)) == m
  {
    var u := NatToDecimal(m);
    if m == 0 {
      assert u == "0";
    } else {
      DecimalLeadingDigit(m);
      assert Radix(u, base) == 10;
      DigitRunOfDigits(u, 10);
      DecimalValue(m);
    }
  }

  /** What operator<< writes for an int, stoi reads back, automatic base or not. */
  lemma StoiOfDecimal(n: int32, base: nat)
    requires base == 0 || base == 10
    ensures Stoi(IntToDecimal(n), base) == Success(n)
  {
    DecimalHasNoLeadingSpace(n);
    if n < 0 {
      ParseNegativeDecimal(n, base);
    } else {
      ParseNonNegativeDecimal(n, base);
    }
  }

  /** Decimal output starts with a sign or a digit, so stoi skips nothing. */
  lemma DecimalHasNoLeadingSpace(n: int)
    ensures DropSpaces(IntToDecimal(n)) == IntToDecimal(n)
  {
    var s := IntToDecimal(n);
    if n < 0 {
      assert s[0] == '-';
    } else {
      assert IsDecimalDigit(s[0]);
    }
  }

  lemma ParseNegativeDecimal(n: int32, base: nat)
    requires base == 0 || base == 10
    requires n < 0
    ensures ParseSigned(IntToDecimal(n), base) == Success(n)
  {
    var m: nat := -(n as int);
    var u := NatToDecimal(m);
    var s := IntToDecimal(n);
    ParseDecimalDigits(m, base);
    assert s == "-" + u;
    assert s[1..] == u;
  }

  lemma ParseNonNegativeDecimal(n: int32, base: nat)
    requires base == 0 || base == 10
    requires n >= 0
    ensures ParseSigned(IntToDecimal(n), base) == Success(n)
  {
    var u := NatToDecimal(n);
    ParseDecimalDigits(n, base);
    assert IntToDecimal(n) == u;
    assert u[0] != '-' && u[0] != '+';
  }

  lemma {:induction false} DropSpacesAppend(s: string, t: string)
    requires t == [] || !IsSpace(t[0])
    ensures DropSpaces(s + t) == if DropSpaces(s) == [] then t else DropSpaces(s) + t
  {
    if s == [] {
      assert s + t == t;
    } else if IsSpace(s[0]) {
      assert (s + t)[0] == s[0] && (s + t)[1..] == s[1..] + t;
      DropSpacesAppend(s[1..], t);
    } else {
      assert (s + t)[0] == s[0];
    }
  }

  lemma {:induction false} DigitRunAppend(s: string, t: string, radix: nat)
    requires t == [] || !IsDigitIn(t[0], radix)
    ensures DigitRun(s + t, radix) == DigitRun(s, radix)
  {
    if s == [] {
      assert s + t == t;
    } else {
      assert (s + t)[0] == s[0];
      if IsDigitIn(s[0], radix) {
        assert (s + t)[1..] == s[1..] + t;
        DigitRunAppend(s[1..], t, radix);
      }
    }
  }

  /** A character that is no digit and no sign ends what strtol reads. */
  lemma ParseSignedAppend(w: string, t: string)
    requires t != [] && !IsDigitIn(t[0], 10) && t[0] != '+' && t[0] != '-'
    ensures ParseSigned(w + t, 10) == ParseSigned(w, 10)
  {
    if w == [] {
      assert w + t == t;
      assert DigitRun(t, 10) == [];
    } else {
      assert (w + t)[0] == w[0];
      var signed := w[0] == '-' || w[0] == '+';
      var u := if signed then w[1..] else w;
      assert (if signed then (w + t)[1..] else w + t) == u + t;
      DigitRunAppend(u, t, 10);
    }
  }

  /** Decimal stoi stops at the first character that can neither continue the
      number nor start it: what follows it does not matter. */
  lemma StoiStopsAt(s: string, t: string)
    requires t != [] && !IsSpace(t[0]) && !IsDecimalDigit(t[0]) && t[0] != '+' && t[0] != '-'
    ensures Stoi(s + t, 10) == Stoi(s, 10)
  {
    DropSpacesAppend(s, t);
    ParseSignedAfterSpaces(DropSpaces(s), t);
  }

  /** The same for the text left once white space is skipped, which is t
      alone when nothing but white space came before it. */
  lemma ParseSignedAfterSpaces(w: string, t: string)
    requires t != [] && !IsDigitIn(t[0], 10) && t[0] != '+' && t[0] != '-'
    ensures ParseSigned(if w == [] then t else w + t, 10) == ParseSigned(w, 10)
  {
    if w == [] {
      ParseSignedAppend([], t);
      assert [] + t == t;
    } else {
      ParseSignedAppend(w, t);
    }
  }

  // ---------------------------------------------------------------------
  // Searching and splitting
  // ---------------------------------------------------------------------

  /** std::string::find(c): the first position of c, or npos. */
  function FirstIndex(s: string, c: char): (k: Option<nat>)
    ensures k.None? <==> c !in s
    ensures k.Some? ==> k.value < |s| && s[k.value] == c && c !in s[..k.value]
  {
    if s == [] then None
    else if s[0] == c then Some(0)
    else match FirstIndex(s[1..], c)
      case None => None
      case Some(k) => assert s[..k + 1] == [s[0]] + s[1..][..k]; Some(k + 1)
  }

  /** The position of c in u + t, when u has none, is where t's first c is. */
  lemma FirstIndexAfter(u: string, t: string, c: char)
    requires c !in u && t != [] && t[0] == c
    ensures FirstIndex(u + t, c) == Some(|u|)
  {
    var x := u + t;
    assert x[|u|] == c;
    assert x[..|u|] == u;
  }

  /** std::string::find_last_of(c): the last position of c, or npos. */
  function LastIndex(s: string, c: char): (k: Option<nat>)
    ensures k.None? <==> c !in s
    ensures k.Some? ==> k.value < |s| && s[k.value] == c && c !in s[k.value + 1..]
  {
    if s == [] then None
    else if s[|s| - 1] == c then Some(|s| - 1)
    else
      var k := LastIndex(s[..|s| - 1], c);
      assert k.None? ==> s == s[..|s| - 1] + [s[|s| - 1]];
      assert k.Some? ==> s[k.value + 1..] == s[..|s| - 1][k.value + 1..] + [s[|s| - 1]];
      k
  }

  /** Appending text without c does not move the last c. */
  lemma {:induction false} LastIndexAppend(u: string, t: string, c: char)
    requires c !in t
    ensures LastIndex(u + t, c) == LastIndex(u, c)
  {
    if t == [] {
      assert u + t == u;
    } else {
      var x := u + t;
      assert x[|x| - 1] == t[|t| - 1];
      assert x[..|x| - 1] == u + t[..|t| - 1];
      LastIndexAppend(u, t[..|t| - 1], c);
    }
  }

  /** s without the separators it ends with. */
  function TrimTrailing(s: string, sep: char): (t: string)
    ensures |t| <= |s| && t == s[..|t|]
    ensures t == [] || t[|t| - 1] != sep
  {
    if s != [] && s[|s| - 1] == sep then TrimTrailing(s[..|s| - 1], sep) else s
  }

  /** boost::algorithm::split(parts, s, is_any_of(sep), token_compress_on): the
      tokens between runs of separators; a leading or trailing run yields one
      empty token, and the empty string yields one empty token. */
  function Split(s: string, sep: char): (parts: seq<string>)
    ensures |parts| >= 1
    decreases |s|
  {
    match LastIndex(s, sep)
    case None => [s]
    case Some(k) => Split(TrimTrailing(s[..k], sep), sep) + [s[k + 1..]]
  }

  /** A separator followed by a separator-free tail ends the token list with
      that tail, whatever comes before. */
  lemma SplitAppend(s: string, t: string, sep: char)
    requires sep !in t
    ensures Split(s + [sep] + t, sep) == Split(TrimTrailing(s, sep), sep) + [t]
  {
    var x := s + [sep] + t;
    LastIndexAppend(s + [sep], t, sep);
    assert x[..|s|] == s;
    assert x[|s| + 1..] == t;
  }

  /** A string ending in a non-separator is its own trimmed form. */
  lemma TrimTrailingNoOp(s: string, sep: char)
    requires s != [] && s[|s| - 1] != sep
    ensures TrimTrailing(s, sep) == s
  {
  }

  /** A token that ends a string becomes the last token. */
  lemma SplitSnoc(s: string, t: string, sep: char)
    requires s != [] && s[|s| - 1] != sep && sep !in t
    ensures Split(s + [sep] + t, sep) == Split(s, sep) + [t]
  {
    SplitAppend(s, t, sep);
    TrimTrailingNoOp(s, sep);
  }

  /** The last three tokens of base.a.b.c are a, b and c, for any base. */
  lemma SplitLastThree(base: string, a: string, b: string, c: string, sep: char)
    requires a != [] && b != [] && c != []
    requires sep !in a && sep !in b && sep !in c
    ensures var p := Split(base + [sep] + a + [sep] + b + [sep] + c, sep);
      |p| >= 3 && p[|p| - 3] == a && p[|p| - 2] == b && p[|p| - 1] == c
  {
    var x1 := base + [sep] + a;
    var x2 := x1 + [sep] + b;
    var p0 := Split(TrimTrailing(base, sep), sep);
    SplitAppend(base, a, sep);
    EndsInToken(base, a, sep);
    SplitSnoc(x1, b, sep);
    EndsInToken(x1, b, sep);
    SplitSnoc(x2, c, sep);
    LastThreeOf(p0, a, b, c);
  }

  /** A string that ends in a non-empty token does not end in a separator. */
  lemma EndsInToken(x: string, a: string, sep: char)
    requires a != [] && sep !in a
    ensures x + [sep] + a != [] && (x + [sep] + a)[|x + [sep] + a| - 1] != sep
  {
    assert (x + [sep] + a)[|x + [sep] + a| - 1] == a[|a| - 1];
  }

  lemma LastThreeOf<T>(p0: seq<T>, a: T, b: T, c: T)
    ensures var p := p0 + [a] + [b] + [c];
      |p| >= 3 && p[|p| - 3] == a && p[|p| - 2] == b && p[|p| - 1] == c
  {
  }

  /** The source's _starts_with: r is a prefix of l. */
  function StartsWith(l: string, r: string): (b: bool)
    ensures b <==> exists t :: l == r + t
  {
    if |l| < |r| then false
    else
      var head := l[..|r|];
      assert head == r ==> l == r + l[|r|..];
      assert forall t :: l == r + t ==> l[..|r|] == r;
      head == r
  }
}
