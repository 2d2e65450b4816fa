/**
  Characters, bytes, decimal numerals and the handful of Python string
  operations the driver relies on: ASCII encoding and decoding, `str(n)` and
  `int(s)` for integers, `" ".join`, `str.split`, `str.strip` and
  `str.rstrip`.  Each is defined once here, with the lemmas that tie it to
  its inverse or to an independent characterisation.
*/
module Text {

  /** One octet as the USB endpoint carries it. */
  type byte = x: int | 0 <= x < 256

  import opened Outcomes

  // ---------------------------------------------------------------------
  // ASCII
  // ---------------------------------------------------------------------

  predicate IsAscii(s: string) {
    forall i :: 0 <= i < |s| ==> s[i] as int < 128
  }

  /** `s.encode('ascii')` for text that is ASCII (the driver only ever encodes such text). */
  function Encode(s: string): (b: seq<byte>)
    requires IsAscii(s)
    ensures |b| == |s|
    ensures forall i :: 0 <= i < |s| ==> b[i] == s[i] as int
  {
    if s == [] then [] else [s[0] as int as byte] + Encode(s[1..])
  }

  /**
    `bytearray.decode('ascii')`: fails (Python raises UnicodeDecodeError)
    exactly when some byte is 128 or above; otherwise maps byte to character.
  */
  function Decode(b: seq<byte>): (r: Option<string>)
    ensures r.Some? <==> forall i :: 0 <= i < |b| ==> b[i] < 128
    ensures r.Some? ==> |r.value| == |b| && forall i :: 0 <= i < |b| ==> r.value[i] as int == b[i]
  {
    if b == [] then Some([])
    else if b[0] >= 128 then None
    else match Decode(b[1..])
      case None => None
      case Some(t) => Some([b[0] as char] + t)
  }

  lemma DecodeEncode(s: string)
    requires IsAscii(s)
    ensures Decode(Encode(s)) == Some(s)
  {
    var r := Decode(Encode(s));
    assert r.Some?;
    assert r.value == s;
  }

  lemma EncodeDecode(b: seq<byte>)
    requires Decode(b).Some?
    ensures IsAscii(Decode(b).value) && Encode(Decode(b).value) == b
  {
  }

  lemma IsAsciiConcat(a: string, b: string)
    requires IsAscii(a) && IsAscii(b)
    ensures IsAscii(a + b)
  {
    forall i | 0 <= i < |a + b| ensures (a + b)[i] as int < 128 {
      if i < |a| { assert (a + b)[i] == a[i]; } else { assert (a + b)[i] == b[i - |a|]; }
    }
  }

  // ---------------------------------------------------------------------
  // Decimal numerals: Python's str(n) and int(s) on integers
  // ---------------------------------------------------------------------

  predicate IsDigit(c: char) {
    '0' <= c <= '9'
  }

  predicate AllDigits(s: string) {
    forall i :: 0 <= i < |s| ==> IsDigit(s[i])
  }

  function DigitValue(c: char): (d: int)
    requires IsDigit(c)
    ensures 0 <= d < 10
  {
    c as int - '0' as int
  }

  function DigitChar(d: int): (c: char)
    requires 0 <= d < 10
    ensures IsDigit(c) && DigitValue(c) == d
  {
    ('0' as int + d) as char
  }

  /** Python's `str(n)` for a natural number: its decimal digits, most significant first. */
  function NatToString(n: nat): (s: string)
    ensures |s| >= 1 && AllDigits(s)
    ensures s[0] == '0' ==> n == 0
  {
    if n < 10 then [DigitChar(n)] else NatToString(n / 10) + [DigitChar(n % 10)]
  }

  /** Python's `str(n)` for an integer: a minus sign before the digits of a negative number. */
  function IntToString(n: int): (s: string)
    ensures |s| >= 1 && ' ' !in s && '\r' !in s && IsAscii(s)
    ensures IsDigit(s[|s| - 1])
    ensures n >= 0 ==> AllDigits(s)
    ensures n < 0 ==> s[0] == '-' && AllDigits(s[1..])
  {
    var s := if n < 0 then "-" + NatToString(-n) else NatToString(n);
    assert forall i :: 0 <= i < |s| ==> s[i] == '-' || IsDigit(s[i]);
    s
  }

  /** The value of a string of decimal digits (leading zeros allowed, as Python's int() allows them). */
  function DigitsValue(s: string): nat
    requires AllDigits(s)
  {
    if s == [] then 0 else DigitsValue(s[..|s| - 1]) * 10 + DigitValue(s[|s| - 1])
  }

  /**
    A strict decimal numeral: an optional sign followed by one or more
    digits and nothing else, the form `str(n)` produces.
  */
  function Decimal(s: string): Option<int> {
    if |s| > 0 && (s[0] == '-' || s[0] == '+') then
      if |s| > 1 && AllDigits(s[1..]) then
        var magnitude: int := DigitsValue(s[1..]);
        Some(if s[0] == '-' then -magnitude else magnitude)
      else None
    else if |s| > 0 && AllDigits(s) then Some(DigitsValue(s))
    else None
  }

  /** Every rendering `str(n)` is a strict numeral for n. */
  lemma {:induction false} DecimalOfIntToString(n: int)
    ensures Decimal(IntToString(n)) == Some(n)
  {
    var s := IntToString(n);
    if n < 0 {
      assert s == "-" + NatToString(-n);
      assert s[1..] == NatToString(-n);
      DigitsValueOfNatToString(-n);
      var magnitude: int := DigitsValue(s[1..]);
      assert Decimal(s) == Some(-magnitude);
    } else {
      assert s == NatToString(n);
      assert IsDigit(s[0]);
      DigitsValueOfNatToString(n);
      assert Decimal(s) == Some(DigitsValue(s));
    }
  }

  /** `int()` accepts every strict numeral, with the same value. */
  lemma {:induction false} ParseIntOfDecimal(s: string)
    requires Decimal(s).Some?
    ensures ParseInt(s) == Decimal(s)
  {
    if s[0] == '-' || s[0] == '+' {
      DecimalSigned(s);
      ParseIntOfSignedNumeral(s[0], s[1..]);
      assert [s[0]] + s[1..] == s;
    } else {
      assert Decimal(s) == Some(DigitsValue(s));
      ParseIntOfUnsignedNumeral(s);
    }
  }

  lemma DecimalSigned(s: string)
    requires |s| > 1 && (s[0] == '-' || s[0] == '+') && AllDigits(s[1..])
    ensures Decimal(s) == Signed(s[0], Some(DigitsValue(s[1..])))
  {
  }

  lemma {:induction false} ParseIntOfSignedNumeral(sign: char, digits: string)
    requires (sign == '-' || sign == '+') && digits != [] && AllDigits(digits)
    ensures ParseInt([sign] + digits) == Signed(sign, Some(DigitsValue(digits)))
  {
    var none: string := [];
    ParseIntSignedDigits(none, sign, none, digits, none);
    NoPadding([sign], digits);
  }

  lemma NoPadding(a: string, b: string)
    ensures [] + (a + ([] + (b + []))) == a + b
  {
  }

  lemma {:induction false} ParseIntOfUnsignedNumeral(digits: string)
    requires digits != [] && AllDigits(digits)
    ensures ParseInt(digits) == Some(DigitsValue(digits))
  {
    var none: string := [];
    ParseIntUnsignedDigits(none, digits, none);
    assert none + (digits + none) == digits;
  }

  /**
    Python 2's `int(s)` on a unicode string, base 10: leading whitespace, an
    optional sign, more whitespace (CPython's `PyOS_strtol` skips it again
    after the sign), one or more decimal digits, then trailing whitespace
    only; anything else is a ValueError, here None.
  */
  function ParseInt(s: string): Option<int> {
    var t := LStrip(s);
    if t != [] && (t[0] == '-' || t[0] == '+') then Signed(t[0], Magnitude(LStrip(t[1..])))
    else Magnitude(t)
  }

  /** A magnitude under a sign character. */
  function Signed(sign: char, magnitude: Option<int>): Option<int> {
    match magnitude
    case None => None
    case Some(m) => Some(if sign == '-' then -m else m)
  }

  /** The unsigned part of `int(s)`: decimal digits followed only by whitespace. */
  function Magnitude(s: string): Option<int> {
    var d := RStrip(s);
    if d != [] && AllDigits(d) then Some(DigitsValue(d)) else None
  }

  /** Digits followed by whitespace have the digits' value. */
  lemma MagnitudeOfDigits(digits: string, trail: string)
    requires digits != [] && AllDigits(digits) && AllSpace(trail)
    ensures Magnitude(digits + trail) == Some(DigitsValue(digits))
  {
    var s := digits + trail;
    assert s[..|digits|] == digits && s[|digits|..] == trail;
    RStripIff(s, digits);
  }

  /** `int()` skips whitespace around unsigned digits: `int(u" 5 ") == 5`. */
  lemma {:induction false} ParseIntUnsignedDigits(lead: string, digits: string, trail: string)
    requires AllSpace(lead) && AllSpace(trail)
    requires digits != [] && AllDigits(digits)
    ensures ParseInt(lead + (digits + trail)) == Some(DigitsValue(digits))
  {
    var body := digits + trail;
    MagnitudeOfDigits(digits, trail);
    assert body[0] == digits[0];
    LStripPadded(lead, body);
    ParseIntUnsigned(lead + body, body);
  }

  /**
    `int()` also skips whitespace between the sign and the digits, as
    CPython's `PyOS_strtol` does: `int(u" - 5 ") == -5`.
  */
  lemma {:induction false} ParseIntSignedDigits(lead: string, sign: char, gap: string, digits: string, trail: string)
    requires AllSpace(lead) && AllSpace(gap) && AllSpace(trail)
    requires sign == '-' || sign == '+'
    requires digits != [] && AllDigits(digits)
    ensures ParseInt(lead + ([sign] + (gap + (digits + trail)))) == Signed(sign, Some(DigitsValue(digits)))
  {
    var body := digits + trail;
    var rest := gap + body;
    MagnitudeOfDigits(digits, trail);
    assert body[0] == digits[0];
    LStripPadded(lead, [sign] + rest);
    LStripPadded(gap, body);
    ParseIntSigned(lead + ([sign] + rest), sign, rest);
  }

  /**
    The parts of a text `int()` accepts: whitespace, an optional sign,
    whitespace (only after a sign), one or more digits, whitespace.
  */
  predicate IntLiteral(lead: string, sign: string, gap: string, digits: string, trail: string) {
    && AllSpace(lead) && AllSpace(gap) && AllSpace(trail)
    && digits != [] && AllDigits(digits)
    && |sign| <= 1 && (sign != [] ==> sign[0] == '-' || sign[0] == '+')
    && (sign == [] ==> gap == [])
  }

  /** The value of an accepted text: the digits' value, negated under '-'. */
  function LiteralValue(sign: string, digits: string): int
    requires AllDigits(digits)
  {
    var magnitude: int := DigitsValue(digits);
    if sign != [] && sign[0] == '-' then -magnitude else magnitude
  }

  /** Every text built from literal parts is accepted, with the literal's value. */
  lemma {:induction false} ParseIntOfLiteral(lead: string, sign: string, gap: string, digits: string, trail: string)
    requires IntLiteral(lead, sign, gap, digits, trail)
    ensures ParseInt(lead + sign + gap + digits + trail) == Some(LiteralValue(sign, digits))
  {
    ConcatFive(lead, sign, gap, digits, trail);
    if sign == [] {
      ParseIntOfUnsignedLiteral(lead, gap, digits, trail);
    } else {
      ParseIntOfSignedLiteral(lead, sign, gap, digits, trail);
    }
  }

  lemma ConcatFive(a: string, b: string, c: string, d: string, e: string)
    ensures a + b + c + d + e == a + (b + (c + (d + e)))
  {
  }

  lemma {:induction false} ParseIntOfUnsignedLiteral(lead: string, gap: string, digits: string, trail: string)
    requires IntLiteral(lead, [], gap, digits, trail)
    ensures ParseInt(lead + ([] + (gap + (digits + trail)))) == Some(LiteralValue([], digits))
  {
    assert [] + (gap + (digits + trail)) == digits + trail;
    ParseIntUnsignedDigits(lead, digits, trail);
  }

  lemma {:induction false} ParseIntOfSignedLiteral(lead: string, sign: string, gap: string, digits: string, trail: string)
    requires IntLiteral(lead, sign, gap, digits, trail) && sign != []
    ensures ParseInt(lead + (sign + (gap + (digits + trail)))) == Some(LiteralValue(sign, digits))
  {
    var c := sign[0];
    assert sign == [c];
    ParseIntSignedDigits(lead, c, gap, digits, trail);
    SignedLiteralValue(c, digits);
  }

  lemma SignedLiteralValue(c: char, digits: string)
    requires AllDigits(digits)
    ensures Signed(c, Some(DigitsValue(digits))) == Some(LiteralValue([c], digits))
  {
    assert [c][0] == c;
  }

  /**
    The converse: whatever `int()` accepts is made of literal parts, and its
    value is the literal's. Text with any other character, such as "5x",
    "5 5", "+-5" or "0x10", is rejected with a ValueError.
  */
  lemma {:induction false} ParseIntAccepted(s: string, v: int)
    requires ParseInt(s) == Some(v)
    ensures exists lead, sign, gap, digits, trail ::
      IntLiteral(lead, sign, gap, digits, trail) && s == lead + sign + gap + digits + trail && v == LiteralValue(sign, digits)
  {
    var lead, sign, gap, digits, trail := LiteralOfAccepted(s, v);
    ConcatFive(lead, sign, gap, digits, trail);
  }

  /** `int()` accepts exactly the texts made of literal parts, with the literal's value. */
  lemma {:induction false} ParseIntIff(s: string, v: int)
    ensures ParseInt(s) == Some(v) <==> exists lead, sign, gap, digits, trail ::
      IntLiteral(lead, sign, gap, digits, trail) && s == lead + sign + gap + digits + trail && v == LiteralValue(sign, digits)
  {
    if ParseInt(s) == Some(v) {
      ParseIntAccepted(s, v);
    }
    if exists lead, sign, gap, digits, trail ::
      IntLiteral(lead, sign, gap, digits, trail) && s == lead + sign + gap + digits + trail && v == LiteralValue(sign, digits)
    {
      var lead, sign, gap, digits, trail :|
        IntLiteral(lead, sign, gap, digits, trail) && s == lead + sign + gap + digits + trail && v == LiteralValue(sign, digits);
      ParseIntOfLiteral(lead, sign, gap, digits, trail);
    }
  }

  lemma {:induction false} LiteralOfAccepted(s: string, v: int) returns (lead: string, sign: string, gap: string, digits: string, trail: string)
    requires ParseInt(s) == Some(v)
    ensures IntLiteral(lead, sign, gap, digits, trail)
    ensures s == lead + (sign + (gap + (digits + trail))) && v == LiteralValue(sign, digits)
  {
    var t := LStrip(s);
    lead := LStripParts(s);
    if t != [] && (t[0] == '-' || t[0] == '+') {
      assert Signed(t[0], Magnitude(LStrip(t[1..]))) == Some(v);
      gap := LStripParts(t[1..]);
      var u := LStrip(t[1..]);
      var m := Magnitude(u).value;
      sign, digits, trail := SignedAccepted(t, gap, u, m);
    } else {
      assert Magnitude(t) == Some(v);
      sign, gap, digits, trail := UnsignedAccepted(t, v);
    }
  }

  /** Text after the leading whitespace that has no sign and is accepted. */
  lemma UnsignedAccepted(t: string, v: int) returns (sign: string, gap: string, digits: string, trail: string)
    requires Magnitude(t) == Some(v)
    ensures IntLiteral([], sign, gap, digits, trail)
    ensures t == sign + (gap + (digits + trail)) && v == LiteralValue(sign, digits)
  {
    sign, gap := [], [];
    digits, trail := MagnitudeAccepted(t, v);
    assert sign + (gap + (digits + trail)) == t;
  }

  /** Text after the leading whitespace that starts with a sign and is accepted. */
  lemma {:induction false} SignedAccepted(t: string, gap: string, u: string, m: int) returns (sign: string, digits: string, trail: string)
    requires t != [] && (t[0] == '-' || t[0] == '+')
    requires AllSpace(gap) && t[1..] == gap + u && Magnitude(u) == Some(m)
    ensures IntLiteral([], sign, gap, digits, trail)
    ensures t == sign + (gap + (digits + trail)) && Signed(t[0], Some(m)) == Some(LiteralValue(sign, digits))
  {
    sign := [t[0]];
    digits, trail := MagnitudeAccepted(u, m);
    SignedLiteralValue(t[0], digits);
    HeadSplit(t, gap, digits + trail);
  }

  lemma HeadSplit(t: string, a: string, b: string)
    requires t != [] && t[1..] == a + b
    ensures t == [t[0]] + (a + b)
  {
    assert t == [t[0]] + t[1..];
  }

  /** The whitespace `lstrip()` removes, before what it keeps. */
  lemma LStripParts(s: string) returns (lead: string)
    ensures AllSpace(lead) && s == lead + LStrip(s)
  {
    lead := s[..|s| - |LStrip(s)|];
  }

  /** An accepted magnitude is digits followed by whitespace, with the digits' value. */
  lemma MagnitudeAccepted(u: string, m: int) returns (digits: string, trail: string)
    requires Magnitude(u) == Some(m)
    ensures digits != [] && AllDigits(digits) && AllSpace(trail)
    ensures u == digits + trail && m == DigitsValue(digits)
  {
    digits := RStrip(u);
    trail := u[|digits|..];
    assert u == digits + trail;
  }

  /** Without a sign, `int()` is the magnitude of the text after the leading whitespace. */
  lemma ParseIntUnsigned(s: string, body: string)
    requires LStrip(s) == body && body != [] && IsDigit(body[0])
    ensures ParseInt(s) == Magnitude(body)
  {
  }

  /** With a sign, `int()` is the signed magnitude of what follows it, leading whitespace skipped. */
  lemma ParseIntSigned(s: string, sign: char, rest: string)
    requires LStrip(s) == [sign] + rest && (sign == '-' || sign == '+')
    ensures ParseInt(s) == Signed(sign, Magnitude(LStrip(rest)))
  {
    var t := [sign] + rest;
    assert t[1..] == rest;
  }

  /** Text without a decimal digit is never a number: `int()` raises ValueError. */
  lemma {:induction false} ParseIntNeedsDigit(s: string)
    requires forall i :: 0 <= i < |s| ==> !IsDigit(s[i])
    ensures ParseInt(s) == None
  {
    var t := LStrip(s);
    NoDigitInSuffix(s, t);
    MagnitudeNeedsDigit(t);
    if t != [] {
      NoDigitInSuffix(t, t[1..]);
      var u := LStrip(t[1..]);
      NoDigitInSuffix(t[1..], u);
      MagnitudeNeedsDigit(u);
    }
  }

  lemma NoDigitInSuffix(s: string, t: string)
    requires forall i :: 0 <= i < |s| ==> !IsDigit(s[i])
    requires |t| <= |s| && t == s[|s| - |t|..]
    ensures forall i :: 0 <= i < |t| ==> !IsDigit(t[i])
  {
    forall i | 0 <= i < |t| ensures !IsDigit(t[i]) {
      assert t[i] == s[|s| - |t| + i];
    }
  }

  lemma MagnitudeNeedsDigit(s: string)
    requires forall i :: 0 <= i < |s| ==> !IsDigit(s[i])
    ensures Magnitude(s) == None
  {
    var d := RStrip(s);
    if d != [] {
      assert d[0] == s[0];
    }
  }

  lemma {:induction false} DigitsValueOfNatToString(n: nat)
    ensures DigitsValue(NatToString(n)) == n
  {
    if n >= 10 {
      DigitsValueOfNatToString(n / 10);
      var s := NatToString(n);
      assert s[..|s| - 1] == NatToString(n / 10);
    }
  }

  /** `int(str(n)) == n`: the decimal rendering of every integer reads back as that integer. */
  lemma {:induction false} ParseIntOfIntToString(n: int)
    ensures ParseInt(IntToString(n)) == Some(n)
  {
    DecimalOfIntToString(n);
    ParseIntOfDecimal(IntToString(n));
  }

  /** `int(u"- 5") == -5`: the space after the sign is skipped. */
  lemma {:induction false} ParseIntOfSpacedNegative(m: nat)
    ensures ParseInt("- " + NatToString(m)) == Some(-(m as int))
  {
    var digits := NatToString(m);
    var none: string := [];
    DigitsValueOfNatToString(m);
    ParseIntSignedDigits(none, '-', " ", digits, none);
    SpacedSign(digits);
  }

  lemma SpacedSign(digits: string)
    ensures [] + (['-'] + (" " + (digits + []))) == "- " + digits
  {
  }

  /** Bare digits, with nothing around them, read as their value. */
  lemma ParseIntOfDigits(digits: string)
    requires digits != [] && AllDigits(digits)
    ensures LStrip(digits) == digits
    ensures ParseInt(digits) == Magnitude(digits) == Some(DigitsValue(digits))
  {
    assert RStrip(digits) == digits;
  }

  /** `str(n) == "0"` holds for zero and for no other integer. */
  lemma IntToStringIsZero(n: int)
    ensures IntToString(n) == "0" <==> n == 0
  {
    if IntToString(n) == "0" {
      ParseIntOfIntToString(n);
      assert DigitsValue("0") == 0;
    }
  }

  // ---------------------------------------------------------------------
  // Whitespace: Python's str.strip() and str.rstrip()
  // ---------------------------------------------------------------------

  /**
    Python's `isspace` on an ASCII character: space, the controls \t \n \v
    \f \r (9 to 13) and the separators 28 to 31.  NUL is not whitespace.
  */
  predicate IsSpace(c: char) {
    c == ' ' || 9 <= c as int <= 13 || 28 <= c as int <= 31
  }

  predicate AllSpace(s: string) {
    forall i :: 0 <= i < |s| ==> IsSpace(s[i])
  }

  /** `s.rstrip()`: the longest prefix of `s` that does not end in whitespace. */
  function RStrip(s: string): (r: string)
    ensures |r| <= |s| && r == s[..|r|]
    ensures AllSpace(s[|r|..])
    ensures r == [] || !IsSpace(r[|r| - 1])
  {
    if s != [] && IsSpace(s[|s| - 1]) then
      var t := s[..|s| - 1];
      var r := RStrip(t);
      assert s[|r|..] == t[|r|..] + [s[|s| - 1]];
      r
    else s
  }

  /** `s.lstrip()`: the longest suffix of `s` that does not start with whitespace. */
  function LStrip(s: string): (r: string)
    ensures |r| <= |s| && r == s[|s| - |r|..]
    ensures AllSpace(s[..|s| - |r|])
    ensures r == [] || !IsSpace(r[0])
  {
    if s != [] && IsSpace(s[0]) then
      var t := s[1..];
      var r := LStrip(t);
      assert s[..|s| - |r|] == [s[0]] + t[..|t| - |r|];
      r
    else s
  }

  /** `s.strip()`: what remains neither starts nor ends with whitespace. */
  function Strip(s: string): (r: string)
    ensures |r| <= |s|
    ensures r == [] || (!IsSpace(r[0]) && !IsSpace(r[|r| - 1]))
  {
    var t := RStrip(s);
    var r := LStrip(t);
    assert r != [] ==> r[|r| - 1] == t[|t| - 1];
    r
  }

  /**
    `s.rstrip() == t` for a `t` that does not end in whitespace holds
    exactly when `s` is `t` followed by whitespace only.
  */
  lemma RStripIff(s: string, t: string)
    requires t == [] || !IsSpace(t[|t| - 1])
    ensures RStrip(s) == t <==> |t| <= |s| && s[..|t|] == t && AllSpace(s[|t|..])
  {
  }

  /** Stripping text that neither starts nor ends in whitespace, after padding it with whitespace, gives it back. */
  lemma StripPadded(lead: string, t: string, trail: string)
    requires AllSpace(lead) && AllSpace(trail)
    requires t == [] || (!IsSpace(t[0]) && !IsSpace(t[|t| - 1]))
    ensures Strip(lead + t + trail) == t
  {
    var s := lead + t + trail;
    if t == [] {
      assert AllSpace(s);
      RStripAllSpace(s);
    } else {
      RStripIff(s, lead + t);
      LStripPadded(lead, t);
    }
  }

  lemma {:induction false} RStripAllSpace(s: string)
    requires AllSpace(s)
    ensures RStrip(s) == []
  {
    if s != [] {
      RStripAllSpace(s[..|s| - 1]);
    }
  }

  lemma {:induction false} LStripPadded(w: string, t: string)
    requires AllSpace(w)
    requires t == [] || !IsSpace(t[0])
    ensures LStrip(w + t) == t
  {
    if w == [] {
      assert w + t == t;
    } else {
      assert (w + t)[0] == w[0];
      assert (w + t)[1..] == w[1..] + t;
      LStripPadded(w[1..], t);
    }
  }

  // ---------------------------------------------------------------------
  // Searching: the second piece of Python's str.split(sep)
  // ---------------------------------------------------------------------

  predicate OccursAt(s: string, pat: string, k: int) {
    0 <= k && k + |pat| <= |s| && s[k..k + |pat|] == pat
  }

  /** The first position at or after `k` where `pat` occurs in `s`. */
  function FindFrom(s: string, pat: string, k: nat): (r: Option<nat>)
    requires k <= |s|
    ensures r.Some? ==> k <= r.value && OccursAt(s, pat, r.value)
    ensures r.Some? ==> forall j :: k <= j < r.value ==> !OccursAt(s, pat, j)
    ensures r.None? ==> forall j :: k <= j ==> !OccursAt(s, pat, j)
    decreases |s| - k
  {
    if OccursAt(s, pat, k) then Some(k)
    else if k == |s| then None
    else FindFrom(s, pat, k + 1)
  }

  /**
    `s.split(sep)[1]` in Python: the text between the first occurrence of
    `sep` and the next one (or the end of `s`); None where Python raises
    IndexError because `sep` does not occur at all.
  */
  function SecondPiece(s: string, sep: string): (r: Option<string>)
    requires |sep| > 0
    ensures r.None? <==> FindFrom(s, sep, 0).None?
  {
    match FindFrom(s, sep, 0)
    case None => None
    case Some(k) =>
      var rest := s[k + |sep|..];
      match FindFrom(rest, sep, 0)
      case None => Some(rest)
      case Some(j) => Some(rest[..j])
  }

  /**
    When the text starts with `sep` and `sep` does not occur again, the
    second piece is everything after the leading `sep`.
  */
  lemma SecondPieceAfterPrefix(sep: string, p: string)
    requires |sep| > 0
    requires forall j :: !OccursAt(p, sep, j)
    ensures SecondPiece(sep + p, sep) == Some(p)
  {
    var s := sep + p;
    assert s[0..|sep|] == sep;
    assert OccursAt(s, sep, 0);
    assert s[|sep|..] == p;
  }

  /** `sep` nowhere in `s` is the one case in which the second piece is missing. */
  lemma SecondPieceMissing(s: string, sep: string)
    requires |sep| > 0
    ensures SecondPiece(s, sep).None? <==> forall j :: !OccursAt(s, sep, j)
  {
    if SecondPiece(s, sep).Some? {
      var k := FindFrom(s, sep, 0).value;
      assert OccursAt(s, sep, k);
    }
  }

  // ---------------------------------------------------------------------
  // Joining and splitting on a single character
  // ---------------------------------------------------------------------

  /** Python's `sep.join(parts)`. */
  function Join(parts: seq<string>, sep: string): string {
    if |parts| == 0 then ""
    else if |parts| == 1 then parts[0]
    else parts[0] + sep + Join(parts[1..], sep)
  }

  lemma JoinPair(a: string, b: string, sep: string)
    ensures Join([a, b], sep) == a + sep + b
  {
    assert [a, b][1..] == [b];
  }

  lemma JoinTriple(a: string, b: string, c: string, sep: string)
    ensures Join([a, b, c], sep) == a + sep + b + sep + c
  {
    assert [a, b, c][1..] == [b, c];
    JoinPair(b, c, sep);
  }

  /** `s.split(c)` for a one-character separator: always at least one piece. */
  function SplitOn(s: string, c: char): (r: seq<string>)
    ensures |r| >= 1
  {
    if s == [] then [[]]
    else if s[0] == c then [[]] + SplitOn(s[1..], c)
    else
      var rest := SplitOn(s[1..], c);
      [[s[0]] + rest[0]] + rest[1..]
  }

  /** Splitting is a homomorphism: a separator between two texts separates their pieces. */
  lemma {:induction false} SplitOnAround(a: string, b: string, c: char)
    ensures SplitOn(a + [c] + b, c) == SplitOn(a, c) + SplitOn(b, c)
  {
    if a == [] {
      assert a + [c] + b == [c] + b;
    } else {
      assert (a + [c] + b)[1..] == a[1..] + [c] + b;
      SplitOnAround(a[1..], b, c);
    }
  }

  lemma {:induction false} SplitOnAbsent(s: string, c: char)
    requires c !in s
    ensures SplitOn(s, c) == [s]
  {
    if s != [] {
      assert c !in s[1..];
      SplitOnAbsent(s[1..], c);
      assert [s[0]] + s[1..] == s;
    }
  }

  function NonEmpty(ps: seq<string>): (r: seq<string>)
    ensures forall i :: 0 <= i < |r| ==> r[i] != []
  {
    if ps == [] then []
    else if ps[0] == [] then NonEmpty(ps[1..])
    else [ps[0]] + NonEmpty(ps[1..])
  }

  lemma {:induction false} NonEmptyConcat(a: seq<string>, b: seq<string>)
    ensures NonEmpty(a + b) == NonEmpty(a) + NonEmpty(b)
  {
    if a == [] {
      assert a + b == b;
    } else {
      assert (a + b)[0] == a[0];
      assert (a + b)[1..] == a[1..] + b;
      NonEmptyConcat(a[1..], b);
    }
  }

  /** The space-separated words of `s`, empty pieces dropped. */
  function Words(s: string): seq<string> {
    NonEmpty(SplitOn(s, ' '))
  }

  /** The words of a joined text are the words of its parts, in order. */
  function WordsOfAll(parts: seq<string>): seq<string> {
    if parts == [] then [] else Words(parts[0]) + WordsOfAll(parts[1..])
  }

  lemma WordsAround(a: string, b: string)
    ensures Words(a + " " + b) == Words(a) + Words(b)
  {
    SplitOnAround(a, b, ' ');
    NonEmptyConcat(SplitOn(a, ' '), SplitOn(b, ' '));
  }

  lemma {:induction false} WordsOfJoin(parts: seq<string>)
    ensures Words(Join(parts, " ")) == WordsOfAll(parts)
  {
    if |parts| == 0 {
    } else if |parts| == 1 {
      assert WordsOfAll(parts[1..]) == [];
    } else {
      WordsOfJoin(parts[1..]);
      WordsAround(parts[0], Join(parts[1..], " "));
    }
  }

  /** A non-empty text without spaces is one word. */
  lemma WordsOfWord(w: string)
    requires w != [] && ' ' !in w
    ensures Words(w) == [w]
  {
    SplitOnAbsent(w, ' ');
    assert NonEmpty([w]) == [w] + NonEmpty([w][1..]);
    assert [w][1..] == [];
  }

  /** A trailing space adds no word. */
  lemma WordsOfPadded(w: string)
    requires w != [] && ' ' !in w
    ensures Words(w + " ") == [w]
  {
    WordsAround(w, "");
    assert w + " " + "" == w + " ";
    WordsOfWord(w);
  }
}
