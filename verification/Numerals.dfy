/** Reading numbers the way std::strtoul reads them, and writing them in lower-case hexadecimal. */
module Numerals {
  import opened Text

  const SIZE_MODULUS: nat := 0x1_0000_0000_0000_0000

  predicate InBase(c: char, base: nat) {
    if base == 16 then IsHexDigit(c) else IsDigit(c)
  }

  /** The length of the longest run of digits at the front. */
  function DigitRun(s: string, base: nat): (n: nat)
    ensures n <= |s|
    ensures forall i :: 0 <= i < n ==> InBase(s[i], base)
    ensures n < |s| ==> !InBase(s[n], base)
  {
    if s != "" && InBase(s[0], base) then 1 + DigitRun(s[1..], base) else 0
  }

  function Digit(c: char): (v: nat)
    ensures v < 16
  {
    if IsHexDigit(c) then HexValue(c) else 0
  }

  /** The number a digit string denotes, most significant digit first. */
  function ValueOf(s: string, base: nat): nat {
    if s == "" then 0 else ValueOf(s[..|s| - 1], base) * base + Digit(s[|s| - 1])
  }

  /** c_str() hands strtoul the text up to the first NUL byte. */
  function CString(s: string): string {
    if s == "" || s[0] == '\0' then "" else [s[0]] + CString(s[1..])
  }

  function SkipSpaces(s: string): string {
    if s != "" && IsSpace(s[0]) then SkipSpaces(s[1..]) else s
  }

  /** strtoul saturates at the largest 64-bit value, and a minus sign negates modulo 2^64. */
  function Narrow(v: nat, negative: bool): (r: nat)
    ensures r < SIZE_MODULUS
  {
    if v >= SIZE_MODULUS then SIZE_MODULUS - 1
    else if negative then (SIZE_MODULUS - v) % SIZE_MODULUS
    else v
  }

  /** strtoul followed by the caller's test `*endptr == '\0'`: the value, or None when text is left over.
      With no digits at all endptr is the start of the text, so only the empty text passes. */
  function Strtoul(text: string, base: nat): (r: Option<nat>)
    ensures r.Some? ==> r.value < SIZE_MODULUS
  {
    var s := CString(text);
    var t := SkipSpaces(s);
    var negative := t != "" && t[0] == '-';
    var u := if t != "" && (t[0] == '-' || t[0] == '+') then t[1..] else t;
    var prefixed := base == 16 && |u| >= 3 && u[0] == '0' && (u[1] == 'x' || u[1] == 'X') && IsHexDigit(u[2]);
    var v := if prefixed then u[2..] else u;
    var n := DigitRun(v, base);
    if n == 0 then (if s == "" then Some(0) else None)
    else if n == |v| then Some(Narrow(ValueOf(v, base), negative))
    else None
  }

  // ---------------------------------------------------------------- the sender's hexadecimal

  function HexChar(d: nat): (c: char)
    requires d < 16
    ensures IsHexDigit(c) && HexValue(c) == d && !('A' <= c <= 'F')
  {
    if d < 10 then ('0' as int + d) as char else ('a' as int + d - 10) as char
  }

  /** Python's f"{n:x}". */
  function Hex(n: nat): (s: string)
    ensures s != "" && forall i :: 0 <= i < |s| ==> IsHexDigit(s[i])
  {
    if n < 16 then [HexChar(n)] else Hex(n / 16) + [HexChar(n % 16)]
  }

  lemma {:induction false} HexValueOf(n: nat)
    ensures ValueOf(Hex(n), 16) == n
  {
    if n < 16 {
      assert [HexChar(n)][..0] == "";
      assert ValueOf([HexChar(n)], 16) == ValueOf("", 16) * 16 + n;
    } else {
      HexValueOf(n / 16);
      var s := Hex(n);
      assert s[..|s| - 1] == Hex(n / 16) && s[|s| - 1] == HexChar(n % 16);
      assert ValueOf(s, 16) == ValueOf(Hex(n / 16), 16) * 16 + n % 16;
    }
  }

  lemma {:induction false} CStringPlain(s: string)
    requires '\0' !in s
    ensures CString(s) == s
  {
    if s != "" {
      assert s[0] in s;
      CStringPlain(s[1..]);
    }
  }

  lemma DigitRunWhole(s: string, base: nat)
    requires forall i :: 0 <= i < |s| ==> InBase(s[i], base)
    ensures DigitRun(s, base) == |s|
  {
  }

  /** A non-empty string of digits is read as the number it denotes, as long as 64 bits hold it. */
  lemma StrtoulDigits(s: string, base: nat)
    requires base == 10 || base == 16
    requires s != "" && forall i :: 0 <= i < |s| ==> InBase(s[i], base)
    ensures Strtoul(s, base) == Some(Narrow(ValueOf(s, base), false))
  {
    CStringPlain(s);
    assert !IsSpace(s[0]);
    DigitRunWhole(s, base);
    if base == 16 && |s| >= 2 { assert s[1] != 'x' && s[1] != 'X'; }
  }

  lemma {:induction false} DigitRunStops(digits: string, rest: string, base: nat)
    requires forall i :: 0 <= i < |digits| ==> InBase(digits[i], base)
    requires rest == "" || !InBase(rest[0], base)
    ensures DigitRun(digits + rest, base) == |digits|
    decreases |digits|
  {
    if digits == "" {
      assert digits + rest == rest;
    } else {
      assert (digits + rest)[1..] == digits[1..] + rest;
      DigitRunStops(digits[1..], rest, base);
    }
  }

  lemma {:induction false} SpacesSkipped(spaces: string, s: string)
    requires (forall i :: 0 <= i < |spaces| ==> IsSpace(spaces[i])) && s != "" && !IsSpace(s[0])
    ensures SkipSpaces(spaces + s) == s
    decreases |spaces|
  {
    if spaces == "" {
      assert spaces + s == s;
    } else {
      assert (spaces + s)[1..] == spaces[1..] + s;
      SpacesSkipped(spaces[1..], s);
    }
  }

  lemma {:induction false} CStringEnds(s: string, end: string)
    requires '\0' !in s && (end == "" || end[0] == '\0')
    ensures CString(s + end) == s
    decreases |s|
  {
    if s == "" {
      assert s + end == end;
    } else {
      assert (s + end)[1..] == s[1..] + end;
      assert s[0] in s;
      CStringEnds(s[1..], end);
    }
  }

  /** What strtoul makes of a number: saturated, and negated modulo 2^64 behind a minus sign. */
  function Unsigned(v: nat, negative: bool): int {
    if v >= 0x1_0000_0000_0000_0000 then 0xFFFF_FFFF_FFFF_FFFF
    else if negative && v > 0 then 0x1_0000_0000_0000_0000 - v
    else v
  }

  /** Main result on numbers: blanks, a sign, in base 16 a 0x, and digits are a number; anything between the digits and
      the end of the C string makes it none. */
  lemma StrtoulExactly(spaces: string, sign: string, prefix: string, digits: string, rest: string, end: string,
                       base: nat)
    requires base == 10 || base == 16
    requires forall i :: 0 <= i < |spaces| ==> spaces[i] == ' ' || 9 <= spaces[i] as int <= 13
    requires sign in {"", "+", "-"} && (prefix == "" || (base == 16 && prefix in {"0x", "0X"}))
    requires digits != "" && forall i :: 0 <= i < |digits| ==> InBase(digits[i], base)
    requires '\0' !in rest && (rest == "" || !InBase(rest[0], base)) && (end == "" || end[0] == '\0')
    requires digits == "0" && |rest| >= 2 && rest[0] in "xX" ==> base == 10 || !IsHexDigit(rest[1])
    ensures var r := Strtoul(spaces + (sign + (prefix + (digits + rest))) + end, base);
            if rest == "" then r.Some? && r.value == Unsigned(ValueOf(digits, base), sign == "-") else r == None
  {
    hide DigitRun;
    hide ValueOf;
    hide SkipSpaces;
    hide CString;
    var u := prefix + (digits + rest);
    var t := sign + u;
    SignedText(spaces, sign, prefix, digits, rest);
    CStringEnds(spaces + t, end);
    SpacesSkipped(spaces, t);
    DigitRunStops(digits, rest, base);
    SignCut(sign, u);
    PrefixCut(prefix, digits, rest, base);
    AppendParts(digits, rest);
    if rest == "" { assert digits + rest == digits; }
    UnsignedIsNarrow(ValueOf(digits, base), sign == "-");
  }

  lemma UnsignedIsNarrow(v: nat, negative: bool)
    ensures Narrow(v, negative) == Unsigned(v, negative)
  {
  }

  lemma SignedText(spaces: string, sign: string, prefix: string, digits: string, rest: string)
    requires forall i :: 0 <= i < |spaces| ==> spaces[i] == ' ' || 9 <= spaces[i] as int <= 13
    requires sign in {"", "+", "-"} && prefix in {"", "0x", "0X"}
    requires digits != "" && (forall i :: 0 <= i < |digits| ==> IsHexDigit(digits[i])) && '\0' !in rest
    ensures var t := sign + (prefix + (digits + rest));
            && '\0' !in spaces + t && t != "" && !IsSpace(t[0])
            && forall i :: 0 <= i < |spaces| ==> IsSpace(spaces[i])
  {
    var u := prefix + (digits + rest);
    assert '\0' !in digits && '\0' !in prefix && '\0' !in sign && '\0' !in spaces;
    assert '\0' !in digits + rest;
    assert '\0' !in u;
    assert u[0] == if prefix == "" then digits[0] else '0';
  }

  lemma SignCut(sign: string, u: string)
    requires sign in {"", "+", "-"} && u != "" && IsHexDigit(u[0])
    ensures var t := sign + u;
            && (t[0] == '-' <==> sign == "-")
            && (if t[0] == '-' || t[0] == '+' then t[1..] else t) == u
  {
    if sign == "" { assert sign + u == u; }
  }

  lemma PrefixCut(prefix: string, digits: string, rest: string, base: nat)
    requires base == 10 || base == 16
    requires prefix == "" || (base == 16 && prefix in {"0x", "0X"})
    requires digits != "" && forall i :: 0 <= i < |digits| ==> InBase(digits[i], base)
    requires digits == "0" && |rest| >= 2 && rest[0] in "xX" ==> base == 10 || !IsHexDigit(rest[1])
    ensures var u := prefix + (digits + rest);
            var prefixed := base == 16 && |u| >= 3 && u[0] == '0' && (u[1] == 'x' || u[1] == 'X') && IsHexDigit(u[2]);
            u != "" && IsHexDigit(u[0]) && (if prefixed then u[2..] else u) == digits + rest
  {
    var u := prefix + (digits + rest);
    if prefix == "" {
      assert u == digits + rest;
    } else {
      assert u[2..] == digits + rest && u[2] == digits[0];
    }
  }

  lemma StrtoulEmpty(base: nat)
    ensures Strtoul("", base) == Some(0)
  {
  }

  /** Reading inverts printing for every size a 64-bit counter can hold. */
  lemma StrtoulHex(n: nat)
    requires n < SIZE_MODULUS
    ensures Strtoul(Hex(n), 16) == Some(n)
  {
    HexValueOf(n);
    StrtoulDigits(Hex(n), 16);
  }

  // ---------------------------------------------------------------- decimal

  /** The usual decimal print of a number. */
  function Dec(n: nat): (s: string)
    ensures s != "" && forall i :: 0 <= i < |s| ==> IsDigit(s[i])
  {
    if n < 10 then [('0' as int + n) as char] else Dec(n / 10) + [('0' as int + n % 10) as char]
  }

  lemma {:induction false} DecValueOf(n: nat)
    ensures ValueOf(Dec(n), 10) == n
  {
    var s := Dec(n);
    if n < 10 {
      assert s[..0] == "";
      assert ValueOf(s, 10) == ValueOf("", 10) * 10 + Digit(s[0]);
    } else {
      DecValueOf(n / 10);
      assert s[..|s| - 1] == Dec(n / 10);
    }
  }

  /** Reading inverts printing, for every number 64 bits hold. */
  lemma StrtoulDec(n: nat)
    requires n < SIZE_MODULUS
    ensures Strtoul(Dec(n), 10) == Some(n)
  {
    hide Dec;
    DecValueOf(n);
    StrtoulDigits(Dec(n), 10);
  }
}
