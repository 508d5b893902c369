/** Rust's `str::parse` for the signed integer types `i8`, `i16`, `i32` and `i64`:
    an optional `+` or `-`, then one or more ASCII digits, no spaces, and a value
    that fits the type. */
module Numbers {
  import opened Errors

  /** The signed integer types a style field is parsed as. */
  datatype Width = I8 | I16 | I32 | I64

  /** The smallest value of the type. */
  function MinOf(w: Width): int {
    match w
    case I8 => -0x80
    case I16 => -0x8000
    case I32 => -0x8000_0000
    case I64 => -0x8000_0000_0000_0000
  }

  /** The largest value of the type. */
  function MaxOf(w: Width): int {
    match w
    case I8 => 0x7F
    case I16 => 0x7FFF
    case I32 => 0x7FFF_FFFF
    case I64 => 0x7FFF_FFFF_FFFF_FFFF
  }

  predicate IsDigit(c: char) {
    '0' as int <= c as int <= '9' as int
  }

  /** One or more decimal digits. */
  predicate IsDigits(s: string) {
    s != [] && forall k | 0 <= k < |s| :: IsDigit(s[k])
  }

  /** The value of a decimal digit string, most significant digit first. */
  function DigitsValue(s: string): nat
    requires forall k | 0 <= k < |s| :: IsDigit(s[k])
  {
    if s == [] then 0
    else
      assert IsDigit(s[|s| - 1]);
      DigitsValue(s[..|s| - 1]) * 10 + (s[|s| - 1] as int - '0' as int)
  }

  /** `s.parse::<iN>()`: `None` for an empty string, a lone sign, any byte that is
      not a digit after the optional sign, or a value out of range. */
  function ParseSigned(s: string, w: Width): (n: Option<int>)
    ensures n.Some? ==> MinOf(w) <= n.value <= MaxOf(w)
    ensures n.Some? ==> s != [] && IsDigits(if s[0] == '+' || s[0] == '-' then s[1..] else s)
  {
    if s == [] then None
    else
      var digits := if s[0] == '+' || s[0] == '-' then s[1..] else s;
      if !IsDigits(digits) then None
      else
        var v: int := if s[0] == '-' then -(DigitsValue(digits) as int) else DigitsValue(digits);
        if MinOf(w) <= v <= MaxOf(w) then Some(v) else None
  }

  /** The decimal text of a natural number, without leading zeros. */
  function ShowNat(n: nat): (s: string)
    ensures IsDigits(s)
  {
    if n < 10 then [('0' as int + n) as char]
    else ShowNat(n / 10) + [('0' as int + n % 10) as char]
  }

  /** The decimal text of an integer, with a `-` when negative. */
  function ShowInt(n: int): string {
    if n < 0 then "-" + ShowNat(-n) else ShowNat(n)
  }

  /** Reading back the digits of a natural number gives the number. */
  lemma {:induction false} ShowNatValue(n: nat)
    ensures DigitsValue(ShowNat(n)) == n
  {
    if n >= 10 {
      var s := ShowNat(n);
      assert s[..|s| - 1] == ShowNat(n / 10);
      ShowNatValue(n / 10);
    }
  }

  /** Every value of the type parses back from its decimal text. */
  lemma ParseShowRoundTrip(n: int, w: Width)
    requires MinOf(w) <= n <= MaxOf(w)
    ensures ParseSigned(ShowInt(n), w) == Some(n)
  {
    var m := if n < 0 then -n else n;
    ShowNatValue(m);
    var s := ShowInt(n);
    if n < 0 {
      assert s[1..] == ShowNat(m);
    } else {
      assert s[0] != '+' && s[0] != '-';
    }
  }

  /** Every value outside the type's range fails to parse from its decimal text. */
  lemma ParseShowOutOfRange(n: int, w: Width)
    requires n < MinOf(w) || MaxOf(w) < n
    ensures ParseSigned(ShowInt(n), w) == None
  {
    var m := if n < 0 then -n else n;
    ShowNatValue(m);
    var s := ShowInt(n);
    if n < 0 {
      assert s[1..] == ShowNat(m);
    } else {
      assert s[0] != '+' && s[0] != '-';
    }
  }

  /** A leading zero changes no digit string's value. */
  lemma {:induction false} DigitsValueLeadingZero(s: string)
    requires forall k | 0 <= k < |s| :: IsDigit(s[k])
    ensures DigitsValue("0" + s) == DigitsValue(s)
    decreases |s|
  {
    if s != [] {
      var z := "0" + s;
      assert z[..|z| - 1] == "0" + s[..|s| - 1];
      assert z[|z| - 1] == s[|s| - 1];
      DigitsValueLeadingZero(s[..|s| - 1]);
    }
  }

  /** Leading zeros are accepted and change nothing: `"007"` reads as `7`. */
  lemma LeadingZero(s: string, w: Width)
    requires IsDigits(s)
    ensures ParseSigned("0" + s, w) == ParseSigned(s, w)
  {
    var z := "0" + s;
    assert forall k | 0 <= k < |z| :: IsDigit(z[k]);
    DigitsValueLeadingZero(s);
    assert IsDigit(s[0]);
  }

  /** A leading `+` is accepted and changes nothing. */
  lemma PlusSignAccepted(s: string, w: Width)
    requires IsDigits(s)
    ensures ParseSigned("+" + s, w) == ParseSigned(s, w)
  {
    assert ("+" + s)[1..] == s;
  }

  /** Leading zeros after a `-` change nothing either: `"-007"` reads as `-7`. */
  lemma NegLeadingZero(s: string, w: Width)
    requires IsDigits(s)
    ensures ParseSigned("-0" + s, w) == ParseSigned("-" + s, w)
  {
    assert ("-0" + s)[1..] == "0" + s;
    assert ("-" + s)[1..] == s;
    var z := "0" + s;
    assert forall k | 0 <= k < |z| :: IsDigit(z[k]);
    DigitsValueLeadingZero(s);
  }

  /** `"-0"` reads as zero. */
  lemma NegZero(w: Width)
    ensures ParseSigned("-0", w) == Some(0)
  {
    assert "-0"[1..] == "0";
    assert DigitsValue("0") == DigitsValue([]) * 10 + 0;
  }
}
