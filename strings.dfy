/** The optional value used for `npos`, missing JSON keys and failed inflation. */
module Wrappers {
  datatype Option<+T> = None | Some(value: T)
}

/** Text and integer helpers used by the extractor and the manifest resolver:
    `uint32_t` conversion and the C++ standard-library routines
    `std::string::find_last_of`, `std::atoi` and `std::to_string`, over Dafny
    strings (one char per byte). */
module Strings {

  import opened Wrappers

  /** `s.find_last_of(c)`: the index of the last occurrence of `c`, or None
      (`std::string::npos`) when `c` does not occur. */
  function LastIndexOf(s: string, c: char): (r: Option<nat>)
    ensures r.Some? ==> r.value < |s| && s[r.value] == c
    ensures r.Some? ==> forall j :: r.value < j < |s| ==> s[j] != c
    ensures r.None? <==> c !in s
    decreases |s|
  {
    if |s| == 0 then None
    else if s[|s| - 1] == c then Some(|s| - 1)
    else LastIndexOf(s[..|s| - 1], c)
  }

  /** C's `uint32_t`, and the conversion of an integer to it (reduction
      modulo 2^32, as a cast or an assignment does). */
  type uint32 = x: int | 0 <= x < 0x1_0000_0000

  function ToUint32(x: int): (r: uint32)
    ensures 0 <= x < 0x1_0000_0000 ==> r == x
    ensures (r - x) % 0x1_0000_0000 == 0
  {
    x % 0x1_0000_0000
  }

  /** Counting on in a `uint32_t`: the successor, wrapping to 0. */
  lemma ToUint32Next(x: int)
    requires x >= 0
    ensures ToUint32(x + 1) == if ToUint32(x) == 0xFFFF_FFFF then 0 else ToUint32(x) + 1
  {
  }

  predicate IsDigit(c: char) { '0' <= c <= '9' }

  /** The characters C's `isspace` accepts in the "C" locale. */
  predicate IsSpace(c: char) {
    c == ' ' || c == '\t' || c == '\n' || c == '\r' || c == '\U{B}' || c == '\U{C}'
  }

  function DigitValue(c: char): nat
    requires IsDigit(c)
  {
    (c as int) - ('0' as int)
  }

  function DigitChar(d: nat): (c: char)
    requires d < 10
    ensures IsDigit(c) && DigitValue(c) == d
  {
    (('0' as int) + d) as char
  }

  /** Drops leading white space, as `atoi` does before the number. */
  function SkipSpace(s: string): (r: string)
    ensures |r| <= |s| && r == s[|s| - |r|..]
    ensures |r| > 0 ==> !IsSpace(r[0])
    ensures forall i :: 0 <= i < |s| - |r| ==> IsSpace(s[i])
    decreases |s|
  {
    if |s| > 0 && IsSpace(s[0]) then SkipSpace(s[1..]) else s
  }

  /** The longest prefix of `s` made of decimal digits. */
  function LeadingDigits(s: string): (r: string)
    ensures |r| <= |s| && r == s[..|r|]
    ensures forall i :: 0 <= i < |r| ==> IsDigit(r[i])
    ensures |r| < |s| ==> !IsDigit(s[|r|])
    decreases |s|
  {
    if |s| > 0 && IsDigit(s[0]) then [s[0]] + LeadingDigits(s[1..]) else ""
  }

  /** The value of a string of decimal digits, most significant first. */
  function DigitsValue(d: string): nat
    requires forall i :: 0 <= i < |d| ==> IsDigit(d[i])
    decreases |d|
  {
    if |d| == 0 then 0 else DigitsValue(d[..|d| - 1]) * 10 + DigitValue(d[|d| - 1])
  }

  /** `std::atoi`: optional white space, an optional sign, then the leading
      decimal digits; no digits gives 0. Overflow of `int` (undefined
      behaviour in C) is not modelled: the value is unbounded here. */
  function Atoi(s: string): int
  {
    var t := SkipSpace(s);
    if |t| > 0 && t[0] == '-' then -(DigitsValue(LeadingDigits(t[1..])) as int)
    else if |t| > 0 && t[0] == '+' then DigitsValue(LeadingDigits(t[1..]))
    else DigitsValue(LeadingDigits(t))
  }

  /** A string made only of decimal digits reads as the number they spell. */
  lemma AtoiOfDigits(s: string)
    requires forall i :: 0 <= i < |s| ==> IsDigit(s[i])
    ensures Atoi(s) == DigitsValue(s)
  {
    if |s| > 0 {
      assert IsDigit(s[0]) && !IsSpace(s[0]);
    }
    NoSpaceToSkip(s);
    LeadingDigitsOfDigits(s);
  }

  /** A string that does not start with white space is its own rest. */
  lemma NoSpaceToSkip(s: string)
    requires |s| == 0 || !IsSpace(s[0])
    ensures SkipSpace(s) == s
  {
  }

  /** `std::to_string` of a non-negative integer: its decimal digits, no
      leading zeros. */
  function Decimal(n: nat): (r: string)
    ensures |r| > 0
    ensures forall i :: 0 <= i < |r| ==> IsDigit(r[i])
    ensures r[0] == '0' <==> n == 0
    ensures |r| > 1 ==> r[0] != '0'
    decreases n
  {
    if n < 10 then [DigitChar(n)] else Decimal(n / 10) + [DigitChar(n % 10)]
  }

  /** `to_string` and the digit reading of `atoi` are inverse. */
  lemma {:induction false} DigitsValueOfDecimal(n: nat)
    ensures DigitsValue(Decimal(n)) == n
    decreases n
  {
    if n >= 10 {
      DigitsValueOfDecimal(n / 10);
      var d := Decimal(n);
      assert d[..|d| - 1] == Decimal(n / 10);
    }
  }

  lemma {:induction false} LeadingDigitsOfDigits(s: string)
    requires forall i :: 0 <= i < |s| ==> IsDigit(s[i])
    ensures LeadingDigits(s) == s
    decreases |s|
  {
    if |s| > 0 {
      LeadingDigitsOfDigits(s[1..]);
    }
  }

  /** `atoi(to_string(n)) == n`: an entry named by the decimal form of an id
      reads back as that id. */
  lemma AtoiOfDecimal(n: nat)
    ensures Atoi(Decimal(n)) == n
  {
    DigitsValueOfDecimal(n);
    AtoiOfDigits(Decimal(n));
  }
}
