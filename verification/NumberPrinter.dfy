/** printk.c: printing 64-bit numbers in base 10 and 16. */
module NumberPrinter {

  import opened MachineWords

  const OUTBUFFSIZE := 64

  datatype Case = UPPERCASE | LOWERCASE

  /** int_to_char */
  function IntToChar(val: int, cs: Case): char
    requires 0 <= val < 16
  {
    if val < 10 then '0' + val as char
    else if cs == UPPERCASE then 'A' + (val - 10) as char
    else 'a' + (val - 10) as char
  }

  /** Digit that a character stands for, in either case; -1 for none. */
  function DigitOf(ch: char): int {
    if '0' <= ch <= '9' then (ch - '0') as int
    else if 'A' <= ch <= 'F' then (ch - 'A') as int + 10
    else if 'a' <= ch <= 'f' then (ch - 'a') as int + 10
    else -1
  }

  lemma CharRoundTrip(val: int, cs: Case)
    requires 0 <= val < 16
    ensures DigitOf(IntToChar(val, cs)) == val
    ensures IntToChar(val, cs) == '0' <==> val == 0
  {
  }

  // ---- Bases -------------------------------------------------------------------

  // The printers are called with these two bases only.
  predicate IsBase(base: int) {
    base == 10 || base == 16
  }

  /** val / base */
  function Rest(val: nat, base: int): (r: nat)
    requires IsBase(base)
    ensures val > 0 ==> r < val
  {
    if base == 10 then val / 10 else val / 16
  }

  /** val % base */
  function Last(val: nat, base: int): (d: nat)
    requires IsBase(base)
    ensures d < base
  {
    if base == 10 then val % 10 else val % 16
  }

  function Times(val: int, base: int): int {
    if base == 10 then val * 10 else val * 16
  }

  lemma RestAndLast(val: nat, base: int)
    requires IsBase(base)
    ensures Times(Rest(val, base), base) + Last(val, base) == val
    ensures Rest(val, base) == 0 ==> Last(val, base) == val
  {
  }

  // ---- The meaning of a numeral ------------------------------------------------

  /** Value of a numeral, most significant digit first. */
  function Value(s: string, base: int): int {
    if s == [] then 0 else Times(Value(s[..|s| - 1], base), base) + DigitOf(s[|s| - 1])
  }

  ghost predicate Numeral(s: string, base: int) {
    && s != []
    && (forall i :: 0 <= i < |s| ==> 0 <= DigitOf(s[i]) < base)
    && (|s| > 1 ==> s[0] != '0')
  }

  /** The digits of a positive number, without leading zeros. */
  function Digits(val: nat, base: int, cs: Case): string
    requires IsBase(base)
    decreases val
  {
    if val == 0 then "" else Digits(Rest(val, base), base, cs) + [IntToChar(Last(val, base), cs)]
  }

  /** What print_unsigned_long_long_varbase displays. */
  function Printed(val: nat, base: int, cs: Case): string
    requires IsBase(base)
  {
    if val == 0 then "0" else Digits(val, base, cs)
  }

  lemma {:induction false} DigitsValue(val: nat, base: int, cs: Case)
    requires IsBase(base)
    ensures Value(Digits(val, base, cs), base) == val
    decreases val
  {
    if val > 0 {
      var s, t := Digits(Rest(val, base), base, cs), Digits(val, base, cs);
      DigitsValue(Rest(val, base), base, cs);
      CharRoundTrip(Last(val, base), cs);
      assert t[..|t| - 1] == s;
      RestAndLast(val, base);
      hide IntToChar, DigitOf, Times, Rest, Last;
    }
  }

  lemma {:induction false} DigitsNumeral(val: nat, base: int, cs: Case)
    requires IsBase(base) && val > 0
    ensures Numeral(Digits(val, base, cs), base) && Digits(val, base, cs)[0] != '0'
    decreases val
  {
    var s, t := Digits(Rest(val, base), base, cs), Digits(val, base, cs);
    CharRoundTrip(Last(val, base), cs);
    assert t == s + [IntToChar(Last(val, base), cs)];
    if Rest(val, base) > 0 {
      DigitsNumeral(Rest(val, base), base, cs);
      assert t[0] == s[0];
    }
    RestAndLast(val, base);
    hide IntToChar, DigitOf, Rest, Last;
  }

  /** The printed numeral parses back to the value and carries no leading zero. */
  lemma PrintedRoundTrip(val: nat, base: int, cs: Case)
    requires IsBase(base)
    ensures Value(Printed(val, base, cs), base) == val
    ensures Numeral(Printed(val, base, cs), base)
  {
    DigitsValue(val, base, cs);
    if val == 0 { assert "0"[..0] == ""; } else { DigitsNumeral(val, base, cs); }
  }

  /** A digit in the letters asked for. */
  predicate InCase(ch: char, cs: Case) {
    || '0' <= ch <= '9'
    || (cs == LOWERCASE && 'a' <= ch <= 'f')
    || (cs == UPPERCASE && 'A' <= ch <= 'F')
  }

  lemma CharInCase(val: int, cs: Case)
    requires 0 <= val < 16
    ensures InCase(IntToChar(val, cs), cs)
    ensures val < 10 ==> IntToChar(val, cs) == '0' + val as char
    ensures val >= 10 ==> IntToChar(val, cs) == (if cs == LOWERCASE then 'a' else 'A') + (val - 10) as char
  {
  }

  lemma {:induction false} DigitsInCase(val: nat, base: int, cs: Case, i: nat)
    requires IsBase(base) && i < |Digits(val, base, cs)|
    ensures InCase(Digits(val, base, cs)[i], cs)
    ensures base == 10 ==> '0' <= Digits(val, base, cs)[i] <= '9'
    decreases val
  {
    hide IntToChar, InCase, Rest, Last;
    var s := Digits(Rest(val, base), base, cs);
    if i < |s| {
      DigitsInCase(Rest(val, base), base, cs, i);
    } else {
      CharInCase(Last(val, base), cs);
    }
  }

  /** Everything printed is a decimal digit or a letter of the case asked for; in base 10
      there are no letters. */
  lemma PrintedInCase(val: nat, base: int, cs: Case)
    requires IsBase(base)
    ensures forall i :: 0 <= i < |Printed(val, base, cs)| ==>
              var ch := Printed(val, base, cs)[i];
              && ('0' <= ch <= '9' || (if cs == LOWERCASE then 'a' <= ch <= 'f' else 'A' <= ch <= 'F'))
              && (base == 10 ==> '0' <= ch <= '9')
  {
    if val > 0 {
      forall i | 0 <= i < |Digits(val, base, cs)|
        ensures InCase(Digits(val, base, cs)[i], cs)
        ensures base == 10 ==> '0' <= Digits(val, base, cs)[i] <= '9'
      {
        DigitsInCase(val, base, cs, i);
      }
    }
    hide Digits;
  }

  // ---- Length ------------------------------------------------------------------

  function Pow(base: int, n: nat): int {
    if n == 0 then 1 else Times(Pow(base, n - 1), base)
  }

  /** A number below base^n has at most n digits. */
  lemma {:induction false} LengthBound(val: nat, base: int, cs: Case, n: nat)
    requires IsBase(base) && val < Pow(base, n)
    ensures |Digits(val, base, cs)| <= n
    decreases n
  {
    if val > 0 {
      assert Pow(base, n) == Times(Pow(base, n - 1), base);
      assert Rest(val, base) < Pow(base, n - 1);
      LengthBound(Rest(val, base), base, cs, n - 1);
    }
  }

  /** 20 decimal or 16 hexadecimal digits hold every 64-bit value. */
  lemma FitsBuffer(val: u64, base: int, cs: Case)
    requires IsBase(base)
    ensures |Digits(val, base, cs)| <= if base == 10 then 20 else 16
  {
    if base == 10 {
      assert Pow(10, 5) == 100000 by { assert Pow(10, 3) == 1000; }
      PowSum(10, 5, 5);
      PowSum(10, 10, 10);
      LengthBound(val, 10, cs, 20);
    } else {
      assert Pow(16, 4) == 65536 by { assert Pow(16, 2) == 256; }
      PowSum(16, 4, 4);
      PowSum(16, 8, 8);
      LengthBound(val, 16, cs, 16);
    }
  }

  lemma {:induction false} PowSum(base: int, a: nat, b: nat)
    ensures Pow(base, a + b) == Pow(base, a) * Pow(base, b)
    decreases a
  {
    if a > 0 {
      PowSum(base, a - 1, b);
      assert Times(Pow(base, a - 1) * Pow(base, b), base) == Times(Pow(base, a - 1), base) * Pow(base, b);
    }
  }

  // ---- The printers ------------------------------------------------------------

  /** print_unsigned_long_long_varbase; `out` collects what goes to display_char.  The
      digits fill the buffer from the last to the first and are then read backwards. */
  method PrintUnsigned(val0: u64, base: int, cs: Case) returns (out: string)
    requires IsBase(base)
    ensures out == Printed(val0, base, cs)
  {
    out := "";
    if val0 == 0 {
      out := out + ['0'];
    } else {
      var tmpBuff, len := FillBackwards(val0, base, cs);
      ghost var all := Digits(val0, base, cs);
      var index := len - 1;
      while index >= 0
        invariant -1 <= index < len && out == all[..len - 1 - index]
      {
        assert all[..len - index] == all[..len - 1 - index] + [all[len - 1 - index]];
        out := out + [tmpBuff[index]];
        index := index - 1;
      }
      assert all[..len] == all;
    }
  }

  /** The first loop: digits go into the buffer least significant first. */
  method FillBackwards(val0: u64, base: int, cs: Case) returns (tmpBuff: array<char>, index: int)
    requires IsBase(base)
    ensures fresh(tmpBuff) && tmpBuff.Length == OUTBUFFSIZE
    ensures index == |Digits(val0, base, cs)| <= 20
    ensures forall j :: 0 <= j < index ==> tmpBuff[j] == Digits(val0, base, cs)[index - 1 - j]
  {
    tmpBuff := new char[64];
    index := 0;
    var val: nat := val0;
    ghost var all, suffix := Digits(val0, base, cs), "";
    FitsBuffer(val0, base, cs);
    assert OUTBUFFSIZE == 64 && Backwards("") == "" && all + "" == all;
    hide *;
    while val > 0
      invariant index == |suffix| <= |all| <= 20
      invariant all == Digits(val, base, cs) + suffix
      invariant tmpBuff[..index] == Backwards(suffix)
      decreases val
    {
      ghost var ch, rest := IntToChar(Last(val, base), cs), Digits(Rest(val, base), base, cs);
      DigitsStep(val, base, cs);
      Regroup(rest, ch, suffix);
      BackwardsMore(ch, suffix);
      tmpBuff[index] := IntToChar(Last(val, base), cs);
      val := Rest(val, base);
      index := index + 1;
      suffix := [ch] + suffix;
    }
    DigitsStep(0, base, cs);
    assert all == suffix;
    forall j | 0 <= j < index ensures tmpBuff[j] == all[index - 1 - j] {
      BackwardsAt(suffix, j);
      assert tmpBuff[j] == tmpBuff[..index][j];
    }
  }

  function Backwards(s: string): string {
    if s == "" then "" else Backwards(s[1..]) + [s[0]]
  }

  lemma BackwardsMore(ch: char, s: string)
    ensures Backwards([ch] + s) == Backwards(s) + [ch]
  {
    assert ([ch] + s)[1..] == s;
  }

  lemma {:induction false} BackwardsAt(s: string, j: nat)
    requires j < |s|
    ensures |Backwards(s)| == |s| && Backwards(s)[j] == s[|s| - 1 - j]
  {
    if |s| > 1 { BackwardsAt(s[1..], if j < |s| - 1 then j else 0); }
  }

  lemma Regroup(rest: string, ch: char, suffix: string)
    ensures rest + [ch] + suffix == rest + ([ch] + suffix)
  {
  }

  lemma DigitsStep(val: nat, base: int, cs: Case)
    requires IsBase(base)
    ensures Digits(val, base, cs) ==
              if val == 0 then "" else Digits(Rest(val, base), base, cs) + [IntToChar(Last(val, base), cs)]
  {
  }

  /** val * -1 in 64-bit two's complement, read as unsigned. */
  function NegateWrap(val: int): u64 {
    (0 - val) % 0x1_0000_0000_0000_0000
  }

  /** What print_long_long displays. */
  function PrintedSigned(val: int): string {
    if val < 0 then "-" + Printed(0 - val, 10, LOWERCASE) else Printed(val, 10, LOWERCASE)
  }

  /** print_long_long */
  method PrintSigned(val: s64) returns (out: string)
    ensures out == PrintedSigned(val)
  {
    if val < 0 {
      var digits := PrintUnsigned(NegateWrap(val), 10, LOWERCASE);
      out := "-" + digits;
    } else {
      out := PrintUnsigned(val, 10, LOWERCASE);
    }
  }

  /** Value of a signed decimal numeral. */
  function SignedValue(s: string): int {
    if s != [] && s[0] == '-' then 0 - Value(s[1..], 10) else Value(s, 10)
  }

  /** Signed printing round-trips for every value, the most negative one included. */
  lemma SignedRoundTrip(val: int)
    ensures SignedValue(PrintedSigned(val)) == val
  {
    var out := PrintedSigned(val);
    if val < 0 {
      PrintedRoundTrip(0 - val, 10, LOWERCASE);
      assert out[1..] == Printed(0 - val, 10, LOWERCASE);
    } else {
      PrintedRoundTrip(val, 10, LOWERCASE);
      assert 0 <= DigitOf(out[0]);
    }
  }
}
