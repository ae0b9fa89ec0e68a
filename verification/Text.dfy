/** String searching, splitting and decimal numbers, as the Rust standard library defines them. */
module Text {

  datatype Option<+T> = None | Some(value: T)

  /** Index of the first `c` in `s`. */
  function FindChar(s: string, c: char): (r: Option<nat>)
    ensures r.None? ==> c !in s
    ensures r.Some? ==> r.value < |s| && s[r.value] == c && c !in s[..r.value]
  {
    if s == "" then None
    else if s[0] == c then Some(0)
    else
      match FindChar(s[1..], c)
      case None => None
      case Some(i) =>
        assert s[..i + 1] == [s[0]] + s[1..][..i];
        Some(i + 1)
  }

  /** The first `c` of `p + [c] + t` sits right after a `c`-free `p`. */
  lemma {:induction false} FindCharAfter(p: string, c: char, t: string)
    requires c !in p
    ensures FindChar(p + [c] + t, c) == Some(|p|)
  {
    var s := p + [c] + t;
    if p != "" {
      assert s[1..] == p[1..] + [c] + t;
      FindCharAfter(p[1..], c, t);
    }
  }

  /** `str::split_once`. */
  function SplitOnce(s: string, c: char): (r: Option<(string, string)>)
    ensures r.None? <==> c !in s
    ensures r.Some? ==> s == r.value.0 + [c] + r.value.1 && c !in r.value.0
  {
    match FindChar(s, c)
    case None => None
    case Some(i) => Some((s[..i], s[i + 1..]))
  }

  lemma SplitOnceAfter(p: string, c: char, t: string)
    requires c !in p
    ensures SplitOnce(p + [c] + t, c) == Some((p, t))
  {
    FindCharAfter(p, c, t);
    var s := p + [c] + t;
    assert s[..|p|] == p && s[|p| + 1..] == t;
  }

  /** `str::split` on one character: always at least one piece. */
  function Split(s: string, c: char): (r: seq<string>)
    ensures |r| >= 1
    ensures forall i :: 0 <= i < |r| ==> c !in r[i]
    decreases |s|
  {
    match SplitOnce(s, c)
    case None => [s]
    case Some((head, tail)) => [head] + Split(tail, c)
  }

  /** `slice::join` with a one-character separator. */
  function Join(parts: seq<string>, c: char): string
  {
    if parts == [] then ""
    else if |parts| == 1 then parts[0]
    else parts[0] + [c] + Join(parts[1..], c)
  }

  /** Splitting inverts joining when no piece holds the separator. */
  lemma {:induction false} SplitJoin(parts: seq<string>, c: char)
    requires parts != []
    requires forall i :: 0 <= i < |parts| ==> c !in parts[i]
    ensures Split(Join(parts, c), c) == parts
  {
    if |parts| == 1 {
    } else {
      SplitOnceAfter(parts[0], c, Join(parts[1..], c));
      SplitJoin(parts[1..], c);
    }
  }

  /** A piece followed by the separator is the first piece of the split. */
  lemma SplitCons(p: string, c: char, t: string)
    requires c !in p
    ensures Split(p + [c] + t, c) == [p] + Split(t, c)
  {
    SplitOnceAfter(p, c, t);
  }

  // ---------------------------------------------------------------- trimming

  /** ASCII white space. */
  predicate IsSpace(c: char) { c == ' ' || 9 as char <= c <= 13 as char }

  function TrimStart(s: string): string
  {
    if s != "" && IsSpace(s[0]) then TrimStart(s[1..]) else s
  }

  function TrimEnd(s: string): string
  {
    if s != "" && IsSpace(s[|s| - 1]) then TrimEnd(s[..|s| - 1]) else s
  }

  /** `str::trim`, for ASCII white space. */
  function Trim(s: string): string { TrimEnd(TrimStart(s)) }

  predicate Trimmed(s: string) { s == "" || (!IsSpace(s[0]) && !IsSpace(s[|s| - 1])) }

  lemma {:induction false} TrimStartTrims(s: string)
    ensures TrimStart(s) != "" ==> !IsSpace(TrimStart(s)[0])
    ensures forall c :: c in TrimStart(s) ==> c in s
  {
    if s != "" && IsSpace(s[0]) { TrimStartTrims(s[1..]); }
  }

  lemma {:induction false} TrimEndTrims(s: string)
    requires s != "" ==> !IsSpace(s[0])
    ensures Trimmed(TrimEnd(s))
    ensures forall c :: c in TrimEnd(s) ==> c in s
  {
    if s != "" && IsSpace(s[|s| - 1]) { TrimEndTrims(s[..|s| - 1]); }
  }

  /** Trimming yields trimmed text of the same characters, and changes nothing else. */
  lemma TrimTrims(s: string)
    ensures Trimmed(Trim(s)) && (Trimmed(s) ==> Trim(s) == s)
    ensures forall c :: c in Trim(s) ==> c in s
  {
    TrimStartTrims(s);
    TrimEndTrims(TrimStart(s));
  }

  predicate AllSpace(s: string) { forall i :: 0 <= i < |s| ==> IsSpace(s[i]) }

  lemma {:induction false} TrimStartPast(lead: string, s: string)
    requires AllSpace(lead)
    ensures TrimStart(lead + s) == TrimStart(s)
  {
    if lead == "" {
      assert lead + s == s;
    } else {
      assert (lead + s)[1..] == lead[1..] + s;
      TrimStartPast(lead[1..], s);
    }
  }

  lemma {:induction false} TrimEndPast(s: string, tail: string)
    requires AllSpace(tail)
    ensures TrimEnd(s + tail) == TrimEnd(s)
  {
    if tail == "" {
      assert s + tail == s;
    } else {
      var n := |tail| - 1;
      assert (s + tail)[|s + tail| - 1] == tail[n] && (s + tail)[..|s + tail| - 1] == s + tail[..n];
      TrimEndPast(s, tail[..n]);
    }
  }

  /** Trimming takes away white space on both sides, and that only. */
  lemma TrimIs(lead: string, core: string, tail: string)
    requires AllSpace(lead) && AllSpace(tail) && Trimmed(core)
    ensures Trim(lead + core + tail) == core
  {
    hide TrimStart, TrimEnd;
    assert lead + core + tail == lead + (core + tail);
    TrimStartPast(lead, core + tail);
    if core == "" {
      assert core + tail == tail && tail == tail + "";
      TrimStartPast(tail, "");
    } else {
      TrimNothing(core, tail);
      TrimEndPast(core, tail);
    }
    EndsOfTrimmed(core);
  }

  lemma TrimNothing(core: string, tail: string)
    requires core != "" && Trimmed(core)
    ensures TrimStart(core + tail) == core + tail
  {}

  lemma EndsOfTrimmed(core: string)
    requires Trimmed(core)
    ensures TrimStart("") == "" && TrimEnd("") == "" && TrimEnd(core) == core
  {}

  // ---------------------------------------------------------------- decimal numbers

  predicate IsDigit(c: char) { '0' <= c <= '9' }

  function DigitValue(c: char): (d: nat)
    requires IsDigit(c)
    ensures d < 10
  {
    c as nat - '0' as nat
  }

  function DigitChar(d: nat): (c: char)
    requires d < 10
    ensures IsDigit(c) && DigitValue(c) == d
  {
    ('0' as nat + d) as char
  }

  /** `to_string` of a natural number. */
  function NatToString(n: nat): (s: string)
    ensures s != ""
    ensures forall i :: 0 <= i < |s| ==> IsDigit(s[i])
  {
    if n < 10 then [DigitChar(n)] else NatToString(n / 10) + [DigitChar(n % 10)]
  }

  predicate AllDigits(s: string) { forall i :: 0 <= i < |s| ==> IsDigit(s[i]) }

  function DigitsValue(s: string): nat
    requires AllDigits(s)
  {
    if s == "" then 0 else 10 * DigitsValue(s[..|s| - 1]) + DigitValue(s[|s| - 1])
  }

  lemma {:induction false} DigitsOfNat(n: nat)
    ensures DigitsValue(NatToString(n)) == n
  {
    var s := NatToString(n);
    if n < 10 {
      assert s[..|s| - 1] == "";
    } else {
      DigitsOfNat(n / 10);
      assert s[..|s| - 1] == NatToString(n / 10);
    }
  }

  const I64_MIN: int := -0x8000_0000_0000_0000
  const I64_MAX: int := 0x7fff_ffff_ffff_ffff
  const U64_MAX: int := 0xffff_ffff_ffff_ffff

  /** `to_string` of a signed number. */
  function IntToString(n: int): string
  {
    if n < 0 then "-" + NatToString(-n) else NatToString(n)
  }

  /** `str::parse::<i64>`: an optional sign, at least one digit, in range. */
  function ParseI64(s: string): Option<int>
  {
    if s == "" then None
    else
      var digits := if s[0] == '-' || s[0] == '+' then s[1..] else s;
      if digits == "" || !AllDigits(digits) then None
      else
        var v := if s[0] == '-' then 0 - DigitsValue(digits) else DigitsValue(digits) as int;
        if I64_MIN <= v <= I64_MAX then Some(v) else None
  }

  /** `str::parse::<u64>`: an optional plus sign, at least one digit, in range. */
  function ParseU64(s: string): Option<nat>
  {
    if s == "" then None
    else
      var digits := if s[0] == '+' then s[1..] else s;
      if digits == "" || !AllDigits(digits) then None
      else
        var v := DigitsValue(digits);
        if v <= U64_MAX then Some(v) else None
  }

  /** Parsing inverts printing exactly on the numbers in range. */
  lemma ParseI64OfInt(n: int)
    ensures ParseI64(IntToString(n)) == if I64_MIN <= n <= I64_MAX then Some(n) else None
  {
    hide NatToString, DigitsValue;
    var magnitude: nat := if n < 0 then 0 - n else n;
    var digits := NatToString(magnitude);
    DigitsOfNat(magnitude);
    assert AllDigits(digits) && IsDigit(digits[0]);
    var s := IntToString(n);
    if n < 0 {
      assert s == "-" + digits && s[0] == '-' && s[1..] == digits;
    }
  }

  lemma ParseU64OfNat(n: nat)
    ensures ParseU64(NatToString(n)) == if n <= U64_MAX then Some(n) else None
  {
    hide NatToString, DigitsValue;
    var digits := NatToString(n);
    DigitsOfNat(n);
    assert AllDigits(digits) && IsDigit(digits[0]);
  }

  function Zeros(k: nat): string { seq(k, _ => '0') }

  /** The sign, any number of zeros, and the number's decimal digits. */
  ghost predicate Spells(s: string, sign: string, n: nat)
  {
    exists k: nat :: s == sign + (Zeros(k) + NatToString(n))
  }

  lemma {:induction false} ZerosInFront(k: nat, t: string)
    requires AllDigits(t)
    ensures AllDigits(Zeros(k) + t) && DigitsValue(Zeros(k) + t) == DigitsValue(t)
    decreases |t|, k
  {
    var s := Zeros(k) + t;
    if t != "" {
      assert s[..|s| - 1] == Zeros(k) + t[..|t| - 1];
      ZerosInFront(k, t[..|t| - 1]);
    } else if k > 0 {
      assert s[..|s| - 1] == Zeros(k - 1) + t;
      ZerosInFront(k - 1, t);
    }
  }

  /** Every numeral is zeros and the digits of its value. */
  lemma {:induction false} NumeralOf(d: string) returns (k: nat)
    requires d != "" && AllDigits(d)
    ensures d == Zeros(k) + NatToString(DigitsValue(d))
    decreases |d|
  {
    var n := |d| - 1;
    var c := d[n];
    assert d == d[..n] + [c];
    if n == 0 {
      k := 0;
      OneDigitValue(d);
    } else {
      var k1 := NumeralOf(d[..n]);
      var v := DigitsValue(d[..n]);
      if v == 0 {
        k := k1 + 1;
        OneDigitValue([c]);
        assert NatToString(0) == "0";
        assert Zeros(k1) + "0" == Zeros(k);
      } else {
        k := k1;
        NextDigit(v, c);
        assert Zeros(k) + (NatToString(v) + [c]) == d;
      }
    }
  }

  lemma OneDigitValue(d: string)
    requires |d| == 1 && IsDigit(d[0])
    ensures DigitsValue(d) == DigitValue(d[0]) && NatToString(DigitValue(d[0])) == d
  {
    assert d[..0] == "";
  }

  lemma NextDigit(v: nat, c: char)
    requires v > 0 && IsDigit(c)
    ensures NatToString(10 * v + DigitValue(c)) == NatToString(v) + [c]
  {
    assert (10 * v + DigitValue(c)) / 10 == v && (10 * v + DigitValue(c)) % 10 == DigitValue(c);
  }

  lemma SpelledDigits(sign: string, n: nat, k: nat)
    ensures var d := Zeros(k) + NatToString(n);
            d != "" && AllDigits(d) && DigitsValue(d) == n && IsDigit((sign + d)[|sign|])
  {
    hide NatToString;
    assert AllDigits(NatToString(n));
    DigitsOfNat(n);
    ZerosInFront(k, NatToString(n));
  }

  /** An `i64` is read exactly from its decimal digits, with any zeros and a fitting sign before them. */
  lemma ParseI64Iff(s: string, n: int)
    ensures ParseI64(s) == Some(n) <==>
            && I64_MIN <= n <= I64_MAX
            && ((n >= 0 && (Spells(s, "", n) || Spells(s, "+", n))) || (n <= 0 && Spells(s, "-", -n)))
  {
    hide NatToString, DigitsValue, Zeros;
    if ParseI64(s) == Some(n) {
      var signed := s[0] == '-' || s[0] == '+';
      var digits := if signed then s[1..] else s;
      var k := NumeralOf(digits);
      var sign := if signed then [s[0]] else "";
      assert s == sign + (Zeros(k) + NatToString(DigitsValue(digits)));
    }
    if I64_MIN <= n <= I64_MAX {
      if n >= 0 && Spells(s, "", n) { ReadPlain(s, n); }
      if n >= 0 && Spells(s, "+", n) { ReadSigned(s, '+', n); }
      if n <= 0 && Spells(s, "-", -n) { ReadSigned(s, '-', -n); }
    }
  }

  lemma ReadPlain(s: string, n: nat)
    requires Spells(s, "", n)
    ensures ParseI64(s) == if n <= I64_MAX then Some(n) else None
    ensures ParseU64(s) == if n <= U64_MAX then Some(n) else None
  {
    hide NatToString, DigitsValue, Zeros;
    var k: nat :| s == "" + (Zeros(k) + NatToString(n));
    SpelledDigits("", n, k);
    assert s == Zeros(k) + NatToString(n);
  }

  lemma ReadSigned(s: string, sign: char, n: nat)
    requires (sign == '+' || sign == '-') && Spells(s, [sign], n)
    ensures var v: int := if sign == '-' then 0 - n else n;
            ParseI64(s) == if I64_MIN <= v <= I64_MAX then Some(v) else None
    ensures sign == '+' ==> ParseU64(s) == if n <= U64_MAX then Some(n) else None
  {
    hide NatToString, DigitsValue, Zeros;
    var k: nat :| s == [sign] + (Zeros(k) + NatToString(n));
    SpelledDigits([sign], n, k);
    assert s[1..] == Zeros(k) + NatToString(n);
  }

  /** A `u64` likewise, without a minus sign. */
  lemma ParseU64Iff(s: string, n: nat)
    ensures ParseU64(s) == Some(n) <==> n <= U64_MAX && (Spells(s, "", n) || Spells(s, "+", n))
  {
    hide NatToString, DigitsValue, Zeros;
    if ParseU64(s) == Some(n) {
      var signed := s[0] == '+';
      var digits := if signed then s[1..] else s;
      var k := NumeralOf(digits);
      var sign := if signed then "+" else "";
      assert s == sign + (Zeros(k) + NatToString(DigitsValue(digits)));
    }
    if n <= U64_MAX {
      if Spells(s, "", n) { ReadPlain(s, n); }
      if Spells(s, "+", n) { ReadSigned(s, '+', n); }
    }
  }

  /** The value of a hexadecimal digit of either case. */
  function HexValue(c: char): (r: Option<nat>)
    ensures r.Some? ==> r.value < 16
  {
    if '0' <= c <= '9' then Some(c as nat - '0' as nat)
    else if 'A' <= c <= 'F' then Some(c as nat - 'A' as nat + 10)
    else if 'a' <= c <= 'f' then Some(c as nat - 'a' as nat + 10)
    else None
  }
}
