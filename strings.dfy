/** The `std::string` and C library operations the type-string parser relies on:
    `find`, `find_first_of` and `find_last_of` of one character, `find` of a
    substring, `substr` (with the `size_t` wrap-around of its arguments written
    out), `stoi`, `std::to_string` of a non-negative number and ASCII lower-casing. */
module Strings {
  import opened Results

  /** First index of `c` in `s`; `None` plays the part of `std::string::npos`. */
  function FindChar(s: string, c: char): (r: Option<nat>)
    ensures r.Some? ==> r.value < |s| && s[r.value] == c && c !in s[..r.value]
    ensures r.None? ==> c !in s
  {
    if |s| == 0 then None
    else if s[0] == c then Some(0)
    else
      match FindChar(s[1..], c)
      case None => None
      case Some(i) =>
        assert s[..i + 1] == [s[0]] + s[1..][..i];
        Some(i + 1)
  }

  /** Last index of `c` in `s` (`find_last_of` / `rfind` of one character). */
  function RFindChar(s: string, c: char): (r: Option<nat>)
    ensures r.Some? ==> r.value < |s| && s[r.value] == c && c !in s[r.value + 1..]
    ensures r.None? ==> c !in s
  {
    if |s| == 0 then None
    else if s[|s| - 1] == c then Some(|s| - 1)
    else
      match RFindChar(s[..|s| - 1], c)
      case None =>
        assert s == s[..|s| - 1] + [s[|s| - 1]];
        None
      case Some(i) =>
        assert s[i + 1..] == s[..|s| - 1][i + 1..] + [s[|s| - 1]];
        Some(i)
  }

  /** Searching past a prefix that lacks `c` finds `c` where it is in the rest. */
  lemma {:induction false} FindCharConcat(a: string, b: string, c: char)
    requires c !in a
    ensures FindChar(a + b, c) == if FindChar(b, c).None? then None else Some(|a| + FindChar(b, c).value)
  {
    if |a| > 0 {
      assert (a + b)[1..] == a[1..] + b;
      FindCharConcat(a[1..], b, c);
    } else {
      assert a + b == b;
    }
  }

  lemma FindCharAt(s: string, c: char, i: nat)
    requires i < |s| && s[i] == c && c !in s[..i]
    ensures FindChar(s, c) == Some(i)
  {
  }

  lemma RFindCharAt(s: string, c: char, i: nat)
    requires i < |s| && s[i] == c && c !in s[i + 1..]
    ensures RFindChar(s, c) == Some(i)
  {
  }

  /** `pat` occurs in `s` starting at index `i`. */
  predicate OccursAt(s: string, pat: string, i: nat) {
    i + |pat| <= |s| && s[i..i + |pat|] == pat
  }

  function FindFrom(s: string, pat: string, i: nat): (r: Option<nat>)
    requires i <= |s|
    ensures r.Some? ==> i <= r.value && OccursAt(s, pat, r.value)
    ensures r.Some? ==> forall j :: i <= j < r.value ==> !OccursAt(s, pat, j)
    ensures r.None? ==> forall j :: i <= j <= |s| ==> !OccursAt(s, pat, j)
    decreases |s| - i
  {
    if OccursAt(s, pat, i) then Some(i)
    else if i == |s| then None
    else FindFrom(s, pat, i + 1)
  }

  /** `std::string::find` of a substring: the first index where `pat` occurs. */
  function Find(s: string, pat: string): (r: Option<nat>)
    ensures r.Some? ==> OccursAt(s, pat, r.value) && forall j :: 0 <= j < r.value ==> !OccursAt(s, pat, j)
    ensures r.None? ==> forall j :: 0 <= j <= |s| ==> !OccursAt(s, pat, j)
  {
    FindFrom(s, pat, 0)
  }

  /** `s.find(pat) != std::string::npos`. */
  predicate Contains(s: string, pat: string) {
    Find(s, pat).Some?
  }

  lemma FindOneChar(s: string, c: char)
    ensures Find(s, [c]) == FindChar(s, c)
  {
    forall j | 0 <= j < |s|
      ensures OccursAt(s, [c], j) <==> s[j] == c
    {
      assert s[j..j + 1] == [s[j]];
    }
    var r := FindChar(s, c);
    match r
    case None =>
      assert forall j :: 0 <= j <= |s| ==> !OccursAt(s, [c], j);
    case Some(i) =>
      assert forall j :: 0 <= j < i ==> s[..i][j] == s[j];
      assert forall j :: 0 <= j < i ==> !OccursAt(s, [c], j);
  }

  /** The value of `npos + 1` / `i + 1` for a position `i` that may be `npos`: it wraps to 0. */
  function After(i: Option<nat>): (r: nat)
    ensures i.Some? ==> r == i.value + 1
    ensures i.None? ==> r == 0
  {
    if i.Some? then i.value + 1 else 0
  }

  /** The `size_t` value `hi - lo - 1` where either position may be `npos` (`None`).
      `None` in the result stands for a value that wrapped around to beyond any
      string length, which `substr` treats as "to the end". */
  function SpanBetween(hi: Option<nat>, lo: Option<nat>): (r: Option<nat>)
    ensures hi.Some? && lo.Some? && hi.value > lo.value ==> r == Some(hi.value - lo.value - 1)
    ensures hi.Some? && lo.Some? && hi.value <= lo.value ==> r.None?
    ensures hi.Some? && lo.None? ==> r == Some(hi.value)
    ensures hi.None? ==> r.None?
  {
    match (hi, lo)
    case (Some(h), Some(l)) => if h > l then Some(h - l - 1) else None
    case (Some(h), None) => Some(h)
    case (None, _) => None
  }

  /** `size_t` arithmetic is modulo 2^64, and `npos` is its largest value. */
  const SizeRange: int := 0x1_0000_0000_0000_0000
  const Npos: int := SizeRange - 1
  /** A bound far above any string length: positions below it, and counts
      below it, never meet the wrap-around. */
  const MaxLength: int := 0x4000_0000_0000_0000

  /** The `size_t` value of a position, `npos` for `None`. */
  function SizeValue(p: Option<nat>): int {
    if p.Some? then p.value else Npos
  }

  predicate Position(p: Option<nat>) {
    p.Some? ==> p.value < MaxLength
  }

  /** `After` is the `size_t` sum `i + 1`. */
  lemma AfterIsSizeT(i: Option<nat>)
    requires Position(i)
    ensures After(i) == (SizeValue(i) + 1) % SizeRange
  {
    if i.None? {
      assert SizeValue(i) + 1 == SizeRange;
    }
  }

  /** `SpanBetween` is the `size_t` difference `hi - lo - 1`: the count itself when
      it could be a string length, and `None` when it wrapped around past every
      string length. */
  lemma SpanBetweenIsSizeT(hi: Option<nat>, lo: Option<nat>)
    requires Position(hi) && Position(lo)
    ensures var w := (SizeValue(hi) - SizeValue(lo) - 1) % SizeRange;
      SpanBetween(hi, lo) == if w < MaxLength then Some(w) else None
  {
    var d := SizeValue(hi) - SizeValue(lo) - 1;
    if hi.Some? && lo.Some? && hi.value > lo.value {
      assert 0 <= d < MaxLength;
    } else if hi.Some? && lo.Some? {
      assert -MaxLength <= d < 0;
      assert d % SizeRange == d + SizeRange;
    } else if hi.Some? {
      assert d == hi.value - SizeRange;
      assert d % SizeRange == hi.value;
    } else if lo.Some? {
      assert MaxLength <= d < SizeRange;
    } else {
      assert d == -1;
      assert d % SizeRange == SizeRange - 1;
    }
  }

  /** `s.substr(pos, count)`; a `count` of `None` reaches the end of the string.
      `pos <= |s|` holds at every call site, so `std::out_of_range` never arises. */
  function Substr(s: string, pos: nat, count: Option<nat>): (r: string)
    requires pos <= |s|
    ensures |r| <= |s| - pos
    ensures count.None? ==> r == s[pos..]
    ensures count.Some? ==> |r| == if pos + count.value <= |s| then count.value else |s| - pos
    ensures r == s[pos..pos + |r|]
  {
    match count
    case None => s[pos..]
    case Some(n) => if pos + n <= |s| then s[pos..pos + n] else s[pos..]
  }

  /** `s.substr(open + 1, close - open - 1)` is the text strictly between the two positions. */
  lemma SubstrBetween(s: string, open: nat, close: nat)
    requires open < close < |s|
    ensures Substr(s, open + 1, SpanBetween(Some(close), Some(open))) == s[open + 1..close]
  {
  }

  predicate IsDigit(c: char) {
    '0' <= c <= '9'
  }

  /** The characters `isspace` accepts in the "C" locale. */
  predicate IsSpace(c: char) {
    c == ' ' || c == '\t' || c == '\n' || c == '\r' || c == '\U{C}' || c == '\U{B}'
  }

  function DigitValue(c: char): nat
    requires IsDigit(c)
  {
    c as int - '0' as int
  }

  function DigitChar(d: nat): (c: char)
    requires d < 10
    ensures IsDigit(c) && DigitValue(c) == d
  {
    ('0' as int + d) as char
  }

  predicate AllDigits(s: string) {
    forall i :: 0 <= i < |s| ==> IsDigit(s[i])
  }

  /** The number a string of decimal digits denotes. */
  function DigitsValue(s: string): nat
    requires AllDigits(s)
  {
    if |s| == 0 then 0 else DigitsValue(s[..|s| - 1]) * 10 + DigitValue(s[|s| - 1])
  }

  /** Length of the longest prefix of `s` made of digits. */
  function DigitPrefix(s: string): (n: nat)
    ensures n <= |s| && AllDigits(s[..n])
    ensures n < |s| ==> !IsDigit(s[n])
  {
    if |s| == 0 || !IsDigit(s[0]) then 0
    else
      var n := 1 + DigitPrefix(s[1..]);
      assert s[..n] == [s[0]] + s[1..][..n - 1];
      n
  }

  function SkipSpace(s: string): (r: string)
    ensures |r| <= |s| && r == s[|s| - |r|..]
    ensures |r| > 0 ==> !IsSpace(r[0])
  {
    if |s| > 0 && IsSpace(s[0]) then SkipSpace(s[1..]) else s
  }

  /** `std::stoi`: leading white space, an optional sign, then at least one digit;
      parsing stops at the first character that is not a digit. Without any
      digit it throws `std::invalid_argument`. */
  function Stoi(s: string): (r: Option<int>)
  {
    SignedDigits(SkipSpace(s))
  }

  /** `stoi` after the white space: an optional sign, then the leading digits. */
  function SignedDigits(t: string): Option<int>
  {
    var negative := |t| > 0 && t[0] == '-';
    var u := if |t| > 0 && (t[0] == '-' || t[0] == '+') then t[1..] else t;
    var n := DigitPrefix(u);
    if n == 0 then None
    else Some(if negative then -(DigitsValue(u[..n]) as int) else DigitsValue(u[..n]))
  }

  /** `std::to_string` of a non-negative number. */
  function NatToString(n: nat): (s: string)
    ensures |s| > 0 && AllDigits(s)
  {
    if n < 10 then [DigitChar(n)] else NatToString(n / 10) + [DigitChar(n % 10)]
  }

  lemma DigitPrefixAll(s: string)
    requires AllDigits(s)
    ensures DigitPrefix(s) == |s|
  {
    if |s| > 0 {
      assert AllDigits(s[1..]);
      DigitPrefixAll(s[1..]);
    }
  }

  /** Without white space or sign, `stoi` reads the leading run of digits. */
  lemma StoiUnsigned(s: string)
    requires |s| > 0 && IsDigit(s[0])
    ensures Stoi(s) == Some(DigitsValue(s[..DigitPrefix(s)]) as int)
  {
    SkipSpaceOfDigit(s);
    SignedDigitsUnsigned(s);
  }

  lemma SkipSpaceOfDigit(s: string)
    requires |s| > 0 && IsDigit(s[0])
    ensures SkipSpace(s) == s
  {
    assert !IsSpace(s[0]);
  }

  lemma SignedDigitsUnsigned(t: string)
    requires |t| > 0 && IsDigit(t[0])
    ensures SignedDigits(t) == Some(DigitsValue(t[..DigitPrefix(t)]) as int)
  {
    assert t[0] != '-' && t[0] != '+';
  }

  /** `stoi` reads a plain run of digits as its decimal value. */
  lemma StoiOfDigits(s: string)
    requires |s| > 0 && AllDigits(s)
    ensures Stoi(s) == Some(DigitsValue(s) as int)
  {
    StoiUnsigned(s);
    DigitPrefixAll(s);
    assert s[..|s|] == s;
  }

  /** `stoi` skips leading white space and reads a minus sign before the digits. */
  lemma StoiOfNegative(ds: string)
    requires |ds| > 0 && AllDigits(ds)
    ensures Stoi("-" + ds) == Some(-(DigitsValue(ds) as int))
  {
    var t := "-" + ds;
    SkipSpaceOfSign(t);
    SignedDigitsNegative(t, ds);
  }

  lemma SkipSpaceOfSign(t: string)
    requires |t| > 0 && t[0] == '-'
    ensures SkipSpace(t) == t
  {
    assert !IsSpace(t[0]);
  }

  lemma SignedDigitsNegative(t: string, ds: string)
    requires t == "-" + ds && |ds| > 0 && AllDigits(ds)
    ensures SignedDigits(t) == Some(-(DigitsValue(ds) as int))
  {
    assert t[1..] == ds;
    DigitPrefixAll(ds);
    assert ds[..|ds|] == ds;
  }

  /** Without any digit, `stoi` throws `std::invalid_argument`. */
  lemma StoiWithoutDigit(s: string)
    requires forall i :: 0 <= i < |s| ==> !IsDigit(s[i])
    ensures Stoi(s) == None
  {
    var t := SkipSpace(s);
    var u := if |t| > 0 && (t[0] == '-' || t[0] == '+') then t[1..] else t;
    if |u| > 0 {
      assert u[0] == s[|s| - |u|];
    }
  }

  function LowerChar(c: char): (d: char)
  {
    if 'A' <= c <= 'Z' then (c as int + 32) as char else c
  }

  /** `folly::toLowerAscii`: maps `A`..`Z` to `a`..`z` and keeps every other character. */
  function LowerAscii(s: string): (r: string)
    ensures |r| == |s|
    ensures forall i :: 0 <= i < |s| ==> r[i] == LowerChar(s[i])
    ensures forall i :: 0 <= i < |s| ==> !('A' <= r[i] <= 'Z')
  {
    if |s| == 0 then [] else [LowerChar(s[0])] + LowerAscii(s[1..])
  }

  /** The pieces separated by single commas. */
  function Join(xs: seq<string>): string
  {
    if |xs| == 0 then []
    else if |xs| == 1 then xs[0]
    else xs[0] + "," + Join(xs[1..])
  }
}
