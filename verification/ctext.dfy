/** The parts of Arduino `String`, C strings and `<stdlib.h>` that the backup
    code relies on: `indexOf`, `sprintf("%u"/"%d")`, `toInt`. Text is a
    sequence of `char`; a NUL character ends a C string. */
module CText {

  /** Concatenation is associative; stated once so that proofs can name the
      regrouping they need. */
  lemma Assoc(a: string, b: string, c: string)
    ensures (a + b) + c == a + (b + c)
  {
  }

  /** `n` occurs in `s` starting at index `k`. */
  predicate OccursAt(s: string, n: string, k: int) {
    0 <= k && k + |n| <= |s| && s[k..k + |n|] == n
  }

  /** End of the C string that starts at `from`: the first NUL at or after
      `from`, or `|s|`. */
  function FirstNul(s: string, from: nat): (r: nat)
    requires from <= |s|
    ensures from <= r <= |s|
    ensures '\0' !in s[from..r]
    ensures r == |s| || s[r] == '\0'
    decreases |s| - from
  {
    if from == |s| || s[from] == '\0' then from
    else
      var r := FirstNul(s, from + 1);
      assert s[from..r] == [s[from]] + s[from + 1..r];
      r
  }

  /** `String::indexOf(c, from)`: `strchr` on the C string at index `from`.
      The least index at or after `from` holding `c` before the first NUL,
      else -1. */
  function IndexOfChar(s: string, c: char, from: nat): (r: int)
    requires c != '\0'
    requires from <= |s|
    ensures r == -1 || from <= r < FirstNul(s, from)
    ensures r >= 0 ==> s[r] == c && c !in s[from..r]
    ensures r < 0 ==> c !in s[from..FirstNul(s, from)]
    decreases |s| - from
  {
    if from == |s| then -1
    else if s[from] == c then from
    else if s[from] == '\0' then -1
    else
      var r := IndexOfChar(s, c, from + 1);
      assert FirstNul(s, from) == FirstNul(s, from + 1);
      assert forall k :: from + 1 <= k <= |s| ==> s[from..k] == [s[from]] + s[from + 1..k];
      r
  }

  /** `String::indexOf(n, from)`: `strstr` on the C string at index `from`.
      The least index at or after `from` where `n` occurs before the first
      NUL, else -1. */
  function IndexOfStr(s: string, n: string, from: nat): (r: int)
    requires |n| > 0 && '\0' !in n
    requires from <= |s|
    ensures r == -1 || from <= r < FirstNul(s, from)
    ensures r >= 0 ==> OccursAt(s, n, r)
    ensures r >= 0 ==> forall j :: from <= j < r ==> !OccursAt(s, n, j)
    ensures r < 0 ==> forall j :: from <= j < FirstNul(s, from) ==> !OccursAt(s, n, j)
    decreases |s| - from
  {
    if from == |s| then -1
    else if OccursAt(s, n, from) then
      assert s[from..from + |n|][0] == s[from];
      from
    else if s[from] == '\0' then -1
    else
      assert FirstNul(s, from) == FirstNul(s, from + 1);
      IndexOfStr(s, n, from + 1)
  }

  /** A NUL-free stretch from `from` to `k` lies inside the C string. */
  lemma FirstNulAtLeast(s: string, from: nat, k: nat)
    requires from <= k <= |s|
    requires '\0' !in s[from..k]
    ensures k <= FirstNul(s, from)
  {
  }

  /** Every stretch from `from` that ends inside the C string is NUL-free. */
  lemma NoNulBelow(s: string, from: nat, k: nat)
    requires from <= |s|
    requires from <= k <= FirstNul(s, from)
    ensures '\0' !in s[from..k]
  {
    assert s[from..k] == s[from..FirstNul(s, from)][..k - from];
  }

  /** The scan for `c` from `from` stops exactly at `k` when `s[k]` is the
      first `c` and no NUL comes before it. */
  lemma IndexOfCharIs(s: string, c: char, from: nat, k: nat)
    requires c != '\0'
    requires from <= k < |s| && s[k] == c
    requires c !in s[from..k] && '\0' !in s[from..k]
    ensures IndexOfChar(s, c, from) == k
  {
    FirstNulAtLeast(s, from, k);
    assert k < FirstNul(s, from);
  }

  /** The search for `n` from `from` stops exactly at `k` when `k` is the
      first occurrence and no NUL comes before it. */
  lemma IndexOfStrIs(s: string, n: string, from: nat, k: nat)
    requires |n| > 0 && '\0' !in n
    requires from <= k && OccursAt(s, n, k) && '\0' !in s[from..k]
    requires forall j :: from <= j < k ==> !OccursAt(s, n, j)
    ensures IndexOfStr(s, n, from) == k
  {
    FirstNulAtLeast(s, from, k);
    assert s[k..k + |n|][0] == s[k];
    assert k < FirstNul(s, from);
  }

  /** When some occurrence of `n` is preceded by no NUL, the search finds an
      occurrence at or before it. */
  lemma IndexOfStrAtMost(s: string, n: string, from: nat, k: nat)
    requires |n| > 0 && '\0' !in n
    requires from <= k && OccursAt(s, n, k) && '\0' !in s[from..k]
    ensures from <= IndexOfStr(s, n, from) <= k
  {
    FirstNulAtLeast(s, from, k);
    assert s[k..k + |n|][0] == s[k];
    assert k < FirstNul(s, from);
  }

  predicate IsDigit(c: char) {
    '0' <= c <= '9'
  }

  predicate AllDigits(s: string) {
    forall k :: 0 <= k < |s| ==> IsDigit(s[k])
  }

  function DigitChar(d: nat): (c: char)
    requires d < 10
    ensures IsDigit(c) && c as int - '0' as int == d
  {
    ('0' as int + d) as char
  }

  /** The number a run of decimal digits denotes. */
  function DigitsValue(s: string): nat
    requires AllDigits(s)
  {
    if |s| == 0 then 0
    else DigitsValue(s[..|s| - 1]) * 10 + (s[|s| - 1] as int - '0' as int)
  }

  /** `sprintf("%u", n)`: the shortest decimal rendering of `n`. */
  function Dec(n: nat): (r: string)
    ensures |r| > 0 && AllDigits(r)
    ensures DigitsValue(r) == n
    ensures |r| == 1 || r[0] != '0'
  {
    if n < 10 then [DigitChar(n)]
    else
      var r := Dec(n / 10) + [DigitChar(n % 10)];
      assert r[..|r| - 1] == Dec(n / 10);
      r
  }

  /** `sprintf("%d", v)`. */
  function SDec(v: int): (r: string)
    ensures |r| > 0
    ensures v < 0 <==> r[0] == '-'
    ensures v >= 0 ==> r == Dec(v)
    ensures v < 0 ==> r == "-" + Dec(-v)
  {
    if v < 0 then "-" + Dec(-v) else Dec(v)
  }

  /** Number of leading decimal digits of `s`. */
  function LeadingDigits(s: string): (r: nat)
    ensures r <= |s|
    ensures AllDigits(s[..r])
    ensures r == |s| || !IsDigit(s[r])
  {
    if |s| == 0 || !IsDigit(s[0]) then 0
    else
      var r := 1 + LeadingDigits(s[1..]);
      assert s[..r] == [s[0]] + s[1..][..r - 1];
      r
  }

  /** Range of the 32-bit `long` that `strtol` returns. */
  const LONG_MIN := -0x8000_0000
  const LONG_MAX := 0x7FFF_FFFF

  /** `strtol` clamps an out-of-range result to the nearest `long`. */
  function Saturate(v: int): (r: int)
    ensures LONG_MIN <= r <= LONG_MAX
    ensures LONG_MIN <= v <= LONG_MAX ==> r == v
    ensures v < LONG_MIN ==> r == LONG_MIN
    ensures v > LONG_MAX ==> r == LONG_MAX
  {
    if v < LONG_MIN then LONG_MIN else if v > LONG_MAX then LONG_MAX else v
  }

  /** The characters `isspace` accepts in the C locale: space, tab, newline,
      vertical tab, form feed and carriage return. */
  predicate IsSpace(c: char) {
    c == ' ' || c == '\t' || c == '\n' || c == '\r' || c as int == 11 || c as int == 12
  }

  /** Number of leading white-space characters of `s`. */
  function LeadingSpaces(s: string): (r: nat)
    ensures r <= |s|
    ensures forall k :: 0 <= k < r ==> IsSpace(s[k])
    ensures r == |s| || !IsSpace(s[r])
  {
    if |s| == 0 || !IsSpace(s[0]) then 0 else 1 + LeadingSpaces(s[1..])
  }

  /** Value of the leading digit run of `s`; 0 when it has none. */
  function DigitRun(s: string): nat {
    DigitsValue(s[..LeadingDigits(s)])
  }

  /** `String::toInt`, that is `atol`, that is `strtol` in base 10 on the
      32-bit `long`: leading white space is skipped, then an optional `+` or
      `-`, then the leading digit run, clamped to the `long` range. Text with
      no digit there reads as 0. */
  function ToInt(s: string): (r: int)
    ensures LONG_MIN <= r <= LONG_MAX
    ensures var t := s[LeadingSpaces(s)..];
            || |t| == 0
            || (!IsDigit(t[0]) && t[0] != '-' && t[0] != '+')
            || ((t[0] == '-' || t[0] == '+') && (|t| == 1 || !IsDigit(t[1])))
            ==> r == 0
  {
    var t := s[LeadingSpaces(s)..];
    if |t| > 0 && t[0] == '-' then Saturate(-(DigitRun(t[1..]) as int))
    else if |t| > 0 && t[0] == '+' then Saturate(DigitRun(t[1..]))
    else Saturate(DigitRun(t))
  }

  /** A leading white-space character never changes what `toInt` reads. */
  lemma ToIntSkipsSpace(c: char, s: string)
    requires IsSpace(c)
    ensures ToInt([c] + s) == ToInt(s)
  {
    var u := [c] + s;
    assert u[1..] == s;
    assert LeadingSpaces(u) == 1 + LeadingSpaces(s);
    assert u[LeadingSpaces(u)..] == s[LeadingSpaces(s)..];
  }

  lemma LeadingDigitsOfDigits(s: string)
    requires AllDigits(s)
    ensures LeadingDigits(s) == |s|
  {
  }

  /** `toInt` reads back what `%d` wrote, for every 32-bit value. */
  lemma ToIntSDec(v: int)
    requires LONG_MIN <= v <= LONG_MAX
    ensures ToInt(SDec(v)) == v
  {
    var s := SDec(v);
    assert LeadingSpaces(s) == 0 && s[0..] == s;
    if v < 0 {
      assert s[1..] == Dec(-v);
      LeadingDigitsOfDigits(Dec(-v));
      assert Dec(-v)[..|Dec(-v)|] == Dec(-v);
    } else {
      LeadingDigitsOfDigits(Dec(v));
      assert Dec(v)[..|Dec(v)|] == Dec(v);
    }
  }

  /** `toInt` reads back what `%u` wrote. */
  lemma ToIntDec(n: nat)
    requires n <= LONG_MAX
    ensures ToInt(Dec(n)) == n
  {
    ToIntSDec(n);
  }

  /** An explicit `+` before the digits of a `long` reads as the number. */
  lemma ToIntPlus(n: nat)
    requires n <= LONG_MAX
    ensures ToInt("+" + Dec(n)) == n
  {
    var s := "+" + Dec(n);
    assert LeadingSpaces(s) == 0 && s[0..] == s;
    assert s[1..] == Dec(n);
    LeadingDigitsOfDigits(Dec(n));
    assert Dec(n)[..|Dec(n)|] == Dec(n);
  }

  /** `strncpy`/`toCharArray` into a buffer of `size` bytes keeps at most
      `size` characters: the whole text when it fits, otherwise exactly its
      first `size` characters. */
  function Take(s: string, size: nat): (r: string)
    ensures |r| <= size && |r| <= |s|
    ensures |s| <= size ==> r == s
    ensures r == s[..|r|]
    ensures |s| > size ==> r == s[..size]
  {
    if |s| <= size then s else s[..size]
  }

  /** The contents of a NUL-terminated character array: everything before
      its first NUL, as `%s` prints it. */
  function CStr(s: string): (r: string)
    ensures '\0' !in r
    ensures |r| <= |s| && r == s[..|r|]
    ensures |r| == |s| || s[|r|] == '\0'
  {
    var n := FirstNul(s, 0);
    assert s[0..n] == s[..n];
    s[..n]
  }
}
