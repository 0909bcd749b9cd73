/**
 * The parts of Java's String and Integer behaviour that the propagation code
 * relies on: 32-bit ints, `String.length()`, `String.split`, joining with a
 * separator, `Integer.toString`/`Integer.parseInt` and `String.hashCode()`.
 */
module JavaText {
  import opened Wrappers

  const INT_MIN: int := -0x8000_0000
  const INT_MAX: int := 0x7FFF_FFFF

  /** Java's `int`. */
  type Int32 = x: int | -0x8000_0000 <= x <= 0x7FFF_FFFF

  /** `StringUtil.isEmpty`: a null reference or a string of length zero. */
  predicate IsEmpty(s: Option<string>) {
    s.None? || s.value == []
  }

  /** `String.length()` counts UTF-16 code units: a code point above U+FFFF takes two. */
  function Utf16Length(s: string): (n: nat)
    ensures |s| <= n <= 2 * |s|
  {
    if s == [] then 0
    else Utf16Length(s[..|s| - 1]) + (if s[|s| - 1] as int >= 0x1_0000 then 2 else 1)
  }

  /** The UTF-16 code units of `s`, as Java stores them. */
  function Utf16Units(s: string): (units: seq<int>)
    ensures |units| == Utf16Length(s)
  {
    if s == [] then []
    else
      var cp := s[|s| - 1] as int;
      Utf16Units(s[..|s| - 1]) +
      (if cp >= 0x1_0000 then [0xD800 + (cp - 0x1_0000) / 0x400, 0xDC00 + (cp - 0x1_0000) % 0x400] else [cp])
  }

  /** Two's-complement wrap-around of an integer into Java's `int`. */
  function Wrap32(x: int): (r: Int32)
    ensures (r - x) % 0x1_0000_0000 == 0
  {
    var m := x % 0x1_0000_0000;
    if m > INT_MAX then m - 0x1_0000_0000 else m
  }

  /** `String.hashCode()`: h = 31 * h + unit over the UTF-16 units, in `int` arithmetic. */
  function StringHash(s: string): (h: Int32)
    ensures s == [] ==> h == 0
    ensures |s| == 1 && (s[0] as int) < 0x1_0000 ==> h == s[0] as int
  {
    if |s| == 1 && (s[0] as int) < 0x1_0000 then
      assert s[..0] == [];
      assert Utf16Units(s) == [s[0] as int];
      HashOneUnit(Utf16Units(s));
      HashUnits(Utf16Units(s))
    else HashUnits(Utf16Units(s))
  }

  /** The hash recurrence: appending a character of the Basic Multilingual Plane multiplies by 31 and adds it. */
  lemma StringHashStep(s: string, c: char)
    requires (c as int) < 0x1_0000
    ensures StringHash(s + [c]) == Wrap32(31 * StringHash(s) + c as int)
  {
    assert (s + [c])[..|s|] == s;
    assert Utf16Units(s + [c]) == Utf16Units(s) + [c as int];
    assert (Utf16Units(s) + [c as int])[..|Utf16Units(s)|] == Utf16Units(s);
  }

  /** One unit that fits an `int` hashes to itself. */
  lemma HashOneUnit(units: seq<int>)
    requires |units| == 1 && 0 <= units[0] <= INT_MAX
    ensures HashUnits(units) == units[0]
  {
    assert units[..0] == [];
    var m := units[0] % 0x1_0000_0000;
    assert m == units[0];
  }

  function HashUnits(units: seq<int>): Int32 {
    if units == [] then 0 else Wrap32(31 * HashUnits(units[..|units| - 1]) + units[|units| - 1])
  }

  /** Number of occurrences of `c` in `s`. */
  function Occurrences(s: string, c: char): nat {
    if s == [] then 0 else (if s[0] == c then 1 else 0) + Occurrences(s[1..], c)
  }

  /** Index of the first occurrence of `c` in `s`. */
  function IndexOf(s: string, c: char): (i: nat)
    requires c in s
    ensures i < |s| && s[i] == c
    ensures c !in s[..i]
    ensures Occurrences(s, c) == 1 + Occurrences(s[i + 1..], c)
  {
    if s[0] == c then 0
    else
      var j := IndexOf(s[1..], c);
      assert s[..j + 1] == [s[0]] + s[1..][..j];
      assert s[j + 2..] == s[1..][j + 1..];
      1 + j
  }

  /** The parts of `parts` joined with `sep` between consecutive parts. */
  function Join(parts: seq<string>, sep: char): string {
    if |parts| == 0 then ""
    else if |parts| == 1 then parts[0]
    else parts[0] + [sep] + Join(parts[1..], sep)
  }

  lemma JoinCons(first: string, rest: seq<string>, sep: char)
    requires |rest| >= 1
    ensures Join([first] + rest, sep) == first + [sep] + Join(rest, sep)
  {
    assert ([first] + rest)[1..] == rest;
  }

  /** Splitting at every separator; the pieces between separators, empties included. */
  function SplitAll(s: string, sep: char): (parts: seq<string>)
    ensures |parts| == Occurrences(s, sep) + 1
    ensures forall k | 0 <= k < |parts| :: sep !in parts[k]
    ensures Join(parts, sep) == s
    decreases |s|
  {
    if sep !in s then
      NoOccurrences(s, sep);
      [s]
    else
      var i := IndexOf(s, sep);
      var rest := SplitAll(s[i + 1..], sep);
      PrependPart(s, sep, i, rest);
      [s[..i]] + rest
  }

  /** The part before the first separator, put in front of the parts of what follows it, joins back to the whole. */
  lemma PrependPart(s: string, sep: char, i: nat, rest: seq<string>)
    requires i < |s| && s[i] == sep && |rest| >= 1 && Join(rest, sep) == s[i + 1..]
    ensures Join([s[..i]] + rest, sep) == s
    ensures forall k | 1 <= k < 1 + |rest| :: ([s[..i]] + rest)[k] == rest[k - 1]
  {
    JoinCons(s[..i], rest, sep);
    assert s == s[..i] + [sep] + s[i + 1..];
  }

  lemma {:induction false} NoOccurrences(s: string, c: char)
    requires c !in s
    ensures Occurrences(s, c) == 0
  {
    if s != [] {
      NoOccurrences(s[1..], c);
    }
  }

  /**
   * `s.split(sep, limit)` for a positive limit: the separator is applied at most
   * `limit - 1` times, the last part keeps the rest of the input, and empty parts
   * are kept.
   */
  function SplitLimit(s: string, sep: char, limit: nat): (parts: seq<string>)
    requires limit >= 1
    ensures |parts| == if Occurrences(s, sep) + 1 < limit then Occurrences(s, sep) + 1 else limit
    ensures forall k | 0 <= k < |parts| - 1 :: sep !in parts[k]
    ensures Join(parts, sep) == s
    decreases limit
  {
    if sep !in s then
      NoOccurrences(s, sep);
      [s]
    else if limit == 1 then
      [s]
    else
      var i := IndexOf(s, sep);
      var t := s[i + 1..];
      var rest := SplitLimit(t, sep, limit - 1);
      PrependPart(s, sep, i, rest);
      [s[..i]] + rest
  }

  /** Drops the empty strings at the end of `parts`. */
  function StripTrailingEmpty(parts: seq<string>): (r: seq<string>)
    ensures |r| <= |parts| && r == parts[..|r|]
    ensures |r| > 0 ==> r[|r| - 1] != ""
    ensures forall k | |r| <= k < |parts| :: parts[k] == ""
  {
    if parts == [] || parts[|parts| - 1] != "" then parts
    else StripTrailingEmpty(parts[..|parts| - 1])
  }

  /**
   * `s.split(sep)` (limit zero): split at every separator and drop trailing empty
   * strings; an input without any separator comes back as the only part.
   */
  function Split(s: string, sep: char): (parts: seq<string>)
    ensures forall k | 0 <= k < |parts| :: sep !in parts[k]
    ensures sep !in s ==> parts == [s]
    ensures var j := Join(parts, sep); |j| <= |s| && j == s[..|j|] && forall k | |j| <= k < |s| :: s[k] == sep
  {
    if sep !in s then [s]
    else
      StripTrailingJoin(SplitAll(s, sep), sep);
      StripTrailingEmpty(SplitAll(s, sep))
  }

  /** Dropping trailing empty parts shortens the join by separators only. */
  lemma {:induction false} StripTrailingJoin(parts: seq<string>, sep: char)
    ensures var j, r := Join(parts, sep), Join(StripTrailingEmpty(parts), sep);
      |r| <= |j| && r == j[..|r|] && forall k | |r| <= k < |j| :: j[k] == sep
    decreases |parts|
  {
    if parts != [] && parts[|parts| - 1] == "" {
      var init := parts[..|parts| - 1];
      StripTrailingJoin(init, sep);
      assert StripTrailingEmpty(parts) == StripTrailingEmpty(init);
      if |init| >= 1 {
        assert parts == init + [""];
        JoinSnoc(init, "", sep);
        DropLast(Join(init, sep), sep);
      }
    }
  }

  lemma DropLast(j: string, sep: char)
    ensures (j + [sep] + "")[..|j|] == j && |j + [sep] + ""| == |j| + 1 && (j + [sep] + "")[|j|] == sep
    ensures forall k | 0 <= k < |j| :: (j + [sep] + "")[k] == j[k]
  {
  }

  /** Appending a part adds a separator and the part to the join. */
  lemma {:induction false} JoinSnoc(parts: seq<string>, last: string, sep: char)
    requires |parts| >= 1
    ensures Join(parts + [last], sep) == Join(parts, sep) + [sep] + last
    decreases |parts|
  {
    if |parts| > 1 {
      assert (parts + [last])[1..] == parts[1..] + [last];
      JoinSnoc(parts[1..], last, sep);
    }
  }

  /** Splitting a join with a limit equal to the number of parts gives the parts back. */
  lemma {:induction false} SplitLimitJoin(parts: seq<string>, sep: char)
    requires |parts| >= 1
    requires forall k | 0 <= k < |parts| - 1 :: sep !in parts[k]
    ensures SplitLimit(Join(parts, sep), sep, |parts|) == parts
  {
    if |parts| > 1 {
      var s, i, more := Join(parts, sep), |parts[0]|, parts[1..];
      JoinHead(parts, sep);
      forall k | 0 <= k < |more| - 1
        ensures sep !in more[k]
      {
        assert more[k] == parts[k + 1];
      }
      SplitLimitJoin(more, sep);
      assert SplitLimit(s, sep, |parts|) == [s[..i]] + SplitLimit(s[i + 1..], sep, |parts| - 1);
      assert [parts[0]] + more == parts;
    }
  }

  /** The first separator of a join follows its first part, and the join of the other parts comes after it. */
  lemma JoinHead(parts: seq<string>, sep: char)
    requires |parts| > 1 && sep !in parts[0]
    ensures var s, i := Join(parts, sep), |parts[0]|;
      sep in s && IndexOf(s, sep) == i && s[..i] == parts[0] && s[i + 1..] == Join(parts[1..], sep)
  {
    var s := Join(parts, sep);
    var tail := Join(parts[1..], sep);
    assert s == parts[0] + [sep] + tail;
    var i := |parts[0]|;
    assert s[i] == sep;
    assert s[..i] == parts[0];
    IndexOfPrefix(s, sep, i);
    assert s[i + 1..] == tail;
  }

  /** The first occurrence is at `i` when `s[i]` is `c` and no earlier character is. */
  lemma IndexOfPrefix(s: string, c: char, i: nat)
    requires i < |s| && s[i] == c && c !in s[..i]
    ensures IndexOf(s, c) == i
  {
    var j := IndexOf(s, c);
  }

  /** Splitting at every separator recovers the parts of a join. */
  lemma {:induction false} SplitAllJoin(parts: seq<string>, sep: char)
    requires |parts| >= 1
    requires forall k | 0 <= k < |parts| :: sep !in parts[k]
    ensures SplitAll(Join(parts, sep), sep) == parts
  {
    var s := Join(parts, sep);
    if |parts| > 1 {
      var tail := Join(parts[1..], sep);
      assert s == parts[0] + [sep] + tail;
      var i := |parts[0]|;
      assert s[i] == sep;
      assert s[..i] == parts[0];
      IndexOfPrefix(s, sep, i);
      assert s[i + 1..] == tail;
      SplitAllJoin(parts[1..], sep);
    }
  }

  /** Java's `split` recovers the parts of a join when no part holds the separator and the last is non-empty. */
  lemma SplitJoin(parts: seq<string>, sep: char)
    requires |parts| >= 1 && parts[|parts| - 1] != ""
    requires forall k | 0 <= k < |parts| :: sep !in parts[k]
    ensures Split(Join(parts, sep), sep) == parts
  {
    var s := Join(parts, sep);
    SplitAllJoin(parts, sep);
    if sep !in s {
      assert |SplitAll(s, sep)| == 1 by { NoOccurrences(s, sep); }
    }
  }

  /** The ASCII digit for `d`. */
  function DigitChar(d: nat): (c: char)
    requires d < 10
    ensures '0' <= c <= '9'
  {
    ('0' as int + d) as char
  }

  predicate AllDigits(s: string) {
    forall k | 0 <= k < |s| :: '0' <= s[k] <= '9'
  }

  /** `Integer.toString(n)` for a non-negative `n`: decimal digits, most significant first. */
  function Decimal(n: nat): (s: string)
    ensures |s| >= 1 && AllDigits(s)
  {
    if n < 10 then [DigitChar(n)] else Decimal(n / 10) + [DigitChar(n % 10)]
  }

  /** The value of a string of decimal digits. */
  function DigitsValue(s: string): nat
    requires AllDigits(s)
  {
    if s == [] then 0 else DigitsValue(s[..|s| - 1]) * 10 + (s[|s| - 1] as int - '0' as int)
  }

  /**
   * `Integer.parseInt(s)`: an optional `+` or `-`, then at least one decimal digit,
   * and a value that fits an `int`; anything else is a NumberFormatException (None).
   */
  function ParseInt(s: string): (r: Option<Int32>)
    ensures r.Some? ==> s != [] && (r.value < 0 ==> s[0] == '-')
    ensures AllDigits(s) && 1 <= |s| <= 9 ==> r.Some? && r.value == DigitsValue(s)
    ensures |s| >= 1 && (s[0] == '-' || s[0] == '+') && AllDigits(s[1..]) && 2 <= |s| <= 10 ==>
      r.Some? && r.value == (if s[0] == '-' then -(DigitsValue(s[1..]) as int) else DigitsValue(s[1..]))
  {
    if |s| > 0 && (s[0] == '-' || s[0] == '+') then
      DigitsValueBound(s[1..]);
      var digits := s[1..];
      if digits == [] || !AllDigits(digits) then None
      else
        var v: int := if s[0] == '-' then -(DigitsValue(digits) as int) else DigitsValue(digits);
        if INT_MIN <= v <= INT_MAX then Some(v) else None
    else if s == [] || !AllDigits(s) then None
    else
      DigitsValueBound(s);
      var v := DigitsValue(s);
      if v <= INT_MAX then Some(v) else None
  }

  /** At most nine digits stay below 10^9, inside the `int` range. */
  lemma {:induction false} DigitsValueBound(s: string)
    ensures AllDigits(s) && |s| <= 9 ==> DigitsValue(s) < 1_000_000_000
  {
    if AllDigits(s) && |s| <= 9 {
      DigitsValuePow(s);
      Pow10Mono(|s|, 9);
    }
  }

  lemma {:induction false} DigitsValuePow(s: string)
    requires AllDigits(s)
    ensures DigitsValue(s) < Pow10(|s|)
    decreases |s|
  {
    if s != [] {
      DigitsValuePow(s[..|s| - 1]);
    }
  }

  lemma {:induction false} Pow10Mono(m: nat, n: nat)
    requires m <= n
    ensures Pow10(m) <= Pow10(n)
    decreases n
  {
    if m < n {
      Pow10Mono(m, n - 1);
    }
  }

  function Pow10(n: nat): (p: nat)
    ensures p >= 1
  {
    if n == 0 then 1 else 10 * Pow10(n - 1)
  }

  lemma {:induction false} DigitsValueDecimal(n: nat)
    ensures DigitsValue(Decimal(n)) == n
  {
    if n >= 10 {
      var s := Decimal(n);
      assert s[..|s| - 1] == Decimal(n / 10);
      DigitsValueDecimal(n / 10);
    }
  }

  /** `Integer.parseInt(Integer.toString(n)) == n` for every non-negative `int`. */
  lemma ParseIntDecimal(n: nat)
    requires n <= INT_MAX
    ensures ParseInt(Decimal(n)) == Some(n)
  {
    DigitsValueDecimal(n);
  }
}
