/** The small pieces of Python string handling the two scripts rely on:
    `str.strip()`, `str.split(sep)`, `sep.join(parts)`, `startswith`,
    `endswith`, `split(c, 1)[1]`, repetition (`"=" * 80`) and the decimal
    rendering of a non-negative integer by an f-string. */
module Text {

  /** Python's `str.isspace()` characters, which `str.strip()` removes. */
  predicate IsWhitespace(c: char) {
    || c == ' ' || c == '\t' || c == '\n' || c == '\r'
    || c == '\U{0B}' || c == '\U{0C}'
    || ('\U{1C}' <= c <= '\U{1F}')
    || c == '\U{85}' || c == '\U{A0}' || c == '\U{1680}'
    || ('\U{2000}' <= c <= '\U{200A}')
    || c == '\U{2028}' || c == '\U{2029}' || c == '\U{202F}'
    || c == '\U{205F}' || c == '\U{3000}'
  }

  /** The index of the first non-whitespace character of `s` at or after
      `from`, or `|s|` when there is none. */
  function SkipLeading(s: string, from: nat): (i: nat)
    requires from <= |s|
    ensures from <= i <= |s|
    ensures forall k :: from <= k < i ==> IsWhitespace(s[k])
    ensures i < |s| ==> !IsWhitespace(s[i])
    decreases |s| - from
  {
    if from < |s| && IsWhitespace(s[from]) then SkipLeading(s, from + 1) else from
  }

  /** The end of `s[lo..hi]` once its trailing whitespace is dropped. */
  function SkipTrailing(s: string, lo: nat, hi: nat): (j: nat)
    requires lo <= hi <= |s|
    ensures lo <= j <= hi
    ensures forall k :: j <= k < hi ==> IsWhitespace(s[k])
    ensures j > lo ==> !IsWhitespace(s[j - 1])
    decreases hi
  {
    if hi > lo && IsWhitespace(s[hi - 1]) then SkipTrailing(s, lo, hi - 1) else hi
  }

  /** Where the stripped text of `s` begins. */
  function StripStart(s: string): nat {
    SkipLeading(s, 0)
  }

  /** Python's `s.strip()`: the slice of `s` left once whitespace is removed
      from both ends. Everything outside the slice is whitespace and the
      slice neither begins nor ends with whitespace. */
  function Strip(s: string): (r: string)
    ensures r == [] || (!IsWhitespace(r[0]) && !IsWhitespace(r[|r| - 1]))
    ensures var i := StripStart(s);
              && i + |r| <= |s| && r == s[i..i + |r|]
              && (forall k :: 0 <= k < i ==> IsWhitespace(s[k]))
              && (forall k :: i + |r| <= k < |s| ==> IsWhitespace(s[k]))
  {
    var i := StripStart(s);
    s[i..SkipTrailing(s, i, |s|)]
  }

  /** Stripping adds no character. */
  lemma StripKeepsOut(s: string, c: char)
    requires c !in s
    ensures c !in Strip(s)
  {
  }

  lemma StripIdempotent(s: string)
    ensures Strip(Strip(s)) == Strip(s)
  {
    var r := Strip(s);
    assert StripStart(r) == 0;
    assert SkipTrailing(r, 0, |r|) == |r|;
    assert r[0..|r|] == r;
  }

  /** Python's `s.startswith(prefix)`. */
  predicate StartsWith(s: string, prefix: string) {
    |prefix| <= |s| && s[..|prefix|] == prefix
  }

  /** Python's `s.endswith(suffix)`. */
  predicate EndsWith(s: string, suffix: string) {
    |suffix| <= |s| && s[|s| - |suffix|..] == suffix
  }

  /** `s` starts with `prefix` exactly when it is `prefix` followed by some text. */
  lemma StartsWithMeaning(s: string, prefix: string)
    ensures StartsWith(s, prefix) <==> exists rest :: s == prefix + rest
  {
    if StartsWith(s, prefix) {
      assert s == prefix + s[|prefix|..];
    }
    if exists rest :: s == prefix + rest {
      var rest :| s == prefix + rest;
      assert s[..|prefix|] == prefix;
    }
  }

  /** `s` ends with `suffix` exactly when it is some text followed by `suffix`. */
  lemma EndsWithMeaning(s: string, suffix: string)
    ensures EndsWith(s, suffix) <==> exists init :: s == init + suffix
  {
    if EndsWith(s, suffix) {
      assert s == s[..|s| - |suffix|] + suffix;
    }
    if exists init :: s == init + suffix {
      var init :| s == init + suffix;
      assert s[|s| - |suffix|..] == suffix;
    }
  }

  /** Python's `s.split(sep)` for a one-character separator: the pieces
      between successive occurrences of `sep`, empty pieces included. */
  function Split(s: string, sep: char): (parts: seq<string>)
    ensures |parts| >= 1
    ensures forall i :: 0 <= i < |parts| ==> sep !in parts[i]
  {
    if s == [] then [""]
    else
      var rest := Split(s[1..], sep);
      if s[0] == sep then [""] + rest
      else [[s[0]] + rest[0]] + rest[1..]
  }

  /** Python's `sep.join(parts)`. */
  function Join(parts: seq<string>, sep: string): string {
    if |parts| == 0 then ""
    else if |parts| == 1 then parts[0]
    else parts[0] + sep + Join(parts[1..], sep)
  }

  /** The joined text begins with the first part and ends with the last,
      and joining no parts gives the empty text. */
  lemma {:induction false} JoinEnds(parts: seq<string>, sep: string)
    ensures |parts| == 0 ==> Join(parts, sep) == ""
    ensures |parts| > 0 ==>
      StartsWith(Join(parts, sep), parts[0]) && EndsWith(Join(parts, sep), parts[|parts| - 1])
  {
    if |parts| > 1 {
      JoinEnds(parts[1..], sep);
      var tail := Join(parts[1..], sep);
      assert Join(parts, sep) == parts[0] + sep + tail;
      assert (parts[0] + sep + tail)[..|parts[0]|] == parts[0];
      assert parts[1..][|parts[1..]| - 1] == parts[|parts| - 1];
      assert (parts[0] + sep + tail)[|parts[0] + sep + tail| - |tail|..] == tail;
    }
  }

  /** Splitting loses nothing: the pieces joined back give the text. */
  lemma {:induction false} JoinSplit(s: string, sep: char)
    ensures Join(Split(s, sep), [sep]) == s
  {
    if s != [] {
      var rest := Split(s[1..], sep);
      JoinSplit(s[1..], sep);
      if s[0] == sep {
        assert Split(s, sep) == [""] + rest;
        assert ([""] + rest)[1..] == rest;
      } else {
        var parts := [[s[0]] + rest[0]] + rest[1..];
        assert Split(s, sep) == parts;
        if |rest| == 1 {
          assert Join(rest, [sep]) == rest[0];
        } else {
          assert parts[1..] == rest[1..];
          assert Join(rest, [sep]) == rest[0] + [sep] + Join(rest[1..], [sep]);
        }
      }
    }
  }

  lemma {:induction false} SplitPrefix(p: string, rest: string, sep: char)
    requires sep !in p
    ensures Split(p + rest, sep) == [p + Split(rest, sep)[0]] + Split(rest, sep)[1..]
  {
    if p != [] {
      var whole := p + rest;
      assert whole[0] == p[0] && p[0] != sep;
      assert whole[1..] == p[1..] + rest;
      SplitPrefix(p[1..], rest, sep);
      var parts := Split(rest, sep);
      var inner := Split(whole[1..], sep);
      assert inner[0] == p[1..] + parts[0];
      assert inner[1..] == parts[1..];
      assert [p[0]] + (p[1..] + parts[0]) == p + parts[0];
    } else {
      var parts := Split(rest, sep);
      assert p + rest == rest;
      assert p + parts[0] == parts[0];
      assert [parts[0]] + parts[1..] == parts;
    }
  }

  /** Joining pieces free of the separator and splitting again gives the pieces back. */
  lemma {:induction false} SplitJoin(parts: seq<string>, sep: char)
    requires |parts| >= 1
    requires forall i :: 0 <= i < |parts| ==> sep !in parts[i]
    ensures Split(Join(parts, [sep]), sep) == parts
  {
    if |parts| == 1 {
      SplitPrefix(parts[0], "", sep);
      assert parts[0] + "" == parts[0];
      assert Split(parts[0], sep) == [parts[0] + ""];
      assert parts == [parts[0]];
    } else {
      var tail := Join(parts[1..], [sep]);
      SplitJoin(parts[1..], sep);
      assert Join(parts, [sep]) == parts[0] + [sep] + tail;
      assert parts[0] + [sep] + tail == parts[0] + ([sep] + tail);
      SplitPrefix(parts[0], [sep] + tail, sep);
      assert ([sep] + tail)[1..] == tail;
      assert Split([sep] + tail, sep) == [""] + parts[1..];
      assert parts[0] + "" == parts[0];
      assert [parts[0]] + parts[1..] == parts;
    }
  }

  /** Python's `s.split(c, 1)[1]`: the text after the first `c`. */
  function AfterFirst(s: string, c: char): (r: string)
    requires c in s
    ensures |r| < |s| && r == s[|s| - |r|..] && s[|s| - |r| - 1] == c
    ensures c !in s[..|s| - |r| - 1]
  {
    if s[0] == c then s[1..] else AfterFirst(s[1..], c)
  }

  /** When a line starts with `prefix` ending in its only `c`, the text after
      the first `c` is what follows the prefix. */
  lemma AfterFirstOfPrefix(s: string, prefix: string, c: char)
    requires StartsWith(s, prefix) && |prefix| > 0
    requires prefix[|prefix| - 1] == c && c !in prefix[..|prefix| - 1]
    ensures c in s && AfterFirst(s, c) == s[|prefix|..]
  {
    assert s[|prefix| - 1] == c;
    var r := AfterFirst(s, c);
    var k := |s| - |r| - 1;
    assert s[..k][..] == s[..k];
  }

  /** `[c] * n`, as in Python's `"=" * 80`. */
  function Repeat(c: char, n: nat): (r: string)
    ensures |r| == n && forall i :: 0 <= i < n ==> r[i] == c
  {
    seq(n, _ => c)
  }

  predicate IsDigit(c: char) {
    '0' <= c <= '9'
  }

  function DigitChar(d: nat): (c: char)
    requires d < 10
    ensures IsDigit(c) && c as int - '0' as int == d
  {
    (d + '0' as int) as char
  }

  /** The decimal rendering of `n`, as `str(n)` or `f"{n}"` gives it. */
  function NatToString(n: nat): (s: string)
    ensures |s| >= 1 && forall i :: 0 <= i < |s| ==> IsDigit(s[i])
    ensures s[0] == '0' ==> n == 0
  {
    if n < 10 then [DigitChar(n)] else NatToString(n / 10) + [DigitChar(n % 10)]
  }

  /** The number a string of decimal digits denotes. */
  function DigitsValue(s: string): nat
    requires forall i :: 0 <= i < |s| ==> IsDigit(s[i])
  {
    if s == [] then 0
    else
      assert IsDigit(s[|s| - 1]);
      DigitsValue(s[..|s| - 1]) * 10 + (s[|s| - 1] as int - '0' as int)
  }

  /** Reading the rendering back gives the number. */
  lemma {:induction false} NatToStringRoundTrip(n: nat)
    ensures DigitsValue(NatToString(n)) == n
  {
    if n >= 10 {
      var s := NatToString(n);
      assert s[..|s| - 1] == NatToString(n / 10);
      NatToStringRoundTrip(n / 10);
    }
  }

  /** `digits` is a decimal numeral for `n`. */
  predicate Denotes(digits: string, n: nat) {
    (forall i :: 0 <= i < |digits| ==> IsDigit(digits[i])) && DigitsValue(digits) == n
  }

  /** `line` is `prefix`, a numeral for `n`, then `suffix`. */
  predicate CountBetween(line: string, prefix: string, n: nat, suffix: string) {
    && StartsWith(line, prefix) && EndsWith(line, suffix)
    && |prefix| + |suffix| <= |line|
    && Denotes(line[|prefix|..|line| - |suffix|], n)
  }

  /** A count written between a fixed prefix and suffix reads back as that
      count from the text between them. */
  lemma CountReadsBack(prefix: string, n: nat, suffix: string)
    ensures var line := prefix + NatToString(n) + suffix;
      && StartsWith(line, prefix) && EndsWith(line, suffix)
      && |prefix| + |suffix| <= |line|
      && Denotes(line[|prefix|..|line| - |suffix|], n)
  {
    var line := prefix + NatToString(n) + suffix;
    assert line[..|prefix|] == prefix;
    assert line[|line| - |suffix|..] == suffix;
    assert line[|prefix|..|line| - |suffix|] == NatToString(n);
    NatToStringRoundTrip(n);
  }

  /** Two numbers render alike only when they are equal. */
  lemma NatToStringInjective(m: nat, n: nat)
    requires NatToString(m) == NatToString(n)
    ensures m == n
  {
    NatToStringRoundTrip(m);
    NatToStringRoundTrip(n);
  }
}
