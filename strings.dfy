/**
 * The Python string operations the application uses, stated as `str`
 * behaves: `strip()`, `split(sep)`, `sep.join(parts)` and the decimal
 * rendering of a non-negative integer in an f-string. `Find` (the leftmost
 * occurrence) and `Count` (non-overlapping occurrences) are helpers that
 * define and specify `split`.
 */
module Strings {
  import opened Wrappers

  // ---------------------------------------------------------------------------
  // Whitespace and str.strip()
  // ---------------------------------------------------------------------------

  /** The ASCII characters for which Python's `str.isspace()` is true:
      tab, line feed, vertical tab, form feed, carriage return,
      the four information separators 0x1C..0x1F, and space. */
  predicate IsSpace(c: char) {
    c == ' ' || 9 <= c as int <= 13 || 28 <= c as int <= 31
  }

  predicate AllSpace(s: string) {
    forall i :: 0 <= i < |s| ==> IsSpace(s[i])
  }

  /** The index of the first non-whitespace character of `s` at or after `i`
      (or `|s|` if there is none). */
  function SkipSpaces(s: string, i: nat): (r: nat)
    requires i <= |s|
    ensures i <= r <= |s|
    ensures forall k :: i <= k < r ==> IsSpace(s[k])
    ensures r < |s| ==> !IsSpace(s[r])
    decreases |s| - i
  {
    if i < |s| && IsSpace(s[i]) then SkipSpaces(s, i + 1) else i
  }

  /** The end of `s[lo..j]` once its trailing whitespace is dropped. */
  function TrimEnd(s: string, lo: nat, j: nat): (r: nat)
    requires lo <= j <= |s|
    ensures lo <= r <= j
    ensures forall k :: r <= k < j ==> IsSpace(s[k])
    ensures r > lo ==> !IsSpace(s[r - 1])
    decreases j
  {
    if j > lo && IsSpace(s[j - 1]) then TrimEnd(s, lo, j - 1) else j
  }

  /** Where `s.strip()` starts: after the leading whitespace. */
  function StripStart(s: string): nat {
    SkipSpaces(s, 0)
  }

  /** Where `s.strip()` ends: before the trailing whitespace. */
  function StripEnd(s: string): nat {
    TrimEnd(s, StripStart(s), |s|)
  }

  /** `s.strip()` without arguments: drop the leading whitespace, then the trailing. */
  function Strip(s: string): string {
    s[StripStart(s)..StripEnd(s)]
  }

  /** `s.strip()` removes whitespace only, and only at the two ends: the result
      is a slice of `s` with only whitespace before and after it, and it
      neither starts nor ends with whitespace. */
  lemma StripSlice(s: string)
    ensures StripStart(s) <= StripEnd(s) <= |s|
    ensures Strip(s) == s[StripStart(s)..StripEnd(s)]
    ensures forall k :: 0 <= k < StripStart(s) ==> IsSpace(s[k])
    ensures forall k :: StripEnd(s) <= k < |s| ==> IsSpace(s[k])
    ensures Strip(s) != [] ==> !IsSpace(Strip(s)[0]) && !IsSpace(Strip(s)[|Strip(s)| - 1])
  {
  }

  /** The stripped text is empty exactly when the input is all whitespace. */
  lemma StripBlank(s: string)
    ensures Strip(s) == [] <==> AllSpace(s)
  {
    var lo, hi := StripStart(s), StripEnd(s);
    assert AllSpace(s) ==> lo == |s|;
  }

  /** Stripping twice is stripping once. */
  lemma StripIdempotent(s: string)
    ensures Strip(Strip(s)) == Strip(s)
  {
    StripUnchanged(Strip(s));
  }

  /** A text that neither starts nor ends with whitespace is left as it is. */
  lemma StripUnchanged(s: string)
    requires s != [] ==> !IsSpace(s[0]) && !IsSpace(s[|s| - 1])
    ensures Strip(s) == s
  {
  }

  // ---------------------------------------------------------------------------
  // Occurrences: str.find and str.count
  // ---------------------------------------------------------------------------

  /** `sep` occurs in `s` starting at index `i`. */
  predicate OccursAt(s: string, sep: string, i: int) {
    0 <= i && i + |sep| <= |s| && s[i..i + |sep|] == sep
  }

  ghost predicate Contains(s: string, sep: string) {
    exists i :: OccursAt(s, sep, i)
  }

  lemma OccursAtTailAt(s: string, sep: string, j: nat)
    requires |s| > 0
    ensures OccursAt(s, sep, j + 1) <==> OccursAt(s[1..], sep, j)
  {
    if j + 1 + |sep| <= |s| {
      assert s[1..][j..j + |sep|] == s[j + 1..j + 1 + |sep|];
    }
  }

  /** Occurrences in `s` after its first character are the occurrences in `s[1..]`, shifted by one. */
  lemma OccursAtTail(s: string, sep: string)
    requires |s| > 0
    ensures forall j :: 1 <= j ==> (OccursAt(s, sep, j) <==> OccursAt(s[1..], sep, j - 1))
  {
    forall j | 1 <= j
      ensures OccursAt(s, sep, j) <==> OccursAt(s[1..], sep, j - 1)
    {
      OccursAtTailAt(s, sep, j - 1);
    }
  }

  /** `s.find(sep)`, with `None` in place of -1: the least index at which
      `sep` occurs in `s`. */
  function Find(s: string, sep: string): (r: Option<nat>)
    ensures r.Some? ==> OccursAt(s, sep, r.value)
    ensures r.Some? ==> forall j :: 0 <= j < r.value ==> !OccursAt(s, sep, j)
    ensures r.None? ==> !Contains(s, sep)
    decreases |s|
  {
    if |s| < |sep| then None
    else if s[..|sep|] == sep then Some(0)
    else
      OccursAtTail(s, sep);
      match Find(s[1..], sep)
      case None => None
      case Some(i) => Some(i + 1)
  }

  /** An occurrence with none before it is what `Find` returns. */
  lemma FindLeast(s: string, sep: string, i: nat)
    requires OccursAt(s, sep, i)
    requires forall j :: 0 <= j < i ==> !OccursAt(s, sep, j)
    ensures Find(s, sep) == Some(i)
  {
    assert Contains(s, sep);
  }

  /** `s.count(sep)`: the number of non-overlapping occurrences of `sep` in
      `s`, scanning from the left and resuming after each occurrence. */
  function Count(s: string, sep: string): nat
    requires |sep| > 0
    decreases |s|
  {
    if |s| < |sep| then 0
    else if s[..|sep|] == sep then 1 + Count(s[|sep|..], sep)
    else Count(s[1..], sep)
  }

  /** Counting restarts right after the first occurrence that `Find` reports. */
  lemma {:induction false} FindCount(s: string, sep: string)
    requires |sep| > 0
    ensures Find(s, sep).None? ==> Count(s, sep) == 0
    ensures Find(s, sep).Some? ==>
      Count(s, sep) == 1 + Count(s[Find(s, sep).value + |sep|..], sep)
    decreases |s|
  {
    if |s| >= |sep| && s[..|sep|] != sep {
      var t := s[1..];
      FindCountSkip(s, sep);
      FindCount(t, sep);
      if Find(t, sep).Some? {
        var i := Find(t, sep).value;
        assert t[i + |sep|..] == s[i + 1 + |sep|..];
      }
    }
  }

  /** Where `sep` does not start `s`, finding and counting both look past the first character. */
  lemma FindCountSkip(s: string, sep: string)
    requires |sep| > 0 && |s| >= |sep| && s[..|sep|] != sep
    ensures Count(s, sep) == Count(s[1..], sep)
    ensures Find(s[1..], sep).None? ==> Find(s, sep).None?
    ensures Find(s[1..], sep).Some? ==> Find(s, sep) == Some(Find(s[1..], sep).value + 1)
  {
  }

  // ---------------------------------------------------------------------------
  // str.split(sep) and sep.join(parts)
  // ---------------------------------------------------------------------------

  /** `s.split(sep)` for a non-empty separator: cut at the leftmost occurrence,
      then split what follows it. */
  function Split(s: string, sep: string): (parts: seq<string>)
    requires |sep| > 0
    ensures |parts| >= 1
    decreases |s|
  {
    match Find(s, sep)
    case None => [s]
    case Some(i) => [s[..i]] + Split(s[i + |sep|..], sep)
  }

  /** `sep.join(parts)`; joining no parts gives the empty string. */
  function Join(parts: seq<string>, sep: string): string
    decreases |parts|
  {
    if |parts| == 0 then ""
    else if |parts| == 1 then parts[0]
    else parts[0] + sep + Join(parts[1..], sep)
  }

  /** Joining the parts of a split with the same separator gives back the input. */
  lemma {:induction false} JoinSplit(s: string, sep: string)
    requires |sep| > 0
    ensures Join(Split(s, sep), sep) == s
    decreases |s|
  {
    match Find(s, sep)
    case None =>
    case Some(i) =>
      var rest := s[i + |sep|..];
      var tail := Split(rest, sep);
      JoinSplit(rest, sep);
      assert Split(s, sep) == [s[..i]] + tail;
      assert ([s[..i]] + tail)[1..] == tail;
      assert s == s[..i] + s[i..i + |sep|] + rest;
  }

  /** A split yields one part more than there are occurrences of the separator. */
  lemma {:induction false} SplitLength(s: string, sep: string)
    requires |sep| > 0
    ensures |Split(s, sep)| == Count(s, sep) + 1
    decreases |s|
  {
    FindCount(s, sep);
    match Find(s, sep)
    case None =>
    case Some(i) =>
      var rest := s[i + |sep|..];
      SplitLength(rest, sep);
      assert Split(s, sep) == [s[..i]] + Split(rest, sep);
  }

  lemma OccursInPrefix(s: string, sep: string, n: nat, j: nat)
    requires n <= |s|
    requires OccursAt(s[..n], sep, j)
    ensures OccursAt(s, sep, j) && j + |sep| <= n
  {
    assert s[..n][j..j + |sep|] == s[j..j + |sep|];
  }

  /** No part of a split contains the separator. */
  lemma {:induction false} SplitPartsFree(s: string, sep: string)
    requires |sep| > 0
    ensures forall k :: 0 <= k < |Split(s, sep)| ==> !Contains(Split(s, sep)[k], sep)
    decreases |s|
  {
    match Find(s, sep)
    case None =>
    case Some(i) =>
      var rest := s[i + |sep|..];
      SplitPartsFree(rest, sep);
      if Contains(s[..i], sep) {
        var j :| OccursAt(s[..i], sep, j);
        OccursInPrefix(s, sep, i, j);
        assert false;
      }
      var parts := Split(s, sep);
      assert forall k :: 1 <= k < |parts| ==> parts[k] == Split(rest, sep)[k - 1];
  }

  /** The separator, placed right after `p`, does not overlap an occurrence
      that starts inside `p`: the first occurrence in `p + sep` is the appended one. */
  ghost predicate EndsCleanly(p: string, sep: string) {
    forall j :: 0 <= j < |p| ==> !OccursAt(p + sep, sep, j)
  }

  /** The parts can be told apart again after joining: every part but the last
      ends cleanly before the separator, and the last contains none. */
  ghost predicate Separable(parts: seq<string>, sep: string) {
    && |parts| >= 1
    && (forall k :: 0 <= k < |parts| - 1 ==> EndsCleanly(parts[k], sep))
    && !Contains(parts[|parts| - 1], sep)
  }

  lemma FindAfterCleanPart(p: string, sep: string, rest: string)
    requires EndsCleanly(p, sep)
    ensures Find(p + sep + rest, sep) == Some(|p|)
  {
    var s := p + sep + rest;
    assert s[|p|..|p| + |sep|] == sep;
    forall j | 0 <= j < |p|
      ensures !OccursAt(s, sep, j)
    {
      if OccursAt(s, sep, j) {
        assert (p + sep)[j..j + |sep|] == s[j..j + |sep|];
        assert OccursAt(p + sep, sep, j);
      }
    }
    FindLeast(s, sep, |p|);
  }

  /** Splitting a join of separable parts gives the parts back. */
  lemma {:induction false} SplitJoin(parts: seq<string>, sep: string)
    requires |sep| > 0
    requires Separable(parts, sep)
    ensures Split(Join(parts, sep), sep) == parts
    decreases |parts|
  {
    if |parts| == 1 {
    } else {
      var p := parts[0];
      var rest := Join(parts[1..], sep);
      var s := Join(parts, sep);
      assert s == p + sep + rest;
      FindAfterCleanPart(p, sep, rest);
      assert s[..|p|] == p;
      assert s[|p| + |sep|..] == rest;
      assert Separable(parts[1..], sep) by {
        forall k | 0 <= k < |parts[1..]| - 1
          ensures EndsCleanly(parts[1..][k], sep)
        {
          assert parts[1..][k] == parts[k + 1];
        }
      }
      SplitJoin(parts[1..], sep);
    }
  }

  /** With a one-character separator, a part ends cleanly and contains no
      separator exactly when that character does not occur in it. */
  lemma SingleCharSeparator(p: string, c: char)
    requires c !in p
    ensures EndsCleanly(p, [c])
    ensures !Contains(p, [c])
  {
    forall j | 0 <= j < |p|
      ensures !OccursAt(p + [c], [c], j)
    {
      assert (p + [c])[j..j + 1] == [p[j]];
      assert p[j] in p;
    }
    forall j | 0 <= j < |p|
      ensures !OccursAt(p, [c], j)
    {
      assert p[j..j + 1] == [p[j]];
      assert p[j] in p;
    }
  }

  /** A text without the separator's first character does not contain it. */
  lemma NoFirstCharNoOccurrence(p: string, sep: string)
    requires |sep| > 0 && sep[0] !in p
    ensures !Contains(p, sep)
  {
    forall j | 0 <= j && j + |sep| <= |p|
      ensures p[j..j + |sep|][0] == p[j]
    {
    }
  }

  /** Appending one part to a non-empty join adds the separator and that part. */
  lemma {:induction false} JoinSnoc(parts: seq<string>, last: string, sep: string)
    requires |parts| >= 1
    ensures Join(parts + [last], sep) == Join(parts, sep) + sep + last
    decreases |parts|
  {
    if |parts| == 1 {
      assert (parts + [last])[1..] == [last];
    } else {
      assert (parts + [last])[1..] == parts[1..] + [last];
      JoinSnoc(parts[1..], last, sep);
    }
  }

  /** A join splits into the join of a prefix and the join of the rest. */
  lemma {:induction false} JoinAt(parts: seq<string>, k: nat, sep: string)
    requires 1 <= k < |parts|
    ensures Join(parts, sep) == Join(parts[..k], sep) + sep + Join(parts[k..], sep)
    decreases k
  {
    if k > 1 {
      JoinAt(parts[1..], k - 1, sep);
      assert parts[1..][..k - 1] == parts[..k][1..];
      assert parts[1..][k - 1..] == parts[k..];
    }
  }

  // ---------------------------------------------------------------------------
  // Decimal rendering of a non-negative integer (str(n), f"{n}")
  // ---------------------------------------------------------------------------

  predicate IsDigit(c: char) {
    '0' <= c <= '9'
  }

  function DigitChar(d: nat): (c: char)
    requires d < 10
    ensures IsDigit(c) && DigitValue(c) == d
  {
    ('0' as int + d) as char
  }

  /** The decimal numeral of `n`, as Python's `str(n)` writes it: digits only,
      at least one, and no leading zero except for zero itself. */
  function Decimal(n: nat): (s: string)
    ensures |s| >= 1
    ensures forall i :: 0 <= i < |s| ==> IsDigit(s[i])
    ensures s[0] == '0' ==> n == 0
  {
    if n < 10 then [DigitChar(n)] else Decimal(n / 10) + [DigitChar(n % 10)]
  }

  function DigitValue(c: char): nat
    requires IsDigit(c)
  {
    c as int - '0' as int
  }

  /** The value of a string of decimal digits. */
  function DecimalValue(s: string): nat
    requires forall i :: 0 <= i < |s| ==> IsDigit(s[i])
  {
    if s == [] then 0
    else 10 * DecimalValue(s[..|s| - 1]) + DigitValue(s[|s| - 1])
  }

  /** Reading the numeral back gives the number. */
  lemma {:induction false} DecimalRoundTrip(n: nat)
    ensures DecimalValue(Decimal(n)) == n
  {
    if n >= 10 {
      DecimalRoundTrip(n / 10);
      var s := Decimal(n);
      assert s[..|s| - 1] == Decimal(n / 10);
    }
  }
}
