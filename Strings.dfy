/**
 * The pieces of Python string behaviour the model relies on: `str(n)` for
 * integers, `str.startswith`, and `str.split(sep)` with a non-empty
 * separator, each with a partner that undoes it.
 */
module Strings {
  import opened Common

  predicate IsDigit(c: char) { '0' <= c <= '9' }

  predicate AllDigits(s: string) { forall i :: 0 <= i < |s| ==> IsDigit(s[i]) }

  function DigitChar(d: nat): (c: char)
    requires d < 10
    ensures IsDigit(c) && c as int - '0' as int == d
  {
    "0123456789"[d]
  }

  /** The number a string of decimal digits denotes (the reading direction of `int(s)`). */
  function DigitsValue(s: string): nat
    requires AllDigits(s)
  {
    if s == [] then 0
    else 10 * DigitsValue(s[..|s| - 1]) + (s[|s| - 1] as int - '0' as int)
  }

  /** `str(n)` for a non-negative integer: shortest decimal form, no leading zero. */
  function NatToString(n: nat): (s: string)
    ensures |s| > 0 && AllDigits(s)
    ensures s[0] == '0' <==> n == 0
    ensures n == 0 ==> s == "0"
  {
    if n < 10 then [DigitChar(n)] else NatToString(n / 10) + [DigitChar(n % 10)]
  }

  lemma {:induction false} NatToStringRoundTrip(n: nat)
    ensures DigitsValue(NatToString(n)) == n
  {
    if n >= 10 {
      var s := NatToString(n);
      assert s[..|s| - 1] == NatToString(n / 10);
      NatToStringRoundTrip(n / 10);
    }
  }

  /** `str(i)` for any integer: a minus sign before the digits of a negative value. */
  function IntToString(i: int): (s: string)
    ensures |s| > 0
    ensures s[0] == '-' <==> i < 0
    ensures i < 0 ==> AllDigits(s[1..]) && |s| > 1 && s[1] != '0'
    ensures i >= 0 ==> AllDigits(s)
    ensures i >= 0 ==> (s[0] == '0' <==> i == 0)
  {
    if i < 0 then "-" + NatToString(-i) else NatToString(i)
  }

  /** Reading back what `IntToString` writes. */
  function IntValue(s: string): int
    requires |s| > 0
    requires if s[0] == '-' then AllDigits(s[1..]) else AllDigits(s)
  {
    if s[0] == '-' then 0 - DigitsValue(s[1..]) else DigitsValue(s)
  }

  lemma IntToStringRoundTrip(i: int)
    ensures IntValue(IntToString(i)) == i
  {
    var s := IntToString(i);
    if i < 0 {
      var digits := NatToString(-i);
      assert s == "-" + digits;
      assert s[1..] == digits;
      NatToStringRoundTrip(-i);
    } else {
      NatToStringRoundTrip(i);
    }
  }

  lemma ConcatAssoc(a: string, b: string, c: string, d: string)
    ensures a + b + c + d == a + (b + c + d)
  {
  }

  /** `s.startswith(prefix)` */
  predicate StartsWith(s: string, prefix: string)
  {
    |prefix| <= |s| && s[..|prefix|] == prefix
  }

  /** `sep` occurs in `s` starting at index `k`. */
  predicate OccursAt(s: string, sep: string, k: int)
  {
    0 <= k && k + |sep| <= |s| && s[k..k + |sep|] == sep
  }

  predicate Contains(s: string, sep: string)
  {
    exists k :: 0 <= k <= |s| && OccursAt(s, sep, k)
  }

  /** `s.find(sep, i)`: the first occurrence at or after `i` (its minimality is `FindFromFirst`). */
  function FindFrom(s: string, sep: string, i: nat): (r: Option<nat>)
    requires |sep| > 0 && i <= |s|
    ensures r.Some? ==> i <= r.value && OccursAt(s, sep, r.value)
    decreases |s| - i
  {
    if i + |sep| > |s| then None
    else if s[i..i + |sep|] == sep then Some(i)
    else FindFrom(s, sep, i + 1)
  }

  /** No occurrence is skipped: none lies before what `FindFrom` finds, and none at all when it finds nothing. */
  lemma {:induction false} FindFromFirst(s: string, sep: string, i: nat, k: int)
    requires |sep| > 0 && i <= |s| && i <= k
    requires OccursAt(s, sep, k)
    ensures FindFrom(s, sep, i).Some? && FindFrom(s, sep, i).value <= k
    decreases |s| - i
  {
    if i + |sep| <= |s| && s[i..i + |sep|] != sep {
      assert k != i;
      FindFromFirst(s, sep, i + 1, k);
    }
  }

  /** `s.split(sep)`: cut at every occurrence of `sep`, scanning left to right. */
  function Split(s: string, sep: string): (parts: seq<string>)
    requires |sep| > 0
    ensures |parts| > 0
    decreases |s|
  {
    match FindFrom(s, sep, 0)
    case None => [s]
    case Some(i) => [s[..i]] + Split(s[i + |sep|..], sep)
  }

  /** `sep.join(parts)` */
  function Join(parts: seq<string>, sep: string): string
  {
    if |parts| == 0 then ""
    else if |parts| == 1 then parts[0]
    else parts[0] + sep + Join(parts[1..], sep)
  }

  /** Joining the pieces of a split with the same separator gives back the string. */
  lemma {:induction false} SplitJoinRoundTrip(s: string, sep: string)
    requires |sep| > 0
    ensures Join(Split(s, sep), sep) == s
    decreases |s|
  {
    match FindFrom(s, sep, 0)
    case None =>
    case Some(i) =>
      var rest := s[i + |sep|..];
      SplitJoinRoundTrip(rest, sep);
      assert Split(s, sep) == [s[..i]] + Split(rest, sep);
      assert s == s[..i] + sep + rest;
  }

  /** No piece of a split contains the separator. */
  lemma {:induction false} SplitPartsAreFree(s: string, sep: string)
    requires |sep| > 0
    ensures forall j :: 0 <= j < |Split(s, sep)| ==> !Contains(Split(s, sep)[j], sep)
    decreases |s|
  {
    match FindFrom(s, sep, 0)
    case None =>
      assert Split(s, sep) == [s];
      forall k | OccursAt(s, sep, k)
        ensures false
      {
        FindFromFirst(s, sep, 0, k);
      }
    case Some(i) =>
      var rest := s[i + |sep|..];
      SplitPartsAreFree(rest, sep);
      var head := s[..i];
      forall k | OccursAt(head, sep, k)
        ensures false
      {
        assert head[k..k + |sep|] == s[k..k + |sep|];
        FindFromFirst(s, sep, 0, k);
      }
      var parts := Split(s, sep);
      assert parts == [head] + Split(rest, sep);
      forall j | 0 <= j < |parts|
        ensures !Contains(parts[j], sep)
      {
        if j > 0 {
          assert parts[j] == Split(rest, sep)[j - 1];
        }
      }
  }

  /** Joining one more part adds the separator and that part at the end. */
  lemma {:induction false} JoinSnoc(parts: seq<string>, p: string, sep: string)
    requires |parts| > 0
    ensures Join(parts + [p], sep) == Join(parts, sep) + sep + p
  {
    if |parts| > 1 {
      JoinSnoc(parts[1..], p, sep);
      assert (parts + [p])[1..] == parts[1..] + [p];
    }
  }

  function TotalLength(parts: seq<string>): nat
  {
    if parts == [] then 0 else |parts[0]| + TotalLength(parts[1..])
  }

  /** A join of n parts holds exactly n - 1 separators besides the parts. */
  lemma {:induction false} JoinLength(parts: seq<string>, sep: string)
    requires |parts| > 0
    ensures |Join(parts, sep)| == TotalLength(parts) + (|parts| - 1) * |sep|
  {
    if |parts| > 1 {
      JoinLength(parts[1..], sep);
    }
  }

  /** The string is the pieces before the last one, joined, then a separator, then the last piece. */
  lemma SplitLast(s: string, sep: string)
    requires |sep| > 0
    ensures var parts := Split(s, sep);
            |parts| == 1 ==> parts[0] == s
    ensures var parts := Split(s, sep);
            |parts| > 1 ==> s == Join(parts[..|parts| - 1], sep) + sep + parts[|parts| - 1]
  {
    var parts := Split(s, sep);
    SplitJoinRoundTrip(s, sep);
    if |parts| > 1 {
      assert parts[..|parts| - 1] + [parts[|parts| - 1]] == parts;
      JoinSnoc(parts[..|parts| - 1], parts[|parts| - 1], sep);
    }
  }

  /** Nothing is skipped: no occurrence lies between `i` and what `FindFrom` finds, and none after `i` when it finds nothing. */
  lemma {:induction false} FindFromNoneBefore(s: string, sep: string, i: nat)
    requires |sep| > 0 && i <= |s|
    ensures FindFrom(s, sep, i).Some? ==>
              forall k :: i <= k < FindFrom(s, sep, i).value ==> !OccursAt(s, sep, k)
    ensures FindFrom(s, sep, i).None? ==> forall k :: i <= k ==> !OccursAt(s, sep, k)
    decreases |s| - i
  {
    if i + |sep| <= |s| && s[i..i + |sep|] != sep {
      FindFromNoneBefore(s, sep, i + 1);
    }
  }

  /**
   * `(a + sep + b).split(sep)` is `[a, b]` exactly when no occurrence of
   * `sep` starts inside `a` and none occurs in `b`. An occurrence starting
   * inside `a` ends within `a` followed by all but the last character of `sep`.
   */
  lemma SplitInTwo(a: string, sep: string, b: string)
    requires |sep| > 0
    ensures Split(a + sep + b, sep) == [a, b] <==>
            !Contains(a + sep[..|sep| - 1], sep) && !Contains(b, sep)
  {
    if Split(a + sep + b, sep) == [a, b] {
      SplitInTwoOnlyIf(a, sep, b);
    }
    if !Contains(a + sep[..|sep| - 1], sep) && !Contains(b, sep) {
      SplitInTwoIf(a, sep, b);
    }
  }

  lemma SplitInTwoOnlyIf(a: string, sep: string, b: string)
    requires |sep| > 0
    requires Split(a + sep + b, sep) == [a, b]
    ensures !Contains(a + sep[..|sep| - 1], sep) && !Contains(b, sep)
  {
    var s := a + sep + b;
    assert FindFrom(s, sep, 0).Some? && FindFrom(s, sep, 0).value == |a| by {
      assert FindFrom(s, sep, 0).Some?;
      assert Split(s, sep)[0] == s[..FindFrom(s, sep, 0).value];
    }
    assert !Contains(b, sep) by {
      SplitPartsAreFree(s, sep);
      assert Split(s, sep)[1] == b;
    }
    FindFromNoneBefore(s, sep, 0);
    NoneStartsInside(a, sep, b);
  }

  /** With no occurrence in `a + sep + b` starting inside `a`, none lies in `a` followed by part of `sep`. */
  lemma NoneStartsInside(a: string, sep: string, b: string)
    requires |sep| > 0
    requires forall k :: 0 <= k < |a| ==> !OccursAt(a + sep + b, sep, k)
    ensures !Contains(a + sep[..|sep| - 1], sep)
  {
    var s := a + sep + b;
    var p := a + sep[..|sep| - 1];
    assert p == s[..|p|];
    forall k | 0 <= k <= |p|
      ensures !OccursAt(p, sep, k)
    {
      if k + |sep| <= |p| {
        assert k < |a|;
        assert p[k..k + |sep|] == s[k..k + |sep|];
        assert !OccursAt(s, sep, k);
      }
    }
  }

  lemma SplitInTwoIf(a: string, sep: string, b: string)
    requires |sep| > 0
    requires !Contains(a + sep[..|sep| - 1], sep) && !Contains(b, sep)
    ensures Split(a + sep + b, sep) == [a, b]
  {
    var s := a + sep + b;
    var p := a + sep[..|sep| - 1];
    forall k | 0 <= k < |a|
      ensures !OccursAt(s, sep, k)
    {
      if k + |sep| <= |s| {
        assert p[k..k + |sep|] == s[k..k + |sep|];
        assert !OccursAt(p, sep, k);
      }
    }
    assert s[|a|..|a| + |sep|] == sep;
    FindFromFirst(s, sep, 0, |a|);
    assert FindFrom(s, sep, 0).value == |a|;
    assert s[|a| + |sep|..] == b;
    assert FindFrom(b, sep, 0).None?;
    assert Split(b, sep) == [b];
    assert s[..|a|] == a;
    assert Split(s, sep) == [s[..|a|]] + Split(s[|a| + |sep|..], sep);
  }
}
