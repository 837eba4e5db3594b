/** Python's built-in string operations that the scripts use:
    `str.split("/")`, `"/".join`, `str.strip(chars)`, `str.strip()` and
    `str.endswith`. */
module Strings {

  /** Index of the first separator in `s`, or `|s|` when there is none. */
  function FirstSlash(s: string): (i: nat)
    ensures i <= |s|
    ensures forall j :: 0 <= j < i ==> s[j] != '/'
    ensures i < |s| ==> s[i] == '/'
  {
    if s == [] || s[0] == '/' then 0 else 1 + FirstSlash(s[1..])
  }

  /** `s.split("/")`: the pieces between separators, empty ones included;
      never an empty list. */
  function Split(s: string): (parts: seq<string>)
    decreases |s|
    ensures |parts| >= 1
  {
    var i := FirstSlash(s);
    if i == |s| then [s] else [s[..i]] + Split(s[i + 1..])
  }

  /** No piece of a split holds a separator. */
  lemma {:induction false} SplitNoSlash(s: string)
    decreases |s|
    ensures forall k :: 0 <= k < |Split(s)| ==> '/' !in Split(s)[k]
  {
    var i := FirstSlash(s);
    if i < |s| {
      SplitNoSlash(s[i + 1..]);
      assert forall c :: c in s[..i] ==> c != '/';
    }
  }

  /** `"/".join(parts)`. */
  function JoinSlash(parts: seq<string>): string
  {
    if |parts| == 0 then ""
    else if |parts| == 1 then parts[0]
    else parts[0] + "/" + JoinSlash(parts[1..])
  }

  /** The first separator is where the characters before are not one. */
  lemma FirstSlashIs(s: string, i: nat)
    requires i <= |s| && (i < |s| ==> s[i] == '/')
    requires forall j :: 0 <= j < i ==> s[j] != '/'
    ensures FirstSlash(s) == i
  {
  }

  /** One step of `Split`: the piece before the first separator, then the
      split of the rest. */
  lemma SplitStep(s: string, i: nat)
    requires i == FirstSlash(s) && i < |s|
    ensures Split(s) == [s[..i]] + Split(s[i + 1..])
  {
  }

  lemma AppendAssoc<T>(a: seq<T>, b: seq<T>, c: seq<T>)
    ensures a + (b + c) == (a + b) + c
  {
    var l, r := a + (b + c), (a + b) + c;
    forall k | 0 <= k < |l| ensures l[k] == r[k] {
      if k < |a| {
      } else if k < |a| + |b| {
        assert l[k] == (b + c)[k - |a|];
      } else {
        assert l[k] == (b + c)[k - |a|];
      }
    }
  }

  /** Splitting at one separator splits the two sides independently. */
  lemma {:induction false} SplitConcat(x: string, y: string)
    decreases |x|
    ensures Split(x + "/" + y) == Split(x) + Split(y)
  {
    var s := x + "/" + y;
    var i := FirstSlash(x);
    assert FirstSlash(s) == i by {
      forall j | 0 <= j < i ensures s[j] != '/' {
        assert s[j] == x[j];
      }
      if i < |x| {
        assert s[i] == x[i];
      } else {
        assert s[|x|] == '/';
      }
      FirstSlashIs(s, i);
    }
    SplitStep(s, i);
    if i == |x| {
      assert s[..|x|] == x;
      assert s[|x| + 1..] == y;
    } else {
      var rest := x[i + 1..];
      assert s[..i] == x[..i];
      assert s[i + 1..] == rest + "/" + y;
      SplitConcat(rest, y);
      SplitStep(x, i);
      AppendAssoc([x[..i]], Split(rest), Split(y));
    }
  }

  /** A string without a separator splits into itself. */
  lemma SplitPlain(s: string)
    requires '/' !in s
    ensures Split(s) == [s]
  {
    assert forall i :: 0 <= i < |s| ==> s[i] != '/';
  }

  /** A string is cut at one of its separators into the text before it,
      the separator and the text after it. */
  lemma CutAt(s: string, i: nat)
    requires i < |s| && s[i] == '/'
    ensures s == s[..i] + "/" + s[i + 1..]
  {
    assert s[i..] == "/" + s[i + 1..];
    assert s == s[..i] + s[i..];
  }

  /** Joining the pieces of a split gives back the string. */
  lemma {:induction false} JoinSplit(s: string)
    decreases |s|
    ensures JoinSlash(Split(s)) == s
  {
    var i := FirstSlash(s);
    if i < |s| {
      var rest := s[i + 1..];
      var parts := [s[..i]] + Split(rest);
      JoinSplit(rest);
      assert Split(s) == parts;
      assert |parts| >= 2 && parts[0] == s[..i] && parts[1..] == Split(rest);
      assert JoinSlash(parts) == s[..i] + "/" + JoinSlash(Split(rest));
      CutAt(s, i);
    }
  }

  /** Splitting a join of separator-free pieces gives back the pieces. */
  lemma {:induction false} SplitJoin(parts: seq<string>)
    requires |parts| >= 1
    requires forall i :: 0 <= i < |parts| ==> '/' !in parts[i]
    ensures Split(JoinSlash(parts)) == parts
  {
    SplitPlain(parts[0]);
    if |parts| > 1 {
      var tail := parts[1..];
      assert forall i :: 0 <= i < |tail| ==> tail[i] == parts[i + 1];
      SplitJoin(tail);
      assert JoinSlash(parts) == parts[0] + "/" + JoinSlash(tail);
      SplitConcat(parts[0], JoinSlash(tail));
      assert parts == [parts[0]] + tail;
    }
  }

  /** Joining one more piece appends it after a separator. */
  lemma {:induction false} JoinSlashSnoc(parts: seq<string>, last: string)
    requires |parts| >= 1
    ensures JoinSlash(parts + [last]) == JoinSlash(parts) + "/" + last
  {
    if |parts| == 1 {
      assert parts + [last] == [parts[0], last];
    } else {
      assert (parts + [last])[1..] == parts[1..] + [last];
      JoinSlashSnoc(parts[1..], last);
    }
  }

  /** Index of the first character that `str.lstrip` keeps. */
  function StripStart(s: string, drop: char -> bool): (lo: nat)
    ensures lo <= |s|
    ensures forall i :: 0 <= i < lo ==> drop(s[i])
    ensures lo < |s| ==> !drop(s[lo])
  {
    if |s| > 0 && drop(s[0]) then
      var k := StripStart(s[1..], drop);
      assert forall i :: 1 <= i < k + 1 ==> s[i] == s[1..][i - 1];
      k + 1
    else 0
  }

  /** Index just past the last character that `str.rstrip` keeps. */
  function StripEnd(s: string, drop: char -> bool): (hi: nat)
    ensures hi <= |s|
    ensures forall i :: hi <= i < |s| ==> drop(s[i])
    ensures hi > 0 ==> !drop(s[hi - 1])
  {
    if |s| > 0 && drop(s[|s| - 1]) then StripEnd(s[..|s| - 1], drop) else |s|
  }

  /** `s.strip(chars)` where `drop` tells which characters are in `chars`:
      the longest middle part of `s` that neither starts nor ends with a
      dropped character. */
  function Strip(s: string, drop: char -> bool): (t: string)
    ensures t == [] <==> forall i :: 0 <= i < |s| ==> drop(s[i])
    ensures t != [] ==> !drop(t[0]) && !drop(t[|t| - 1])
    ensures t != [] ==> t == s[StripStart(s, drop)..StripEnd(s, drop)]
  {
    var lo, hi := StripStart(s, drop), StripEnd(s, drop);
    if lo < hi then s[lo..hi] else ""
  }

  /** A slice of a slice is a slice of the original. */
  lemma SliceOfSlice(s: string, lo: nat, hi: nat, a: nat, b: nat)
    requires lo <= a <= b <= hi <= |s|
    ensures s[lo..hi][a - lo..b - lo] == s[a..b]
  {
    var t := s[lo..hi][a - lo..b - lo];
    assert forall i :: 0 <= i < b - a ==> t[i] == s[a + i];
  }

  /** The separator of URL paths and POSIX file paths. */
  predicate IsSlash(c: char) { c == '/' }

  /** `str.isspace()` for one character: the characters Python's
      argument-less `str.strip()` removes. */
  predicate IsSpace(c: char)
  {
    || ('\t' <= c <= '\r')
    || ('\U{1c}' <= c <= '\U{1f}')
    || c == ' '
    || c == '\U{85}'
    || c == '\U{a0}'
    || c == '\U{1680}'
    || ('\U{2000}' <= c <= '\U{200a}')
    || c == '\U{2028}'
    || c == '\U{2029}'
    || c == '\U{202f}'
    || c == '\U{205f}'
    || c == '\U{3000}'
  }

  /** `s.endswith(suffix)`. */
  predicate HasSuffix(s: string, suffix: string)
  {
    |suffix| <= |s| && s[|s| - |suffix|..] == suffix
  }
}
