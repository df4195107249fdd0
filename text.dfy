/**
  The few Python string operations the bot relies on: `str.strip()` with no
  argument, `str.startswith` and `str.split(sep)` with a one-character separator.
  Strings are modelled as sequences of Unicode scalar values; the lone
  surrogate code points a Python `str` can also hold are not represented.
 */
module Text {

  /** Python's `str.isspace()` for one character: the characters `str.strip()` removes. */
  predicate IsSpace(c: char) {
    ('\t' <= c <= '\r')                          // tab, line feed, vertical tab, form feed, carriage return
    || ('\U{1C}' <= c <= ' ')                    // the four information separators and space
    || c == '\U{85}' || c == '\U{A0}' || c == '\U{1680}'
    || ('\U{2000}' <= c <= '\U{200A}')
    || c == '\U{2028}' || c == '\U{2029}' || c == '\U{202F}' || c == '\U{205F}' || c == '\U{3000}'
  }

  predicate AllSpace(s: string) {
    forall k :: 0 <= k < |s| ==> IsSpace(s[k])
  }

  /** The first index at or after `i` that does not hold whitespace, or `|s|`. */
  function SkipSpace(s: string, i: nat): (j: nat)
    requires i <= |s|
    ensures i <= j <= |s|
    ensures forall k :: i <= k < j ==> IsSpace(s[k])
    ensures j == |s| || !IsSpace(s[j])
    decreases |s| - i
  {
    if i < |s| && IsSpace(s[i]) then SkipSpace(s, i + 1) else i
  }

  /** The least index `e`, with `lo <= e <= j`, such that everything from `e` up to `j` is whitespace. */
  function BackSpace(s: string, lo: nat, j: nat): (e: nat)
    requires lo <= j <= |s|
    ensures lo <= e <= j
    ensures forall k :: e <= k < j ==> IsSpace(s[k])
    ensures e == lo || !IsSpace(s[e - 1])
    decreases j
  {
    if lo < j && IsSpace(s[j - 1]) then BackSpace(s, lo, j - 1) else j
  }

  /**
    Python's `s.strip()`: scan forward past leading whitespace, backward past
    trailing whitespace, and keep what lies between.
   */
  function Strip(s: string): (r: string)
    ensures IsStripOf(s, SkipSpace(s, 0), r)
  {
    var i := SkipSpace(s, 0);
    var e := BackSpace(s, i, |s|);
    s[i..e]
  }

  /**
    `r` is `s` with whitespace cut off at both ends, the cut at the start being
    at index `i`: what is cut off is whitespace and `r` neither starts nor ends
    with whitespace.
   */
  predicate IsStripOf(s: string, i: nat, r: string) {
    i + |r| <= |s| && r == s[i..i + |r|]
    && (forall k :: 0 <= k < i ==> IsSpace(s[k]))
    && (forall k :: i + |r| <= k < |s| ==> IsSpace(s[k]))
    && (r == [] || (!IsSpace(r[0]) && !IsSpace(r[|r| - 1])))
  }

  /** The description `IsStripOf` fits exactly one result, so it determines `strip()` completely. */
  lemma StripUnique(s: string, i: nat, r: string)
    requires IsStripOf(s, i, r)
    ensures r == Strip(s)
  {
  }

  /** Surrounding whitespace never changes what `strip()` returns. */
  lemma StripIgnoresSurroundingSpace(p: string, t: string, q: string)
    requires AllSpace(p) && AllSpace(q)
    ensures Strip(p + t + q) == Strip(t)
  {
    var u := p + t + q;
    var i := SkipSpace(t, 0);
    var r := Strip(t);
    assert u[|p| + i..|p| + i + |r|] == t[i..i + |r|];
    forall k | 0 <= k < |p| + i ensures IsSpace(u[k]) {
      if k >= |p| { assert u[k] == t[k - |p|]; }
    }
    forall k | |p| + i + |r| <= k < |u| ensures IsSpace(u[k]) {
      if k < |p| + |t| { assert u[k] == t[k - |p|]; } else { assert u[k] == q[k - |p| - |t|]; }
    }
    StripUnique(u, |p| + i, r);
  }

  /** Python's `s.startswith(prefix)`. */
  predicate StartsWith(s: string, prefix: string) {
    |prefix| <= |s| && s[..|prefix|] == prefix
  }

  /** The first index at or after `from` that holds `sep`, or `|s|`: Python's `str.find`, with the miss at the end. */
  function IndexOf(s: string, sep: char, from: nat): (j: nat)
    requires from <= |s|
    ensures from <= j <= |s|
    ensures forall k :: from <= k < j ==> s[k] != sep
    ensures j < |s| ==> s[j] == sep
    decreases |s| - from
  {
    if from == |s| || s[from] == sep then from else IndexOf(s, sep, from + 1)
  }

  /** The part of `s` before the first `sep`, or all of `s` when it holds no `sep`. */
  function TakeUntil(s: string, sep: char): (r: string)
    ensures |r| <= |s| && r == s[..|r|]
    ensures sep !in r
    ensures |r| < |s| ==> s[|r|] == sep
  {
    s[..IndexOf(s, sep, 0)]
  }

  /** Python's `s.split(sep)` for a one-character separator: the pieces between separators, empty ones included. */
  function Split(s: string, sep: char): (parts: seq<string>)
    ensures |parts| >= 1 && parts[0] == TakeUntil(s, sep)
    ensures |parts| == 1 <==> sep !in s
    ensures forall k :: 0 <= k < |parts| ==> sep !in parts[k]
    decreases |s|
  {
    var head := TakeUntil(s, sep);
    if |head| == |s| then
      assert head == s;
      [s]
    else
      assert sep in s;
      [head] + Split(s[|head| + 1..], sep)
  }

  /** Python's `sep.join(parts)`. */
  function Join(parts: seq<string>, sep: char): string {
    if |parts| == 0 then ""
    else if |parts| == 1 then parts[0]
    else parts[0] + [sep] + Join(parts[1..], sep)
  }

  lemma JoinCons(head: string, tail: seq<string>, sep: char)
    requires |tail| >= 1
    ensures Join([head] + tail, sep) == head + [sep] + Join(tail, sep)
  {
    assert ([head] + tail)[1..] == tail;
  }

  /** A text holding the separator splits into the text before it and the pieces of the rest. */
  lemma SplitCons(s: string, sep: char)
    requires |TakeUntil(s, sep)| < |s|
    ensures var head := TakeUntil(s, sep);
      Split(s, sep) == [head] + Split(s[|head| + 1..], sep)
      && s == head + [sep] + s[|head| + 1..]
  {
    var head := TakeUntil(s, sep);
    assert s == s[..|head|] + [s[|head|]] + s[|head| + 1..];
  }

  /** Joining the pieces again gives back the string that was split. */
  lemma {:induction false} JoinSplit(s: string, sep: char)
    ensures Join(Split(s, sep), sep) == s
    decreases |s|
  {
    var head := TakeUntil(s, sep);
    if |head| < |s| {
      var rest := s[|head| + 1..];
      SplitCons(s, sep);
      JoinCons(head, Split(rest, sep), sep);
      JoinSplit(rest, sep);
    }
  }

  /** A separator-free piece followed by the separator is exactly the text before the first separator. */
  lemma TakeUntilNoSep(p: string, sep: char, x: string)
    requires sep !in p
    ensures TakeUntil(p + [sep] + x, sep) == p
    ensures TakeUntil(p, sep) == p
  {
    var s := p + [sep] + x;
    assert s[|p|] == sep;
    assert forall k :: 0 <= k < |p| ==> s[k] == p[k] && p[k] in p;
  }

  /** Splitting a join of separator-free pieces gives back the pieces. */
  lemma {:induction false} SplitJoin(parts: seq<string>, sep: char)
    requires |parts| >= 1
    requires forall k :: 0 <= k < |parts| ==> sep !in parts[k]
    ensures Split(Join(parts, sep), sep) == parts
    decreases |parts|
  {
    if |parts| == 1 {
      TakeUntilNoSep(parts[0], sep, []);
    } else {
      var rest := Join(parts[1..], sep);
      TakeUntilNoSep(parts[0], sep, rest);
      assert (parts[0] + [sep] + rest)[|parts[0]| + 1..] == rest;
      SplitJoin(parts[1..], sep);
    }
  }

  /**
    For a string that starts with `word` and then `sep`, where `word` holds no
    `sep`, piece 1 of the split is what lies between that first separator and the
    next one (or the end).
   */
  lemma SecondPiece(s: string, word: string, sep: char)
    requires sep !in word && StartsWith(s, word + [sep])
    ensures |Split(s, sep)| >= 2
    ensures Split(s, sep)[1] == TakeUntil(s[|word| + 1..], sep)
  {
    var rest := s[|word| + 1..];
    assert s == word + [sep] + rest;
    TakeUntilNoSep(word, sep, rest);
  }
}
