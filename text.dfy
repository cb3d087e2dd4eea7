/** The handful of functions from Go's `strings` package that the core relies
    on, over strings modelled as sequences of characters. */
module Text {

  predicate HasPrefix(s: string, p: string)
  {
    |p| <= |s| && s[..|p|] == p
  }

  predicate HasSuffix(s: string, p: string)
  {
    |p| <= |s| && s[|s| - |p|..] == p
  }

  /** `sub` occurs in `s` starting at position `i`. */
  predicate OccursAt(s: string, sub: string, i: int)
  {
    0 <= i && i + |sub| <= |s| && s[i..i + |sub|] == sub
  }

  /** strings.Contains */
  predicate Contains(s: string, sub: string)
  {
    exists i | 0 <= i <= |s| - |sub| :: OccursAt(s, sub, i)
  }

  /** strings.Index with a one-character needle: the first position of `c`,
      or -1. */
  function IndexChar(s: string, c: char): (r: int)
    ensures r == -1 <==> c !in s
    ensures r != -1 ==> 0 <= r < |s| && s[r] == c && forall k :: 0 <= k < r ==> s[k] != c
  {
    if |s| == 0 then -1
    else if s[0] == c then 0
    else
      var j := IndexChar(s[1..], c);
      if j < 0 then -1
      else
        j + 1
  }

  /** strings.LastIndex with a one-character needle: the last position of
      `c`, or -1. */
  function LastIndexChar(s: string, c: char): (r: int)
    ensures r == -1 <==> c !in s
    ensures r != -1 ==> 0 <= r < |s| && s[r] == c && forall k :: r < k < |s| ==> s[k] != c
  {
    if |s| == 0 then -1
    else if s[|s| - 1] == c then |s| - 1
    else
      var j := LastIndexChar(s[..|s| - 1], c);
      assert c !in s[..|s| - 1] && s == s[..|s| - 1] + [s[|s| - 1]] ==> c !in s;
      j
  }

  /** strings.LastIndex: the last position at which `sub` occurs in `s`,
      or -1. */
  function LastIndex(s: string, sub: string): (r: int)
    ensures r == -1 || OccursAt(s, sub, r)
    ensures forall i :: r < i && OccursAt(s, sub, i) ==> false
    ensures r == -1 <==> !Contains(s, sub)
  {
    LastIndexBelow(s, sub, |s| - |sub|)
  }

  function LastIndexBelow(s: string, sub: string, i: int): (r: int)
    requires i <= |s| - |sub|
    ensures r == -1 || (r <= i && OccursAt(s, sub, r))
    ensures forall j :: r < j <= i && OccursAt(s, sub, j) ==> false
    decreases i + 1
  {
    if i < 0 then -1
    else if s[i..i + |sub|] == sub then i
    else LastIndexBelow(s, sub, i - 1)
  }

  /** unicode.IsSpace: the characters strings.TrimSpace removes. */
  predicate IsSpace(c: char)
  {
    c == '\t' || c == '\n' || c == '\U{0B}' || c == '\U{0C}' || c == '\r' || c == ' '
    || c == '\U{85}' || c == '\U{A0}' || c == '\U{1680}'
    || ('\U{2000}' <= c <= '\U{200A}')
    || c == '\U{2028}' || c == '\U{2029}' || c == '\U{202F}' || c == '\U{205F}' || c == '\U{3000}'
  }

  function TrimLeftSpace(s: string): (r: string)
    ensures HasSuffix(s, r)
    ensures forall i :: 0 <= i < |s| - |r| ==> IsSpace(s[i])
    ensures r == [] || !IsSpace(r[0])
  {
    if |s| > 0 && IsSpace(s[0]) then TrimLeftSpace(s[1..]) else s
  }

  function TrimRightSpace(s: string): (r: string)
    ensures HasPrefix(s, r)
    ensures forall i :: |r| <= i < |s| ==> IsSpace(s[i])
    ensures r == [] || !IsSpace(r[|r| - 1])
  {
    if |s| > 0 && IsSpace(s[|s| - 1]) then TrimRightSpace(s[..|s| - 1]) else s
  }

  /** strings.TrimSpace: `s` without its leading and trailing white space. */
  function TrimSpace(s: string): (r: string)
    ensures r == [] || (!IsSpace(r[0]) && !IsSpace(r[|r| - 1]))
    ensures Contains(s, r)
  {
    var t := TrimLeftSpace(s);
    var r := TrimRightSpace(t);
    assert r != [] ==> r[0] == t[0];
    assert OccursAt(s, r, |s| - |t|);
    r
  }

  /** strings.Join */
  function Join(parts: seq<string>, sep: string): string
  {
    if |parts| == 0 then ""
    else if |parts| == 1 then parts[0]
    else parts[0] + sep + Join(parts[1..], sep)
  }

  /** strings.Split with a one-character separator. */
  function Split(s: string, c: char): (parts: seq<string>)
    ensures |parts| >= 1
    ensures forall i :: 0 <= i < |parts| ==> c !in parts[i]
    ensures Join(parts, [c]) == s
    decreases |s|
  {
    var i := IndexChar(s, c);
    if i < 0 then [s]
    else
      var rest := Split(s[i + 1..], c);
      var parts := [s[..i]] + rest;
      assert parts[1..] == rest;
      assert s == s[..i] + [c] + s[i + 1..];
      parts
  }

  /** strings.ToLower on one character (ASCII letters only). */
  function LowerChar(c: char): char
  {
    if 'A' <= c <= 'Z' then (c as int + 32) as char else c
  }

  /** strings.ToLower (ASCII letters only). */
  function ToLower(s: string): (r: string)
    ensures |r| == |s|
  {
    seq(|s|, i requires 0 <= i < |s| => LowerChar(s[i]))
  }

  /** The first separator is found right after a prefix that lacks it. */
  lemma IndexCharAfter(a: string, c: char, b: string)
    requires c !in a
    ensures IndexChar(a + [c] + b, c) == |a|
  {
    var s := a + [c] + b;
    assert s[|a|] == c && s[..|a|] == a;
  }

  /** A string contains every middle piece of it. */
  lemma ContainsMiddle(a: string, sub: string, b: string)
    ensures Contains(a + sub + b, sub)
  {
    assert OccursAt(a + sub + b, sub, |a|);
  }

  /** Splitting a join of separator-free parts gives the parts back. */
  lemma {:induction false} SplitJoin(parts: seq<string>, c: char)
    requires |parts| >= 1
    requires forall i :: 0 <= i < |parts| ==> c !in parts[i]
    ensures Split(Join(parts, [c]), c) == parts
  {
    if |parts| > 1 {
      var rest := Join(parts[1..], [c]);
      var s := Join(parts, [c]);
      assert s == parts[0] + [c] + rest;
      IndexCharAfter(parts[0], c, rest);
      assert s[|parts[0]| + 1..] == rest;
      assert s[..|parts[0]|] == parts[0];
      SplitJoin(parts[1..], c);
    }
  }

  /** A join falls apart at any inner boundary into the joins of both halves. */
  lemma {:induction false} JoinAt(parts: seq<string>, sep: string, m: int)
    requires 0 < m < |parts|
    ensures Join(parts, sep) == Join(parts[..m], sep) + sep + Join(parts[m..], sep)
  {
    if m == 1 {
      assert parts[..1] == [parts[0]];
      assert parts[1..] == parts[m..];
    } else {
      JoinAt(parts[1..], sep, m - 1);
      assert parts[1..][..m - 1] == parts[..m][1..];
      assert parts[1..][m - 1..] == parts[m..];
    }
  }

  /** The join of a tail of the parts is a suffix of the join of all of them. */
  lemma JoinTailIsSuffix(parts: seq<string>, sep: string, m: int)
    requires 0 < m <= |parts|
    ensures HasSuffix(Join(parts, sep), Join(parts[m..], sep))
  {
    if m < |parts| {
      JoinAt(parts, sep, m);
    }
  }

  /** Appending a part to a join without separator appends its text. */
  lemma JoinAppend(parts: seq<string>, x: string)
    ensures Join(parts + [x], "") == Join(parts, "") + x
  {
    if |parts| > 0 {
      JoinAt(parts + [x], "", |parts|);
      assert (parts + [x])[..|parts|] == parts;
      assert (parts + [x])[|parts|..] == [x];
    }
  }

  /** The elements in the opposite order. */
  function Reversed<T>(s: seq<T>): seq<T>
  {
    seq(|s|, i requires 0 <= i < |s| => s[|s| - 1 - i])
  }

  /** Reversing twice gives the sequence back. */
  lemma ReversedTwice<T>(s: seq<T>)
    ensures Reversed(Reversed(s)) == s
  {
  }

  /** Reversing a sequence with one more element in front puts it last. */
  lemma ReversedCons<T>(x: T, s: seq<T>)
    ensures Reversed([x] + s) == Reversed(s) + [x]
  {
  }

  /** Dropping the last elements of a reversal drops the first ones of the
      original. */
  lemma ReversedDropFront<T>(s: seq<T>, m: nat)
    requires m <= |s|
    ensures Reversed(s)[..|s| - m] == Reversed(s[m..])
  {
  }

  /** Each part preceded by `sep`, all concatenated. */
  function Prefixed(parts: seq<string>, sep: string): string
  {
    if |parts| == 0 then "" else sep + parts[0] + Prefixed(parts[1..], sep)
  }

  /** A join is its first part followed by every other part with the
      separator in front. */
  lemma {:induction false} JoinFirst(first: string, rest: seq<string>, sep: string)
    ensures Join([first] + rest, sep) == first + Prefixed(rest, sep)
    decreases |rest|
  {
    if |rest| > 0 {
      assert ([first] + rest)[1..] == rest == [rest[0]] + rest[1..];
      JoinFirst(rest[0], rest[1..], sep);
      assert Join([first] + rest, sep) == first + sep + Join(rest, sep);
    }
  }

  /** Lower-casing twice is lower-casing once. */
  lemma ToLowerIdempotent(s: string)
    ensures ToLower(ToLower(s)) == ToLower(s)
  {
  }

  /** A trimmed line never starts with a tab. */
  lemma TrimSpaceNoLeadingTab(s: string)
    ensures !HasPrefix(TrimSpace(s), "\t")
  {
  }
}
