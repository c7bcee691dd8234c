/** Sequences of characters and bytes: occurrences, splitting and joining, white space. */
module Text {

  type Byte = x: int | 0 <= x < 256

  type Bytes = seq<Byte>

  predicate OccursAt<T(==)>(needle: seq<T>, hay: seq<T>, i: int) {
    0 <= i && i + |needle| <= |hay| && hay[i..i + |needle|] == needle
  }

  /** Position of the first `sep`, or the length. */
  function IndexOf(s: string, sep: char): (i: nat)
    ensures i <= |s| && (i < |s| ==> s[i] == sep)
    ensures forall k :: 0 <= k < i ==> s[k] != sep
  {
    if s == "" || s[0] == sep then 0 else 1 + IndexOf(s[1..], sep)
  }

  function Split(s: string, sep: char): (parts: seq<string>)
    ensures |parts| >= 1
    decreases |s|
  {
    var i := IndexOf(s, sep);
    if i == |s| then [s] else [s[..i]] + Split(s[i + 1..], sep)
  }

  lemma {:induction false} SplitPure(s: string, sep: char)
    ensures forall k :: 0 <= k < |Split(s, sep)| ==> sep !in Split(s, sep)[k]
    decreases |s|
  {
    var i := IndexOf(s, sep);
    if i < |s| {
      SplitPure(s[i + 1..], sep);
    }
  }

  function Join(parts: seq<string>, sep: char): string {
    if parts == [] then ""
    else if |parts| == 1 then parts[0]
    else parts[0] + [sep] + Join(parts[1..], sep)
  }

  lemma {:induction false} IndexOfJoint(head: string, tail: string, sep: char)
    requires sep !in head
    ensures IndexOf(head + [sep] + tail, sep) == |head|
  {
    if head != "" {
      IndexOfJoint(head[1..], tail, sep);
      assert (head + [sep] + tail)[1..] == head[1..] + [sep] + tail;
    }
  }

  lemma {:induction false} IndexOfFirst(s: string, sep: char, n: nat)
    requires n <= |s| && (n < |s| ==> s[n] == sep) && forall i :: 0 <= i < n ==> s[i] != sep
    ensures IndexOf(s, sep) == n
  {
    if n > 0 {
      IndexOfFirst(s[1..], sep, n - 1);
    }
  }

  lemma SplitAt(head: string, tail: string, sep: char)
    requires sep !in head
    ensures Split(head + [sep] + tail, sep) == [head] + Split(tail, sep)
  {
    var s := head + [sep] + tail;
    IndexOfJoint(head, tail, sep);
    assert s[..|head|] == head && s[|head| + 1..] == tail;
  }

  lemma Parted(s: string, k: nat)
    requires k < |s|
    ensures s == s[..k] + [s[k]] + s[k + 1..] && s == s[..k] + ([s[k]] + s[k + 1..])
  {
  }

  lemma JoinCons(head: string, rest: seq<string>, sep: char)
    requires rest != []
    ensures Join([head] + rest, sep) == head + [sep] + Join(rest, sep)
  {
    assert ([head] + rest)[1..] == rest;
  }

  lemma {:induction false} SplitJoin(parts: seq<string>, sep: char)
    requires parts != [] && forall k :: 0 <= k < |parts| ==> sep !in parts[k]
    ensures Split(Join(parts, sep), sep) == parts
  {
    if |parts| == 1 {
      IndexOfFirst(parts[0], sep, |parts[0]|);
    } else {
      SplitJoin(parts[1..], sep);
      SplitAt(parts[0], Join(parts[1..], sep), sep);
    }
  }

  lemma {:induction false} JoinSplit(s: string, sep: char)
    ensures Join(Split(s, sep), sep) == s
    decreases |s|
  {
    var i := IndexOf(s, sep);
    if i < |s| {
      JoinSplit(s[i + 1..], sep);
      JoinCons(s[..i], Split(s[i + 1..], sep), sep);
      Parted(s, i);
    }
  }

  lemma {:induction false} JoinHolds(parts: seq<string>, sep: char, c: char)
    ensures c in Join(parts, sep) <==>
              (|parts| >= 2 && c == sep) || exists k :: 0 <= k < |parts| && c in parts[k]
  {
    if |parts| >= 2 {
      JoinHolds(parts[1..], sep, c);
      assert forall k :: 1 <= k < |parts| ==> parts[k] == parts[1..][k - 1];
      if exists k :: 0 <= k < |parts[1..]| && c in parts[1..][k] {
        var k :| 0 <= k < |parts[1..]| && c in parts[1..][k];
        assert c in parts[k + 1];
      }
    }
  }

  // ---- the last occurrence ----

  /** Position of the last `c`; the length if there is none. */
  function LastIndexOf(s: string, c: char): (i: nat)
    ensures i <= |s| && (c in s ==> i < |s| && s[i] == c && c !in s[i + 1..])
    decreases |s|
  {
    if c !in s then |s|
    else if s[|s| - 1] == c then |s| - 1
    else
      var front := s[..|s| - 1];
      assert s == front + [s[|s| - 1]];
      var i := LastIndexOf(front, c);
      assert s[i + 1..] == front[i + 1..] + [s[|s| - 1]];
      i
  }

  // ---- white space ----

  /** White space outside ASCII, as ranges of code points. */
  const WIDE_SPACES: seq<(int, int)> := [
    (133, 133), (160, 160), (5760, 5760), (8192, 8202), (8232, 8233), (8239, 8239), (8287, 8287), (12288, 12288)]

  predicate InRanges(n: int, ranges: seq<(int, int)>) {
    ranges != [] && (ranges[0].0 <= n <= ranges[0].1 || InRanges(n, ranges[1..]))
  }

  /** White space as Python's str methods and regular expressions see it. */
  predicate IsSpace(c: char) {
    if c as int < 128 then 9 <= c as int <= 13 || 28 <= c as int <= 32 else InRanges(c as int, WIDE_SPACES)
  }

  lemma IsSpaceExactly(c: char)
    ensures IsSpace(c) <==>
              var n := c as int;
              || n in {9, 10, 11, 12, 13, 28, 29, 30, 31, 32, 133, 160, 5760}
              || n in {8192, 8193, 8194, 8195, 8196, 8197, 8198, 8199, 8200, 8201, 8202}
              || n in {8232, 8233, 8239, 8287, 12288}
  {
    var n := c as int;
    assert InRanges(n, WIDE_SPACES) <==> n == 133 || InRanges(n, WIDE_SPACES[1..]);
    assert InRanges(n, WIDE_SPACES[1..]) <==> n == 160 || InRanges(n, WIDE_SPACES[2..]);
    assert InRanges(n, WIDE_SPACES[2..]) <==> n == 5760 || InRanges(n, WIDE_SPACES[3..]);
    assert InRanges(n, WIDE_SPACES[3..]) <==> 8192 <= n <= 8202 || InRanges(n, WIDE_SPACES[4..]);
    assert InRanges(n, WIDE_SPACES[4..]) <==> 8232 <= n <= 8233 || InRanges(n, WIDE_SPACES[5..]);
    assert InRanges(n, WIDE_SPACES[5..]) <==> n == 8239 || InRanges(n, WIDE_SPACES[6..]);
    assert InRanges(n, WIDE_SPACES[6..]) <==> n == 8287 || InRanges(n, WIDE_SPACES[7..]);
    assert InRanges(n, WIDE_SPACES[7..]) <==> n == 12288;
  }

  predicate Blank(s: string) {
    forall i :: 0 <= i < |s| ==> IsSpace(s[i])
  }

  /** Length of the longest prefix of white space. */
  function Spaces(s: string): (n: nat)
    ensures n <= |s| && (n < |s| ==> !IsSpace(s[n]))
    ensures forall i :: 0 <= i < n ==> IsSpace(s[i])
  {
    if s == "" || !IsSpace(s[0]) then 0 else 1 + Spaces(s[1..])
  }

  function TrimEnd(s: string): (t: string)
    ensures t <= s && (t != "" ==> !IsSpace(t[|t| - 1]))
    ensures t == "" <==> Blank(s)
  {
    if s == "" then ""
    else if IsSpace(s[|s| - 1]) then TrimEnd(s[..|s| - 1])
    else s
  }

  function Strip(s: string): string {
    TrimEnd(s[Spaces(s)..])
  }

  lemma TrimEndOf(s: string)
    requires s != "" && !IsSpace(s[|s| - 1])
    ensures TrimEnd(s) == s
  {
  }

  /** Stripping takes off the white space at both ends and nothing else. */
  lemma StripReads(a: string, s: string, b: string)
    requires Blank(a) && Blank(b)
    requires s == "" || (!IsSpace(s[0]) && !IsSpace(s[|s| - 1]))
    ensures Strip(a + (s + b)) == s
  {
    if s == "" {
      assert s + b == b && Blank(a + b);
      SpacesOfBlank(a + b);
    } else {
      SpacesBefore(a, s + b);
      TrimEndBefore(s, b);
    }
  }

  lemma {:induction false} SpacesBefore(a: string, rest: string)
    requires Blank(a) && (rest != "" ==> !IsSpace(rest[0]))
    ensures Spaces(a + rest) == |a| && (a + rest)[|a|..] == rest
  {
    if a == "" {
      assert a + rest == rest;
    } else {
      assert (a + rest)[1..] == a[1..] + rest;
      SpacesBefore(a[1..], rest);
    }
  }

  lemma {:induction false} SpacesOfBlank(s: string)
    requires Blank(s)
    ensures Spaces(s) == |s| && Strip(s) == ""
  {
    if s != "" {
      SpacesOfBlank(s[1..]);
    }
  }

  lemma {:induction false} TrimEndBefore(s: string, b: string)
    requires Blank(b) && s != "" && !IsSpace(s[|s| - 1])
    ensures TrimEnd(s + b) == s
  {
    if b == "" {
      assert s + b == s;
    } else {
      assert (s + b)[..|s + b| - 1] == s + b[..|b| - 1];
      TrimEndBefore(s, b[..|b| - 1]);
    }
  }
}
