/** Searching a file for secret patterns while reading it in chunks. */
module PatternSearch {
  import opened Text

  ghost predicate Contains(hay: Bytes, needle: Bytes) {
    exists i :: OccursAt(needle, hay, i)
  }

  /** Some pattern occurs in `hay`. */
  ghost predicate AnyIn(patterns: seq<Bytes>, hay: Bytes) {
    exists k :: 0 <= k < |patterns| && Contains(hay, patterns[k])
  }

  /** What a whole-file search would say. A file without bytes is never searched,
      which matters only for an empty pattern. */
  ghost predicate Tainted(patterns: seq<Bytes>, content: Bytes) {
    content != [] && AnyIn(patterns, content)
  }

  lemma TaintedByNonempty(patterns: seq<Bytes>, content: Bytes)
    requires forall k :: 0 <= k < |patterns| ==> patterns[k] != []
    ensures Tainted(patterns, content) <==> AnyIn(patterns, content)
  {
    if AnyIn(patterns, content) {
      var k :| 0 <= k < |patterns| && Contains(content, patterns[k]);
      var i :| OccursAt(patterns[k], content, i);
      assert |content| > 0;
    }
  }

  lemma SliceOfRight(a: Bytes, b: Bytes, from: nat, to: nat)
    requires from <= to <= |b|
    ensures (a + b)[|a| + from..|a| + to] == b[from..to]
  {
  }

  lemma ContainsExtended(a: Bytes, b: Bytes, needle: Bytes)
    requires Contains(a, needle) || Contains(b, needle)
    ensures Contains(a + b, needle)
  {
    if Contains(a, needle) {
      var i :| OccursAt(needle, a, i);
      assert (a + b)[i..i + |needle|] == a[i..i + |needle|];
      assert OccursAt(needle, a + b, i);
    } else {
      var i :| OccursAt(needle, b, i);
      assert (a + b)[|a| + i..|a| + i + |needle|] == b[i..i + |needle|];
      assert OccursAt(needle, a + b, |a| + i);
    }
  }

  /** An occurrence in `head + tail + chunk` that is not already in `head + tail`
      ends in `chunk`, so with a long enough tail it lies in `tail + chunk`. */
  lemma TailSuffices(head: Bytes, tail: Bytes, chunk: Bytes, needle: Bytes)
    requires |needle| <= |tail| + 1 || head == []
    ensures Contains(head + tail + chunk, needle) <==>
              Contains(head + tail, needle) || Contains(tail + chunk, needle)
  {
    var whole := head + tail + chunk;
    assert whole == head + (tail + chunk);
    if Contains(head + tail, needle) || Contains(tail + chunk, needle) {
      if Contains(head + tail, needle) {
        ContainsExtended(head + tail, chunk, needle);
      } else {
        ContainsExtended(head, tail + chunk, needle);
      }
    }
    if Contains(whole, needle) {
      var i :| OccursAt(needle, whole, i);
      if i + |needle| <= |head + tail| {
        assert (head + tail)[i..i + |needle|] == whole[i..i + |needle|];
        assert OccursAt(needle, head + tail, i);
      } else {
        assert i >= |head|;
        SliceOfRight(head, tail + chunk, i - |head|, i - |head| + |needle|);
        assert OccursAt(needle, tail + chunk, i - |head|);
      }
    }
  }

  /** Length of the longest pattern, or 1 without patterns. */
  function Longest(patterns: seq<Bytes>): (n: nat)
    ensures forall k :: 0 <= k < |patterns| ==> |patterns[k]| <= n
    ensures patterns != [] ==> exists k :: 0 <= k < |patterns| && |patterns[k]| == n
  {
    if patterns == [] then 1
    else if |patterns| == 1 then |patterns[0]|
    else
      var rest := Longest(patterns[1..]);
      assert forall k :: 1 <= k < |patterns| ==> patterns[k] == patterns[1..][k - 1];
      if |patterns[0]| > rest then |patterns[0]| else rest
  }

  /** The tail that is carried over: the slice `candidate[-overlap:]`, or nothing
      for a zero overlap. A negative overlap arises from empty patterns only. */
  function CarriedTail(candidate: Bytes, overlap: int): Bytes {
    if overlap == 0 then []
    else if overlap < 0 then (if -overlap <= |candidate| then candidate[-overlap..] else [])
    else if overlap >= |candidate| then candidate
    else candidate[|candidate| - overlap..]
  }

  predicate HasPattern(patterns: seq<Bytes>, hay: Bytes)
    ensures HasPattern(patterns, hay) <==> AnyIn(patterns, hay)
  {
    exists k :: 0 <= k < |patterns| && HasNeedle(hay, patterns[k])
  }

  predicate HasNeedle(hay: Bytes, needle: Bytes)
    ensures HasNeedle(hay, needle) <==> Contains(hay, needle)
  {
    exists i :: 0 <= i <= |hay| && OccursAt(needle, hay, i)
  }

  /** One step of the loop: searching the carried tail and the new chunk finds
      exactly what the longer prefix has and the shorter one had not. */
  lemma ChunkStep(patterns: seq<Bytes>, seen: Bytes, chunk: Bytes, overlap: int)
    requires overlap == Longest(patterns) - 1 && chunk != []
    ensures
      var candidate := CarriedTail(seen, overlap) + chunk;
      AnyIn(patterns, seen + chunk) <==> AnyIn(patterns, seen) || AnyIn(patterns, candidate)
  {
    var tail := CarriedTail(seen, overlap);
    var head := seen[..|seen| - |tail|];
    assert seen == head + tail;
    forall k | 0 <= k < |patterns|
      ensures Contains(seen + chunk, patterns[k]) <==>
                Contains(seen, patterns[k]) || Contains(tail + chunk, patterns[k])
    {
      TailSuffices(head, tail, chunk, patterns[k]);
    }
  }

  lemma TailOfTail(seen: Bytes, chunk: Bytes, overlap: int)
    requires overlap >= 0
    ensures CarriedTail(CarriedTail(seen, overlap) + chunk, overlap) == CarriedTail(seen + chunk, overlap)
  {
  }

  /** Reads `content` in chunks of any positive size up to 1 MiB. Whatever the
      sizes, the answer is that of a search through the whole content. */
  method SearchInChunks(content: Bytes, patterns: seq<Bytes>, already: bool) returns (contaminated: bool)
    ensures contaminated <==> already || Tainted(patterns, content)
  {
    contaminated := already;
    var overlap := Longest(patterns) - 1;
    var tail: Bytes := [];
    var offset := 0;
    while offset < |content|
      invariant 0 <= offset <= |content|
      invariant contaminated <==> already || (offset > 0 && AnyIn(patterns, content[..offset]))
      invariant overlap >= 0 ==> tail == CarriedTail(content[..offset], overlap)
    {
      var size :| 1 <= size <= 1024 * 1024 && offset + size <= |content|;
      var chunk := content[offset..offset + size];
      var candidate := tail + chunk;
      ghost var seen := content[..offset];
      assert seen + chunk == content[..offset + size];
      if overlap >= 0 {
        ChunkStep(patterns, seen, chunk, overlap);
        TailOfTail(seen, chunk, overlap);
      } else {
        EmptyPatternEverywhere(patterns, candidate);
        EmptyPatternEverywhere(patterns, seen + chunk);
      }
      assert offset == 0 && overlap >= 0 ==> (AnyIn(patterns, candidate) <==> AnyIn(patterns, seen + chunk)) by {
        if offset == 0 && overlap >= 0 {
          assert candidate == seen + chunk;
        }
      }
      if HasPattern(patterns, candidate) {
        contaminated := true;
      }
      tail := CarriedTail(candidate, overlap);
      offset := offset + size;
    }
    assert content[..|content|] == content;
  }

  lemma EmptyPatternEverywhere(patterns: seq<Bytes>, hay: Bytes)
    requires Longest(patterns) == 0
    ensures AnyIn(patterns, hay)
  {
    assert patterns != [];
    var k :| 0 <= k < |patterns| && |patterns[k]| == 0;
    assert OccursAt(patterns[k], hay, 0);
    assert Contains(hay, patterns[k]);
  }
}
