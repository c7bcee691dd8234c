/** Publishing one acceptance comment to a forge whose write answers can get lost.

    A write request takes effect at most once, before its failure is reported or
    never; `LateWriteDuplicates` shows that this assumption is needed. */
module Publication {
  import opened Options
  import opened Text

  const MARKER := "<!-- hephaestus-pi-package-acceptance:athena-v0.5.0 -->"

  const PAGE: nat := 100

  /** `url` is present when it is a canonical one. */
  datatype Comment = Comment(id: int, owner: string, body: string, url: Option<string>)

  type Thread = seq<Comment>

  predicate Occurs(needle: string, text: string) {
    exists i :: 0 <= i <= |text| && OccursAt(needle, text, i)
  }

  predicate StartsWith(text: string, head: string) {
    |head| <= |text| && text[..|head|] == head
  }

  predicate Marked(c: Comment) {
    Occurs(MARKER, c.body)
  }

  function Markers(thread: Thread): (found: Thread)
    ensures forall c :: c in found <==> c in thread && Marked(c)
  {
    if thread == [] then []
    else
      var last := thread[|thread| - 1];
      Markers(thread[..|thread| - 1]) + (if Marked(last) then [last] else [])
  }

  // ---- listing ----

  function Smaller(a: nat, b: nat): nat {
    if a < b then a else b
  }

  /** One page of the comment listing, counted from 1. */
  function Page(thread: Thread, n: nat): Thread
    requires n >= 1
  {
    thread[Smaller((n - 1) * PAGE, |thread|)..Smaller(n * PAGE, |thread|)]
  }

  /** Reads pages until one is not full: the whole listing, for every length. */
  method ListComments(thread: Thread) returns (comments: Thread)
    ensures comments == thread
  {
    comments := [];
    var page := 1;
    while true
      invariant page >= 1 && comments == thread[..Smaller((page - 1) * PAGE, |thread|)]
      decreases |thread| + PAGE - Smaller((page - 1) * PAGE, |thread| + PAGE)
    {
      var response := Page(thread, page);
      comments := comments + response;
      if |response| < PAGE {
        return;
      }
      page := page + 1;
    }
  }

  // ---- one write ----

  /** The thread after creating, or after updating comment `id`. */
  function Posted(thread: Thread, body: string, actor: string, slot: Comment): Thread {
    thread + [slot.(owner := actor, body := body)]
  }

  function Patched(thread: Thread, id: int, body: string): Thread {
    seq(|thread|, i requires 0 <= i < |thread| =>
      if thread[i].id == id then thread[i].(body := body) else thread[i])
  }

  /** How the forge answers the write: acknowledged, refused with an error, or no
      answer at all. The last two leave open whether it took effect. */
  datatype WriteEnd = Acknowledged | Errored(applied: bool) | Lost(applied: bool)

  predicate Applied(w: WriteEnd) {
    w.Acknowledged? || (w.Errored? && w.applied) || (w.Lost? && w.applied)
  }

  /** What the other calls of one attempt answer; `slot` carries the identity and
      address that the forge would give to a new comment. */
  datatype Answers = Answers(evidenceOk: bool, pullRequestOk: bool, actorOk: bool, listed: bool,
                             slot: Comment, write: WriteEnd, relisted: bool, readback: bool)

  /** The inputs are accepted only with a body that starts with the marker line. */
  predicate Admitted(body: string, a: Answers) {
    a.evidenceOk && StartsWith(body, MARKER + "\n") && a.pullRequestOk && a.actorOk && a.listed
  }

  predicate Refuses(thread: Thread, actor: string) {
    var found := Markers(thread);
    |found| > 1 || (|found| == 1 && (found[0].owner != actor || found[0].id <= 0))
  }

  predicate AlreadyThere(thread: Thread, body: string) {
    |Markers(thread)| == 1 && Markers(thread)[0].body == body
  }

  function Write(thread: Thread, body: string, actor: string, slot: Comment): Thread {
    if Markers(thread) == [] then Posted(thread, body, actor, slot)
    else Patched(thread, Markers(thread)[0].id, body)
  }

  /** What one whole attempt does to the thread. */
  function Effect(thread: Thread, body: string, actor: string, a: Answers): Thread {
    if Admitted(body, a) && !Refuses(thread, actor) && !AlreadyThere(thread, body) && Applied(a.write)
    then Write(thread, body, actor, a.slot) else thread
  }

  // ---- what attempts keep ----

  predicate DistinctIds(thread: Thread) {
    forall i, j :: 0 <= i < j < |thread| ==> thread[i].id != thread[j].id
  }

  /** A new comment gets a positive identity not used so far. */
  predicate FreshFor(slot: Comment, thread: Thread) {
    slot.id > 0 && forall i :: 0 <= i < |thread| ==> thread[i].id != slot.id
  }

  lemma {:induction false} MarkersOfPatched(thread: Thread, found: Comment, body: string)
    requires DistinctIds(thread) && Markers(thread) == [found] && Occurs(MARKER, body)
    ensures Markers(Patched(thread, found.id, body)) == [found.(body := body)]
  {
    var n := |thread| - 1;
    var after := Patched(thread, found.id, body);
    assert after[..n] == Patched(thread[..n], found.id, body);
    assert found in Markers(thread);
    if Marked(thread[n]) {
      assert Markers(thread)[|Markers(thread)| - 1] == thread[n];
      assert Markers(thread[..n]) == [];
      assert after[..n] == thread[..n];
    } else {
      assert Markers(thread[..n]) == [found];
      MarkersOfPatched(thread[..n], found, body);
      var k :| 0 <= k < |thread| && thread[k] == found;
    }
  }

  /** The comment that a write creates or updates. */
  function Target(thread: Thread, body: string, actor: string, slot: Comment): Comment {
    if Markers(thread) == [] then slot.(owner := actor, body := body)
    else Markers(thread)[0].(body := body)
  }

  /** After a write the target is the only marker, and it is the actor's. */
  lemma WrittenMarker(thread: Thread, body: string, actor: string, slot: Comment)
    requires DistinctIds(thread) && FreshFor(slot, thread) && !Refuses(thread, actor) && Occurs(MARKER, body)
    ensures
      var after := Write(thread, body, actor, slot);
      && DistinctIds(after)
      && Markers(after) == [Target(thread, body, actor, slot)]
      && Target(thread, body, actor, slot).owner == actor && Target(thread, body, actor, slot).id > 0
  {
    var after := Write(thread, body, actor, slot);
    if Markers(thread) == [] {
      assert after[..|thread|] == thread;
    } else {
      var found := Markers(thread)[0];
      assert Markers(thread) == [found];
      MarkersOfPatched(thread, found, body);
      PatchedIds(thread, found.id, body);
    }
  }

  lemma PrefixOccurs(text: string, head: string, rest: string)
    requires StartsWith(text, head + rest)
    ensures Occurs(head, text)
  {
    assert text[..|head + rest|][..|head|] == (head + rest)[..|head|] == head;
    assert OccursAt(head, text, 0);
  }

  lemma MarkerBodyMarks(body: string)
    requires StartsWith(body, MARKER + "\n")
    ensures Occurs(MARKER, body)
  {
    PrefixOccurs(body, MARKER, "\n");
  }

  lemma PatchedIds(thread: Thread, id: int, body: string)
    requires DistinctIds(thread)
    ensures DistinctIds(Patched(thread, id, body))
  {
    assert forall i :: 0 <= i < |thread| ==> Patched(thread, id, body)[i].id == thread[i].id;
  }

  /** One attempt keeps the thread sane, whatever is lost on the way. */
  lemma AttemptKeepsSane(thread: Thread, body: string, actor: string, a: Answers)
    requires DistinctIds(thread) && |Markers(thread)| <= 1 && FreshFor(a.slot, thread)
    ensures DistinctIds(Effect(thread, body, actor, a)) && |Markers(Effect(thread, body, actor, a))| <= 1
  {
    if Admitted(body, a) && !Refuses(thread, actor) {
      MarkerBodyMarks(body);
      WrittenMarker(thread, body, actor, a.slot);
    }
  }

  /** A comment of another owner is the same before and after, at its place. */
  lemma ForeignUntouched(thread: Thread, body: string, actor: string, a: Answers, i: nat)
    requires DistinctIds(thread) && i < |thread| && thread[i].owner != actor
    ensures |Effect(thread, body, actor, a)| >= |thread|
    ensures Effect(thread, body, actor, a)[i] == thread[i]
  {
    if Markers(thread) != [] {
      assert Markers(thread)[0] in Markers(thread);
      var k :| 0 <= k < |thread| && thread[k] == Markers(thread)[0];
    }
  }

  // ---- one attempt ----

  datatype Outcome = Url(url: string) | Failed | Indeterminate

  /** `thread` holds the exact actor-owned comment at this address. */
  ghost predicate Published(thread: Thread, body: string, actor: string, url: string) {
    exists c :: c in thread && c.body == body && c.owner == actor && c.url == Some(url)
  }

  function ById(thread: Thread, id: int): Option<Comment> {
    if thread == [] then None
    else if thread[|thread| - 1].id == id then Some(thread[|thread| - 1])
    else ById(thread[..|thread| - 1], id)
  }

  lemma {:induction false} ByIdFinds(thread: Thread, id: int)
    ensures ById(thread, id).Some? ==> ById(thread, id).value in thread && ById(thread, id).value.id == id
    ensures DistinctIds(thread) ==> forall c :: c in thread && c.id == id ==> ById(thread, id) == Some(c)
  {
    if thread != [] {
      ByIdFinds(thread[..|thread| - 1], id);
    }
  }

  /** The exact comments of the actor in a listing. */
  function ExactOf(cs: Thread, body: string, actor: string): Thread {
    if cs == [] then []
    else
      var last := cs[|cs| - 1];
      ExactOf(cs[..|cs| - 1], body, actor) + (if last.body == body && last.owner == actor then [last] else [])
  }

  lemma {:induction false} ExactOfMember(cs: Thread, body: string, actor: string)
    ensures forall c :: c in ExactOf(cs, body, actor) ==> c in cs && c.body == body && c.owner == actor
  {
    if cs != [] {
      ExactOfMember(cs[..|cs| - 1], body, actor);
    }
  }

  /** When an attempt returns an address. */
  predicate Succeeds(thread: Thread, body: string, actor: string, a: Answers) {
    && Admitted(body, a) && !Refuses(thread, actor)
    && Target(thread, body, actor, a.slot).url.Some?
    && (if AlreadyThere(thread, body) then a.readback else Confirmed(a))
  }

  /** The write took effect and the attempt got to see it. */
  predicate Confirmed(a: Answers) {
    (a.write.Acknowledged? && a.readback) || (a.write == Lost(true) && a.relisted)
  }

  // ---- the same, said of the answers and the comments ----

  /** Everything that is checked before the listing is judged. */
  ghost predicate Prepared(body: string, a: Answers) {
    && a.evidenceOk && a.pullRequestOk && a.actorOk && a.listed
    && |body| > |MARKER| && body[..|MARKER|] == MARKER && body[|MARKER|] == '\n'
  }

  /** The only marker comment, and the actor may write to it. */
  ghost predicate OneOwn(thread: Thread, actor: string, c: Comment) {
    Markers(thread) == [c] && c.owner == actor && c.id > 0
  }

  /** The write took effect and the attempt read it back. */
  ghost predicate ReadBack(a: Answers) {
    (a.write == Acknowledged && a.readback) || (a.write == Lost(true) && a.relisted)
  }

  /** The attempt saw comment `c` with the body it is to have. */
  ghost predicate Seen(c: Comment, body: string, a: Answers) {
    if c.body == body then a.readback else ReadBack(a)
  }

  lemma PreparedExactly(body: string, a: Answers)
    ensures Admitted(body, a) <==> Prepared(body, a)
  {
    var head := MARKER + "\n";
    if |body| > |MARKER| {
      assert body[..|head|] == body[..|MARKER|] + [body[|MARKER|]];
      assert head[..|MARKER|] == MARKER && head[|MARKER|] == '\n';
    }
  }

  ghost predicate HoldsMarker(body: string) {
    exists x, y :: body == x + MARKER + y
  }

  lemma OccursExactly(body: string)
    ensures Occurs(MARKER, body) <==> HoldsMarker(body)
  {
    if Occurs(MARKER, body) {
      var i :| 0 <= i <= |body| && OccursAt(MARKER, body, i);
      assert body == body[..i] + MARKER + body[i + |MARKER|..];
    }
    if x, y :| body == x + MARKER + y {
      assert body[|x|..|x| + |MARKER|] == MARKER;
      assert OccursAt(MARKER, body, |x|);
    }
  }

  /** The marker comments are the comments that contain the marker, in order. */
  lemma MarkersExactly(thread: Thread, c: Comment)
    ensures Markers([]) == []
    ensures Markers(thread + [c]) == Markers(thread) + if HoldsMarker(c.body) then [c] else []
  {
    assert (thread + [c])[..|thread|] == thread;
    OccursExactly(c.body);
  }

  /** When an attempt returns an address, and which. */
  lemma SucceedsExactly(thread: Thread, body: string, actor: string, a: Answers)
    ensures Succeeds(thread, body, actor, a) <==>
              && Prepared(body, a)
              && ((Markers(thread) == [] && a.slot.url.Some? && ReadBack(a))
                  || exists c :: OneOwn(thread, actor, c) && c.url.Some? && Seen(c, body, a))
  {
    PreparedExactly(body, a);
    if |Markers(thread)| == 1 {
      var c := Markers(thread)[0];
      assert Markers(thread) == [c];
      assert OneOwn(thread, actor, c) <==> !Refuses(thread, actor);
    }
  }

  /** What an attempt writes. */
  lemma EffectExactly(thread: Thread, body: string, actor: string, a: Answers)
    ensures
      var reached := a.write == Acknowledged || a.write == Errored(true) || a.write == Lost(true);
      var after := Effect(thread, body, actor, a);
      && (Prepared(body, a) && reached && Markers(thread) == [] ==>
            after == thread + [Comment(a.slot.id, actor, body, a.slot.url)])
      && (forall c :: Prepared(body, a) && reached && OneOwn(thread, actor, c) && c.body != body ==>
            && |after| == |thread|
            && forall i :: 0 <= i < |thread| ==>
                 after[i] == if thread[i].id == c.id then Comment(c.id, thread[i].owner, body, thread[i].url) else thread[i])
      && (!Prepared(body, a) || !reached || |Markers(thread)| > 1 ==> after == thread)
      && (forall c :: Markers(thread) == [c] && (c.owner != actor || c.id <= 0 || c.body == body) ==> after == thread)
  {
    PreparedExactly(body, a);
  }

  /** After a write, both ways of looking find the target, and only it. */
  lemma WriteIsFound(thread: Thread, body: string, actor: string, slot: Comment)
    requires DistinctIds(thread) && FreshFor(slot, thread) && !Refuses(thread, actor) && Occurs(MARKER, body)
    ensures
      var target, after := Target(thread, body, actor, slot), Write(thread, body, actor, slot);
      && target in after && target.body == body && target.owner == actor
      && ById(after, target.id) == Some(target)
      && ExactOf(Markers(after), body, actor) == [target]
  {
    WrittenMarker(thread, body, actor, slot);
    var target, after := Target(thread, body, actor, slot), Write(thread, body, actor, slot);
    assert target in Markers(after);
    ByIdFinds(after, target.id);
    assert [target][..0] == [];
  }

  lemma NothingIsFound(thread: Thread, body: string, actor: string)
    requires !Refuses(thread, actor) && !AlreadyThere(thread, body)
    ensures ExactOf(Markers(thread), body, actor) == []
  {
    var found := Markers(thread);
    if found != [] {
      assert found[..0] == [];
    }
  }

  class Forge {
    var thread: Thread

    constructor (thread: Thread)
      ensures this.thread == thread
    {
      this.thread := thread;
    }

    /** Accepts a comment that was read back only if it is the exact body of the actor. */
    method ExactUrl(c: Option<Comment>, body: string, actor: string) returns (r: Outcome)
      ensures r.Url? <==> c.Some? && c.value.body == body && c.value.owner == actor && c.value.url.Some?
      ensures r.Url? ==> c.value.url == Some(r.url)
      ensures r.Url? || r.Failed?
    {
      if c.None? || c.value.body != body || c.value.owner != actor || c.value.url.None? {
        return Failed;
      }
      return Url(c.value.url.value);
    }

    /** After a lost answer: only one exact actor-owned marker counts as success. */
    method Reconcile(body: string, actor: string, a: Answers) returns (r: Outcome)
      ensures
        var exact := ExactOf(Markers(thread), body, actor);
        && (r.Url? <==> a.relisted && |exact| == 1 && exact[0].url.Some?)
        && (r.Url? ==> exact[0].url == Some(r.url))
    {
      if !a.relisted { return Failed; }
      var listing := ListComments(thread);
      var matching := Markers(listing);
      var exact: seq<Comment> := [];
      for i := 0 to |matching|
        invariant exact == ExactOf(matching[..i], body, actor)
      {
        assert matching[..i + 1][..i] == matching[..i];
        if matching[i].body == body && matching[i].owner == actor {
          exact := exact + [matching[i]];
        }
      }
      assert matching[..|matching|] == matching;
      ExactOfMember(matching, body, actor);
      if |exact| != 1 { return Indeterminate; }
      assert exact[0] in exact;
      r := ExactUrl(Some(exact[0]), body, actor);
    }

    /** One publish attempt. The thread changes by `Effect` only. An address is
        returned exactly when the attempt succeeds, and then the thread holds the
        exact comment of the actor at that address. */
    method Publish(body: string, actor: string, a: Answers) returns (r: Outcome)
      requires DistinctIds(thread) && FreshFor(a.slot, thread)
      modifies this
      ensures thread == Effect(old(thread), body, actor, a)
      ensures r.Url? <==> Succeeds(old(thread), body, actor, a)
      ensures r.Url? ==> Published(thread, body, actor, r.url)
      ensures r.Url? ==> Target(old(thread), body, actor, a.slot).url == Some(r.url)
      ensures r.Url? ==> Prepared(body, a) && (a.readback || (a.write == Lost(true) && a.relisted))
      ensures Prepared(body, a) && Markers(old(thread)) == [] && a.slot.url.Some? && ReadBack(a) ==> r == Url(a.slot.url.value)
      ensures forall c :: Prepared(body, a) && OneOwn(old(thread), actor, c) && c.url.Some? && Seen(c, body, a) ==>
                r == Url(c.url.value)
    {
      SucceedsExactly(thread, body, actor, a);
      if !a.evidenceOk || !StartsWith(body, MARKER + "\n") { return Failed; }
      if !a.pullRequestOk || !a.actorOk || !a.listed { return Failed; }
      MarkerBodyMarks(body);
      var listing := ListComments(thread);
      var markers := Markers(listing);
      if |markers| > 1 { return Failed; }
      if markers != [] && (markers[0].owner != actor || markers[0].id <= 0) { return Failed; }
      WrittenMarker(thread, body, actor, a.slot);
      if markers != [] && markers[0].body == body {
        if !a.readback { return Failed; }
        assert markers[0] in markers;
        ByIdFinds(thread, markers[0].id);
        r := ExactUrl(ById(thread, markers[0].id), body, actor);
        return;
      }
      r := WriteAndConfirm(body, actor, a);
    }

    /** Creates or updates the marker comment, then reads it back. */
    method WriteAndConfirm(body: string, actor: string, a: Answers) returns (r: Outcome)
      requires DistinctIds(thread) && FreshFor(a.slot, thread) && Occurs(MARKER, body)
      requires !Refuses(thread, actor) && !AlreadyThere(thread, body)
      modifies this
      ensures thread == if Applied(a.write) then Write(old(thread), body, actor, a.slot) else old(thread)
      ensures
        var target := Target(old(thread), body, actor, a.slot);
        && (r.Url? <==> target.url.Some? && Confirmed(a))
        && (r.Url? ==> target in thread && target.body == body && target.owner == actor && target.url == Some(r.url))
    {
      var id := Target(thread, body, actor, a.slot).id;
      WriteIsFound(thread, body, actor, a.slot);
      NothingIsFound(thread, body, actor);
      if Applied(a.write) {
        thread := Write(thread, body, actor, a.slot);
      }
      match a.write
      case Lost(_) => r := Reconcile(body, actor, a);
      case Errored(_) => return Failed;
      case Acknowledged =>
        if !a.readback { return Failed; }
        r := ExactUrl(ById(thread, id), body, actor);
    }
  }

  /** A comment that is already there is neither written nor replaced. */
  lemma NothingToWrite(thread: Thread, body: string, actor: string, a: Answers)
    requires AlreadyThere(thread, body)
    ensures Effect(thread, body, actor, a) == thread
    ensures Target(thread, body, actor, a.slot) == Markers(thread)[0]
  {
    assert Markers(thread)[0].(body := body) == Markers(thread)[0];
  }

  /** What a successful attempt leaves: its target as the only marker. */
  lemma SuccessLeavesTarget(thread: Thread, body: string, actor: string, a: Answers)
    requires DistinctIds(thread) && FreshFor(a.slot, thread) && Succeeds(thread, body, actor, a)
    ensures
      var after, target := Effect(thread, body, actor, a), Target(thread, body, actor, a.slot);
      Markers(after) == [target] && target.body == body && target.owner == actor && target.id > 0
  {
    MarkerBodyMarks(body);
    if AlreadyThere(thread, body) {
      NothingToWrite(thread, body, actor, a);
      assert Markers(thread) == [Markers(thread)[0]];
    } else {
      WrittenMarker(thread, body, actor, a.slot);
    }
  }

  /** A repeat after success finds its comment: it writes nothing, whatever its
      calls answer, and can only return the same address. */
  lemma RepeatWritesNothing(thread: Thread, body: string, actor: string, a: Answers, again: Answers)
    requires DistinctIds(thread) && FreshFor(a.slot, thread) && Succeeds(thread, body, actor, a)
    ensures
      var after := Effect(thread, body, actor, a);
      && AlreadyThere(after, body) && !Refuses(after, actor)
      && Effect(after, body, actor, again) == after
      && Target(after, body, actor, again.slot).url == Target(thread, body, actor, a.slot).url
  {
    SuccessLeavesTarget(thread, body, actor, a);
    NothingToWrite(Effect(thread, body, actor, a), body, actor, again);
  }

  // ---- whole histories ----

  /** Attempts by any actors with any bodies, and what others do in between:
      anything that adds no marker comment. */
  datatype Step = Attempt(body: string, actor: string, a: Answers) | Outside(after: Thread)

  predicate Fair(thread: Thread, s: Step) {
    match s
    case Attempt(_, _, a) => FreshFor(a.slot, thread)
    case Outside(after) => DistinctIds(after) && |Markers(after)| <= |Markers(thread)|
  }

  function Follow(thread: Thread, s: Step): Thread {
    match s
    case Attempt(body, actor, a) => Effect(thread, body, actor, a)
    case Outside(after) => after
  }

  /** The thread after a history, or `None` if it is not a fair one. */
  function History(thread: Thread, steps: seq<Step>): Option<Thread> {
    if steps == [] then Some(thread)
    else
      match History(thread, steps[..|steps| - 1])
      case None => None
      case Some(before) =>
        if Fair(before, steps[|steps| - 1]) then Some(Follow(before, steps[|steps| - 1])) else None
  }

  /** However many attempts lose however many answers, there is never more than
      one marker comment. */
  lemma {:induction false} NeverTwoMarkers(thread: Thread, steps: seq<Step>)
    requires DistinctIds(thread) && |Markers(thread)| <= 1 && History(thread, steps).Some?
    ensures DistinctIds(History(thread, steps).value) && |Markers(History(thread, steps).value)| <= 1
  {
    if steps != [] {
      NeverTwoMarkers(thread, steps[..|steps| - 1]);
      var before := History(thread, steps[..|steps| - 1]).value;
      match steps[|steps| - 1]
      case Attempt(body, actor, a) => AttemptKeepsSane(before, body, actor, a);
      case Outside(_) =>
    }
  }

  /** If a request could take effect after its failure was reported, two attempts could
      leave two markers: the first loses its answer and nothing happens, the second
      succeeds, and then the first request arrives. */
  lemma LateWriteDuplicates(body: string, actor: string, first: Answers, second: Answers)
    requires Admitted(body, first) && first.write == Lost(false)
    requires Admitted(body, second) && second.write.Acknowledged? && second.readback
    requires second.slot.url.Some? && second.slot.id > 0
    ensures Effect([], body, actor, first) == [] && Succeeds([], body, actor, second)
    ensures |Markers(Effect([], body, actor, second))| == 1
    ensures |Markers(Posted(Effect([], body, actor, second), body, actor, first.slot))| == 2
  {
    SuccessLeavesTarget([], body, actor, second);
    MarkerBodyMarks(body);
    PostedMarks(Effect([], body, actor, second), body, actor, first.slot);
  }

  lemma PostedMarks(thread: Thread, body: string, actor: string, slot: Comment)
    requires Occurs(MARKER, body)
    ensures Markers(Posted(thread, body, actor, slot)) == Markers(thread) + [slot.(owner := actor, body := body)]
  {
    var more := Posted(thread, body, actor, slot);
    assert more[..|thread|] == thread;
  }
}
