/** Permits for dirty workspaces: issued to a block, carried in contexts, revoked
    everywhere when the block ends. */
module DirtyPermits {
  import opened Options

  /** A permit record; its index is the permit's identity. `home` is the context of the
      block and `saved` what the context variable held before it. Bindings are
      compared by identity. */
  datatype Record = Record(binding: nat, active: bool, home: nat, saved: seq<nat>)

  /** All records, and the value of the context variable in each context. */
  datatype State = State(records: seq<Record>, contexts: seq<seq<nat>>)

  /** A block begins in a context; a block ends, perhaps in another context; a context
      is copied. */
  datatype Event = Enter(context: nat, binding: nat) | Exit(permit: nat, context: nat) | Copy(context: nat)

  const START := State([], [[]])

  /** A block ends once. */
  predicate Legal(s: State, e: Event) {
    && e.context < |s.contexts|
    && (e.Exit? ==> e.permit < |s.records| && s.records[e.permit].active)
  }

  function Step(s: State, e: Event): State
    requires Legal(s, e)
  {
    match e
    case Enter(c, binding) =>
      State(
        s.records + [Record(binding, true, c, s.contexts[c])],
        s.contexts[c := s.contexts[c] + [|s.records|]])
    case Exit(permit, c) =>
      var record := s.records[permit];
      State(
        s.records[permit := record.(active := false)],
        // a context variable can be reset only in the context that set it
        if c == record.home then s.contexts[c := record.saved] else s.contexts)
    case Copy(c) => s.(contexts := s.contexts + [s.contexts[c]])
  }

  /** The permit check in one context. */
  predicate Passes(s: State, c: nat, binding: nat, permit: Option<nat>)
    requires c < |s.contexts|
  {
    exists i :: 0 <= i < |s.contexts[c]| && Opens(s, s.contexts[c][i], binding, permit)
  }

  predicate Opens(s: State, k: nat, binding: nat, permit: Option<nat>) {
    k < |s.records| && s.records[k].active && permit == Some(k) && s.records[k].binding == binding
  }

  class Permits {
    var records: seq<Record>
    var contexts: seq<seq<nat>>

    constructor ()
      ensures Now() == START
    {
      records, contexts := [], [[]];
    }

    function Now(): State
      reads this
    {
      State(records, contexts)
    }

    method EnterBlock(c: nat, binding: nat) returns (permit: nat)
      requires Legal(Now(), Enter(c, binding))
      modifies this
      ensures Now() == Step(old(Now()), Enter(c, binding)) && permit == |old(records)|
    {
      permit := |records|;
      records := records + [Record(binding, true, c, contexts[c])];
      contexts := contexts[c := contexts[c] + [permit]];
    }

    method ExitBlock(permit: nat, c: nat)
      requires Legal(Now(), Exit(permit, c))
      modifies this
      ensures Now() == Step(old(Now()), Exit(permit, c))
      ensures forall d, binding :: 0 <= d < |contexts| ==> !Passes(Now(), d, binding, Some(permit))
    {
      var record := records[permit];
      records := records[permit := record.(active := false)];
      if c == record.home {
        contexts := contexts[c := record.saved];
      }
    }

    method CopyContext(c: nat) returns (copy: nat)
      requires Legal(Now(), Copy(c))
      modifies this
      ensures Now() == Step(old(Now()), Copy(c)) && copy == |old(contexts)|
    {
      copy := |contexts|;
      contexts := contexts + [contexts[c]];
    }

    method Perform(e: Event)
      requires Legal(Now(), e)
      modifies this
      ensures Now() == Step(old(Now()), e)
    {
      match e
      case Enter(c, binding) => var _ := EnterBlock(c, binding);
      case Exit(permit, c) => ExitBlock(permit, c);
      case Copy(c) => var _ := CopyContext(c);
    }

    /** Any sequence of blocks and copies leads to the state its history describes, so
        what is proved of histories holds of every sequence of calls. */
    method PerformAll(h: seq<Event>)
      requires Possible(h) && Now() == START
      modifies this
      ensures Now() == After(h)
    {
      for i := 0 to |h|
        invariant Possible(h[..i]) && Now() == After(h[..i])
      {
        PossibleBefore(h, i + 1);
        assert h[..i + 1][..i] == h[..i];
        Perform(h[i]);
      }
      assert h[..|h|] == h;
    }

    /** Only a binding of the second schema version needs a permit. */
    method Validate(c: nat, binding: nat, version: nat, permit: Option<nat>) returns (ok: bool)
      requires c < |contexts|
      ensures ok <==> version != 2 || Passes(Now(), c, binding, permit)
    {
      var held := false;
      for i := 0 to |contexts[c]|
        invariant held <==> exists j :: 0 <= j < i && Opens(Now(), contexts[c][j], binding, permit)
      {
        var k := contexts[c][i];
        held := held || (k < |records| && records[k].active && permit == Some(k) && records[k].binding == binding);
      }
      ok := version != 2 || held;
    }
  }

  // ---- histories ----

  predicate Possible(h: seq<Event>)
    decreases |h|, 0
  {
    h == [] || (Possible(h[..|h| - 1]) && Legal(After(h[..|h| - 1]), h[|h| - 1]))
  }

  function After(h: seq<Event>): State
    requires Possible(h)
    decreases |h|, 1
  {
    if h == [] then START else Step(After(h[..|h| - 1]), h[|h| - 1])
  }

  lemma {:induction false} PossibleBefore(h: seq<Event>, n: nat)
    requires Possible(h) && n <= |h|
    ensures Possible(h[..n])
    decreases |h|
  {
    if n < |h| {
      PossibleBefore(h[..|h| - 1], n);
      assert h[..|h| - 1][..n] == h[..n];
    } else {
      assert h[..n] == h;
    }
  }

  /** The blocks begun, in order. */
  function Begun(h: seq<Event>): (es: seq<Event>)
    ensures forall k :: 0 <= k < |es| ==> es[k].Enter?
  {
    if h == [] then []
    else Begun(h[..|h| - 1]) + if h[|h| - 1].Enter? then [h[|h| - 1]] else []
  }

  predicate Ended(h: seq<Event>, k: nat) {
    exists i :: 0 <= i < |h| && h[i].Exit? && h[i].permit == k
  }

  /** Block `k` has begun and not ended. */
  predicate Open(h: seq<Event>, k: nat) {
    k < |Begun(h)| && !Ended(h, k)
  }

  lemma EndedStep(h: seq<Event>, k: nat)
    requires h != []
    ensures
      var last := h[|h| - 1];
      Ended(h, k) <==> Ended(h[..|h| - 1], k) || (last.Exit? && last.permit == k)
  {
    var front := h[..|h| - 1];
    if i :| 0 <= i < |front| && front[i].Exit? && front[i].permit == k {
      assert h[i].Exit? && h[i].permit == k;
    }
    if i :| 0 <= i < |h| && h[i].Exit? && h[i].permit == k {
      assert i < |front| ==> front[i].Exit? && front[i].permit == k;
    }
  }

  /** Records follow the history: a record is active exactly while its block is open. */
  lemma {:induction false} RecordsFollow(h: seq<Event>)
    requires Possible(h)
    ensures |After(h).records| == |Begun(h)|
    ensures forall k :: 0 <= k < |Begun(h)| ==> Follows(After(h).records[k], h, k)
    ensures forall k: nat :: Ended(h, k) ==> k < |Begun(h)|
  {
    if h != [] {
      var front := h[..|h| - 1];
      RecordsFollow(front);
      forall k: nat ensures Ended(h, k) ==> k < |Begun(h)| {
        EndedStep(h, k);
      }
      forall k | 0 <= k < |Begun(h)| ensures Follows(After(h).records[k], h, k) {
        EndedStep(h, k);
        assert k < |Begun(front)| ==> Follows(After(front).records[k], front, k);
      }
    }
  }

  predicate Follows(r: Record, h: seq<Event>, k: nat)
    requires k < |Begun(h)|
  {
    var e := Begun(h)[k];
    r.binding == e.binding && r.home == e.context && (r.active <==> !Ended(h, k))
  }

  /** In every history the check passes only for an open block, in any context, and
      only for the binding that the block was begun with. */
  lemma PassesOnlyWhileOpen(h: seq<Event>, c: nat, binding: nat, permit: Option<nat>)
    requires Possible(h) && c < |After(h).contexts| && Passes(After(h), c, binding, permit)
    ensures permit.Some? && Open(h, permit.value)
    ensures Begun(h)[permit.value].binding == binding
  {
    RecordsFollow(h);
    var i :| 0 <= i < |After(h).contexts[c]| && Opens(After(h), After(h).contexts[c][i], binding, permit);
    assert Follows(After(h).records[permit.value], h, permit.value);
  }

  /** A permit whose block has ended is good nowhere, ever again. */
  lemma RevokedForGood(h: seq<Event>, n: nat, k: nat, c: nat, binding: nat)
    requires Possible(h) && n <= |h| && Ended(h[..n], k) && c < |After(h).contexts|
    ensures !Passes(After(h), c, binding, Some(k))
  {
    var i :| 0 <= i < n && h[..n][i].Exit? && h[..n][i].permit == k;
    assert h[i].Exit? && h[i].permit == k;
    if Passes(After(h), c, binding, Some(k)) {
      PassesOnlyWhileOpen(h, c, binding, Some(k));
    }
  }

  // ---- nested blocks ----

  /** Blocks of one context end there, the last begun first. */
  predicate EndsInOrder(s: State, e: Event)
    requires Legal(s, e)
  {
    e.Exit? ==>
      && s.records[e.permit].home == e.context
      && forall j :: e.permit < j < |s.records| && s.records[j].home == e.context ==> !s.records[j].active
  }

  predicate Nested(h: seq<Event>)
    requires Possible(h)
  {
    h == [] || (Nested(h[..|h| - 1]) && EndsInOrder(After(h[..|h| - 1]), h[|h| - 1]))
  }

  /** How many contexts there are. */
  function Contexts(h: seq<Event>): nat {
    if h == [] then 1 else Contexts(h[..|h| - 1]) + if h[|h| - 1].Copy? then 1 else 0
  }

  /** A history goes on with a block or a copy in a context that is there, or with the
      end of a block that is open. */
  lemma PossibleExactly(h: seq<Event>, e: Event)
    requires Possible(h)
    ensures |After(h).contexts| == Contexts(h)
    ensures Possible(h + [e]) <==> e.context < Contexts(h) && (e.Exit? ==> Open(h, e.permit))
  {
    assert (h + [e])[..|h|] == h;
    RecordsFollow(h);
    ContextsFollow(h);
    if e.Exit? && e.permit < |Begun(h)| {
      assert Follows(After(h).records[e.permit], h, e.permit);
    }
  }

  lemma {:induction false} ContextsFollow(h: seq<Event>)
    requires Possible(h)
    ensures |After(h).contexts| == Contexts(h)
  {
    if h != [] {
      ContextsFollow(h[..|h| - 1]);
    }
  }

  /** And it stays nested if a block ends in its own context, with no later block of that
      context open. */
  lemma NestedExactly(h: seq<Event>, e: Event)
    requires Possible(h) && Nested(h) && Possible(h + [e])
    ensures Nested(h + [e]) <==>
              (e.Exit? ==>
                 && e.permit < |Begun(h)| && Begun(h)[e.permit].context == e.context
                 && forall j :: e.permit < j < |Begun(h)| && Open(h, j) ==> Begun(h)[j].context != e.context)
  {
    assert (h + [e])[..|h|] == h;
    RecordsFollow(h);
    PossibleExactly(h, e);
    forall j | 0 <= j < |Begun(h)|
      ensures After(h).records[j].home == Begun(h)[j].context && (After(h).records[j].active <==> Open(h, j))
    {
      assert Follows(After(h).records[j], h, j);
    }
  }

  /** Context `c` is that of block `k`, or was copied, directly or not, from it after
      the block began. */
  predicate Sees(h: seq<Event>, c: nat, k: nat) {
    if h == [] then false
    else
      var front, last := h[..|h| - 1], h[|h| - 1];
      if last.Enter? && k == |Begun(front)| then c == last.context
      else if last.Copy? && c == Contexts(front) then Sees(front, last.context, k)
      else Sees(front, c, k)
  }

  /** An active block is on its context's stack, with only its own later blocks above. */
  ghost predicate Stacked(s: State) {
    && (forall c, i :: 0 <= c < |s.contexts| && 0 <= i < |s.contexts[c]| ==> s.contexts[c][i] < |s.records|)
    && (forall k :: 0 <= k < |s.records| && s.records[k].active ==> OnStack(s, k))
  }

  ghost predicate OnStack(s: State, k: nat)
    requires k < |s.records|
  {
    var r := s.records[k];
    && r.home < |s.contexts| && |r.saved| < |s.contexts[r.home]|
    && s.contexts[r.home][..|r.saved|] == r.saved && s.contexts[r.home][|r.saved|] == k
    && (forall i :: 0 <= i < |r.saved| ==> r.saved[i] < k)
    && forall p :: |r.saved| < p < |s.contexts[r.home]| ==> Upper(s, r.home, k, s.contexts[r.home][p])
  }

  predicate Upper(s: State, home: nat, k: nat, j: nat) {
    k < j < |s.records| && s.records[j].home == home && s.records[j].active
  }

  lemma ExitPops(s: State, k: nat)
    requires Stacked(s) && k < |s.records| && Legal(s, Exit(k, s.records[k].home))
    requires EndsInOrder(s, Exit(k, s.records[k].home))
    ensures s.contexts[s.records[k].home] == s.records[k].saved + [k]
  {
    var r := s.records[k];
    assert OnStack(s, k);
    var stack := s.contexts[r.home];
    assert |r.saved| + 1 < |stack| ==> Upper(s, r.home, k, stack[|r.saved| + 1]);
    assert stack == stack[..|r.saved|] + [k];
  }

  lemma ExitKeepsStacks(s: State, e: Event)
    requires Stacked(s) && Legal(s, e) && e.Exit? && EndsInOrder(s, e)
    ensures Stacked(Step(s, e))
  {
    var t := Step(s, e);
    var saved := s.records[e.permit].saved;
    ExitPops(s, e.permit);
    assert OnStack(s, e.permit) && t.contexts[e.context] == saved;
    forall k | 0 <= k < |t.records| && t.records[k].active ensures OnStack(t, k) {
      assert OnStack(s, k);
    }
  }

  lemma StepKeepsStacks(s: State, e: Event)
    requires Stacked(s) && Legal(s, e) && EndsInOrder(s, e)
    ensures Stacked(Step(s, e))
  {
    if e.Exit? {
      ExitKeepsStacks(s, e);
    } else {
      var t := Step(s, e);
      forall k | 0 <= k < |t.records| && t.records[k].active ensures OnStack(t, k) {
        assert k < |s.records| ==> OnStack(s, k);
      }
    }
  }

  /** Contexts hold exactly the open blocks they see. */
  ghost predicate HoldsSeen(s: State, h: seq<Event>) {
    forall c, k :: 0 <= c < |s.contexts| && 0 <= k < |s.records| && s.records[k].active ==>
      (k in s.contexts[c] <==> Sees(h, c, k))
  }

  lemma {:induction false} NestedFollows(h: seq<Event>)
    requires Possible(h) && Nested(h)
    ensures |After(h).contexts| == Contexts(h) && Stacked(After(h)) && HoldsSeen(After(h), h)
  {
    if h != [] {
      var front := h[..|h| - 1];
      NestedFollows(front);
      StepKeepsStacks(After(front), h[|h| - 1]);
      RecordsFollow(front);
      StepKeepsSeen(After(front), front, h[|h| - 1], h);
    }
  }

  lemma StepKeepsSeen(s: State, front: seq<Event>, e: Event, h: seq<Event>)
    requires h != [] && h[..|h| - 1] == front && h[|h| - 1] == e
    requires Legal(s, e) && EndsInOrder(s, e) && Stacked(s)
    requires |s.contexts| == Contexts(front) && |s.records| == |Begun(front)| && HoldsSeen(s, front)
    ensures HoldsSeen(Step(s, e), h)
  {
    if e.Exit? {
      ExitPops(s, e.permit);
    }
  }

  /** In a nested history the check passes exactly for the open blocks that the context
      sees, with the binding they were begun with. */
  lemma PassesExactly(h: seq<Event>, c: nat, binding: nat, permit: Option<nat>)
    requires Possible(h) && Nested(h) && c < Contexts(h)
    ensures c < |After(h).contexts|
    ensures Passes(After(h), c, binding, permit) <==>
              permit.Some? && Open(h, permit.value) && Sees(h, c, permit.value) && Begun(h)[permit.value].binding == binding
  {
    NestedFollows(h);
    RecordsFollow(h);
    if permit.Some? && permit.value < |Begun(h)| {
      assert Follows(After(h).records[permit.value], h, permit.value);
    }
  }
}
