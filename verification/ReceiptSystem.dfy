/** Any number of isolation runs sharing one receipt store.

    Each run follows `SessionProtocol`; the store holds `.active.json` (with its
    creator) and `.quarantine.json`. A crash is a run that takes no further
    step, so every statement about all executions covers crashes at any point.
 */
module ReceiptSystem {
  import opened Options
  import opened SessionProtocol

  type RunId = int

  datatype Store = Store(active: Option<RunId>, quarantine: bool)

  /** Runs that are not in `runs` have not begun. */
  datatype System = System(store: Store, runs: map<RunId, Run>)

  const INITIAL := System(Store(None, false), map[])

  function RunOf(s: System, id: RunId): Run {
    if id in s.runs then s.runs[id] else START
  }

  /** What an event of run `id` finds and does in the store. Unlinking goes by
      name: it removes whatever `.active.json` is there. */
  function StoreStep(f: Store, id: RunId, e: Event): Option<Store> {
    match e
    case Acquire(LookAbsent) => if f.quarantine then None else Some(f)
    case Acquire(LookPresent) => if f.quarantine then Some(f) else None
    case Acquire(CreateOk) => if f.active.None? then Some(f.(active := Some(id))) else None
    case Acquire(RelookAbsent) => if f.quarantine then None else Some(f)
    case Acquire(RelookPresent) => if f.quarantine then Some(f) else None
    case Acquire(Retracted) => if f.active.Some? then Some(f.(active := None)) else None
    case Finish(ClearVerified) => if f.active == Some(id) then Some(f) else None
    case Finish(Unlinked) => if f.active.Some? then Some(f.(active := None)) else None
    case Finish(QuarantineVerified) => if f.active == Some(id) then Some(f) else None
    case Finish(QuarantineCreated) => if f.quarantine then None else Some(f.(quarantine := true))
    case Finish(QuarantineUnlinked) => if f.active.Some? then Some(f.(active := None)) else None
    case _ => Some(f)
  }

  datatype Label = Label(id: RunId, event: Event)

  function Next(s: System, l: Label): Option<System> {
    match (Step(RunOf(s, l.id), l.event), StoreStep(s.store, l.id, l.event))
    case (Some(r), Some(f)) => Some(System(f, s.runs[l.id := r]))
    case _ => None
  }

  /** The system after an interleaving, or `None` if it is not one. */
  function Execute(s: System, labels: seq<Label>): Option<System> {
    if labels == [] then Some(s)
    else match Execute(s, labels[..|labels| - 1])
      case None => None
      case Some(before) => Next(before, labels[|labels| - 1])
  }

  /** What the store says about run `id`, and what it says about the store. */
  predicate Fits(r: Run, f: Store, id: RunId) {
    && Consistent(r)
    && (Owns(r.pc) <==> f.active == Some(id))
    && (r.pc == Holding || r.pc == Clearing || r.pc == Marking ==> !f.quarantine)
    && (r.pc == Marked || r.pc == Quarantined ==> f.quarantine)
  }

  ghost predicate Invariant(s: System) {
    forall id :: Fits(RunOf(s, id), s.store, id)
  }

  lemma ActingRunFits(r: Run, f: Store, id: RunId, e: Event)
    requires Fits(r, f, id) && Step(r, e).Some? && StoreStep(f, id, e).Some?
    ensures Fits(Step(r, e).value, StoreStep(f, id, e).value, id)
  {
    StepConsistent(r, e);
  }

  lemma OtherRunFits(r: Run, f: Store, id: RunId, acting: Run, actor: RunId, e: Event)
    requires id != actor && Fits(r, f, id) && Fits(acting, f, actor)
    requires Step(acting, e).Some? && StoreStep(f, actor, e).Some?
    ensures Fits(r, StoreStep(f, actor, e).value, id)
  {
  }

  lemma NextKeepsInvariant(s: System, l: Label)
    requires Invariant(s) && Next(s, l).Some?
    ensures Invariant(Next(s, l).value)
  {
    var t := Next(s, l).value;
    forall id ensures Fits(RunOf(t, id), t.store, id) {
      if id == l.id {
        ActingRunFits(RunOf(s, id), s.store, id, l.event);
      } else {
        assert RunOf(t, id) == RunOf(s, id);
        OtherRunFits(RunOf(s, id), s.store, id, RunOf(s, l.id), l.id, l.event);
      }
    }
  }

  lemma {:induction false} ExecutionKeepsInvariant(s: System, labels: seq<Label>)
    requires Invariant(s) && Execute(s, labels).Some?
    ensures Invariant(Execute(s, labels).value)
  {
    if labels != [] {
      ExecutionKeepsInvariant(s, labels[..|labels| - 1]);
      NextKeepsInvariant(Execute(s, labels[..|labels| - 1]).value, labels[|labels| - 1]);
    }
  }

  lemma Reachable(labels: seq<Label>) returns (s: System)
    requires Execute(INITIAL, labels).Some?
    ensures s == Execute(INITIAL, labels).value && Invariant(s)
  {
    s := Execute(INITIAL, labels).value;
    assert forall id :: RunOf(INITIAL, id) == START;
    ExecutionKeepsInvariant(INITIAL, labels);
  }

  /** At most one run owns a receipt, in every interleaving, and it is the run
      recorded in `.active.json`; so at most one guest can be alive. */
  lemma MutualExclusion(labels: seq<Label>, a: RunId, b: RunId)
    requires Execute(INITIAL, labels).Some?
    ensures
      var s := Execute(INITIAL, labels).value;
      && (Owns(RunOf(s, a).pc) && Owns(RunOf(s, b).pc) ==> a == b)
      && (RunOf(s, a).guest != Absent && RunOf(s, a).guest != Gone ==> s.store.active == Some(a))
      && (!Safe(RunOf(s, a)) && !Safe(RunOf(s, b)) && !s.store.quarantine ==> a == b)
  {
    var s := Reachable(labels);
    assert Fits(RunOf(s, a), s.store, a);
    assert Fits(RunOf(s, b), s.store, b);
  }

  /** When a run starts preparing, no quarantine exists, it owns the receipt, and
      no other run has left a guest, authentication, unvalidated state or a
      profile behind, other than a stray one. */
  lemma PrepareStartsClean(labels: seq<Label>, id: RunId)
    requires Execute(INITIAL, labels).Some?
    requires Next(Execute(INITIAL, labels).value, Label(id, OnGuest(PrepareStarted))).Some?
    ensures
      var s := Execute(INITIAL, labels).value;
      && !s.store.quarantine
      && s.store.active == Some(id)
      && forall other :: other != id ==> LeftSafe(labels, other)
  {
    var s := Reachable(labels);
    assert Fits(RunOf(s, id), s.store, id);
    forall other | other != id ensures LeftSafe(labels, other) {
      assert Fits(RunOf(s, other), s.store, other);
      StrayByProjection(labels, other);
    }
  }

  /** A store with neither receipt is one where no run left a guest, authentication,
      unvalidated state or a profile, other than a stray one. */
  lemma FreeStoreIsClean(labels: seq<Label>)
    requires Execute(INITIAL, labels).Some?
    requires Execute(INITIAL, labels).value.store == Store(None, false)
    ensures forall id :: LeftSafe(labels, id)
  {
    var s := Reachable(labels);
    forall id ensures LeftSafe(labels, id) {
      assert Fits(RunOf(s, id), s.store, id);
      StrayByProjection(labels, id);
    }
  }

  /** The run is safe, and spotless exactly if it did not fail to undo a population. */
  ghost predicate LeftSafe(labels: seq<Label>, id: RunId)
    requires Execute(INITIAL, labels).Some?
  {
    var r := RunOf(Execute(INITIAL, labels).value, id);
    Safe(r) && (Spotless(r) <==> Count(Project(labels, id), OnDisk(PopulationStuck)) == 0)
  }

  lemma StrayByProjection(labels: seq<Label>, id: RunId)
    requires Execute(INITIAL, labels).Some?
    ensures
      var r := RunOf(Execute(INITIAL, labels).value, id);
      !r.stray <==> Count(Project(labels, id), OnDisk(PopulationStuck)) == 0
  {
    ProjectionReplays(labels, id);
    ExposureEnds(Project(labels, id));
  }

  /** Once `.quarantine.json` exists it stays, and from then on no run is past the second
      look and none prepares a guest: not one that looked before the quarantine was
      written, either. */
  lemma {:induction false} QuarantineIsFinal(labels: seq<Label>, more: seq<Label>, k: nat)
    requires Execute(INITIAL, labels).Some? && Execute(INITIAL, labels).value.store.quarantine
    requires Execute(Execute(INITIAL, labels).value, more).Some?
    ensures
      var t := Execute(Execute(INITIAL, labels).value, more).value;
      t.store.quarantine && forall id :: RunOf(t, id).pc != Holding
    ensures k < |more| ==> more[k].event != OnGuest(PrepareStarted)
  {
    var s := Reachable(labels);
    var t := Execute(s, more).value;
    ExecutionKeepsInvariant(s, more);
    assert t.store.quarantine by { QuarantineStays(s, more); }
    forall id ensures RunOf(t, id).pc != Holding {
      assert Fits(RunOf(t, id), t.store, id);
    }
    if k < |more| {
      ExecutePrefix(s, more, k);
      ExecutePrefix(s, more, k + 1);
      assert more[..k + 1][..k] == more[..k];
      QuarantineStays(s, more[..k]);
      ExecutionKeepsInvariant(s, more[..k]);
      var at := Execute(s, more[..k]).value;
      assert Fits(RunOf(at, more[k].id), at.store, more[k].id);
    }
  }

  lemma {:induction false} QuarantineStays(s: System, more: seq<Label>)
    requires s.store.quarantine && Execute(s, more).Some?
    ensures Execute(s, more).value.store.quarantine
  {
    if more != [] {
      QuarantineStays(s, more[..|more| - 1]);
    }
  }

  lemma {:induction false} ExecutePrefix(s: System, more: seq<Label>, n: nat)
    requires n <= |more| && Execute(s, more).Some?
    ensures Execute(s, more[..n]).Some?
  {
    if n < |more| {
      ExecutePrefix(s, more[..|more| - 1], n);
      assert more[..|more| - 1][..n] == more[..n];
    } else {
      assert more[..n] == more;
    }
  }

  /** A run that stops while it owns the receipt (crash, hang, or an end that
      left the receipt) keeps the store locked: whatever the others do, the
      receipt stays its own and no other run ever gets past creation. */
  lemma {:induction false} StoppedOwnerLocksStore(s: System, more: seq<Label>, owner: RunId)
    requires Invariant(s) && Owns(RunOf(s, owner).pc)
    requires Execute(s, more).Some?
    requires forall k :: 0 <= k < |more| ==> more[k].id != owner
    ensures
      var t := Execute(s, more).value;
      && t.store.active == Some(owner)
      && RunOf(t, owner) == RunOf(s, owner)
      && forall id :: id != owner ==> !Owns(RunOf(t, id).pc)
  {
    var t := Execute(s, more).value;
    if more == [] {
      assert Fits(RunOf(s, owner), s.store, owner);
    } else {
      var n := |more| - 1;
      StoppedOwnerLocksStore(s, more[..n], owner);
      assert RunOf(t, owner) == RunOf(Execute(s, more[..n]).value, owner);
    }
    ExecutionKeepsInvariant(s, more);
    forall id | id != owner ensures !Owns(RunOf(t, id).pc) {
      assert Fits(RunOf(t, owner), t.store, owner);
      assert Fits(RunOf(t, id), t.store, id);
    }
  }

  /** The name-based unlinks only ever remove the unlinking run's own receipt,
      and the identity check before them never fails for its owner. */
  lemma UnlinkRemovesOwnReceipt(labels: seq<Label>, id: RunId, e: Event)
    requires Execute(INITIAL, labels).Some?
    requires e in {Acquire(Retracted), Finish(ClearVerified), Finish(Unlinked), Finish(QuarantineVerified), Finish(QuarantineUnlinked)}
    requires Step(RunOf(Execute(INITIAL, labels).value, id), e).Some?
    ensures
      var s := Execute(INITIAL, labels).value;
      s.store.active == Some(id) && Next(s, Label(id, e)).Some?
    ensures
      var after := Next(Execute(INITIAL, labels).value, Label(id, e)).value.store;
      && (e == Finish(Unlinked) ==> after == Store(None, false))
      && (e == Finish(QuarantineUnlinked) ==> after == Store(None, true))
  {
    var s := Reachable(labels);
    assert Fits(RunOf(s, id), s.store, id);
  }

  /** A look finds exactly what is there, an exclusive create succeeds exactly if there
      is no receipt, and creating the quarantine never meets one. */
  lemma LooksTell(labels: seq<Label>, id: RunId)
    requires Execute(INITIAL, labels).Some?
    ensures
      var s := Execute(INITIAL, labels).value;
      var pc := RunOf(s, id).pc;
      && (pc == Fresh ==>
            && (Next(s, Label(id, Acquire(LookPresent))).Some? <==> s.store.quarantine)
            && (Next(s, Label(id, Acquire(LookAbsent))).Some? <==> !s.store.quarantine))
      && (pc == Looked ==> (Next(s, Label(id, Acquire(CreateOk))).Some? <==> s.store.active.None?))
      && (pc == Made ==>
            && (Next(s, Label(id, Acquire(RelookPresent))).Some? <==> s.store.quarantine)
            && (Next(s, Label(id, Acquire(RelookAbsent))).Some? <==> !s.store.quarantine))
      && (pc == Marking ==> Next(s, Label(id, Finish(QuarantineCreated))).Some?)
  {
    var s := Reachable(labels);
    assert Fits(RunOf(s, id), s.store, id);
  }

  /** What run `id` did in an interleaving. */
  function Project(labels: seq<Label>, id: RunId): Trace {
    if labels == [] then Nothing
    else
      var before := Project(labels[..|labels| - 1], id);
      var last := labels[|labels| - 1];
      if last.id == id then Then(before, last.event) else before
  }

  /** Each run's own events form a trace of the protocol that ends in its state,
      so what `SessionProtocol` proves of traces holds of every run here. */
  lemma {:induction false} ProjectionReplays(labels: seq<Label>, id: RunId)
    requires Execute(INITIAL, labels).Some?
    ensures Replay(Project(labels, id)) == Some(RunOf(Execute(INITIAL, labels).value, id))
  {
    if labels != [] {
      ProjectionReplays(labels[..|labels| - 1], id);
    }
  }

  lemma Extend(labels: seq<Label>, l: Label)
    requires Execute(INITIAL, labels).Some?
    ensures Execute(INITIAL, labels + [l]) == Next(Execute(INITIAL, labels).value, l)
  {
    assert (labels + [l])[..|labels|] == labels;
  }

  /** Run 0 alone, until its guest is destroyed with everything else still there. */
  lemma ExposedRun() returns (labels: seq<Label>)
    ensures Execute(INITIAL, labels).Some?
    ensures
      var s := Execute(INITIAL, labels).value;
      s.store == Store(Some(0), false) && RunOf(s, 1) == START && RunOf(s, 0) == RunAfter(9)
  {
    var setUp := [Acquire(LookAbsent), Acquire(CreateOk), Acquire(RelookAbsent),
                  OnGuest(PrepareStarted), OnGuest(GuestArrived), OnDisk(Populated), OnDisk(AuthIssued),
                  OnGuest(DestroyStarted), OnGuest(DestroyProved)];
    labels := [];
    var s := INITIAL;
    for k := 0 to |setUp|
      invariant Execute(INITIAL, labels) == Some(s)
      invariant s.store == Store(if k < 2 then None else Some(0), false)
      invariant RunOf(s, 1) == START
      invariant RunOf(s, 0) == RunAfter(k)
    {
      Extend(labels, Label(0, setUp[k]));
      labels := labels + [Label(0, setUp[k])];
      s := Next(s, Label(0, setUp[k])).value;
    }
  }

  /** Why the second look is needed: a run can pass the first look and the
      exclusive create although another run left exposed state in quarantine. */
  lemma FirstLookIsNotEnough() returns (labels: seq<Label>)
    ensures Execute(INITIAL, labels).Some?
    ensures
      var s := Execute(INITIAL, labels).value;
      s.store.quarantine && RunOf(s, 1).pc == Made && RunOf(s, 0).exposed && RunOf(s, 0).auth
  {
    labels := ExposedRun();
    var s := Execute(INITIAL, labels).value;
    var rest := [Label(1, Acquire(LookAbsent)), Label(0, Finish(QuarantineVerified)),
                 Label(0, Finish(QuarantineCreated)), Label(0, Finish(QuarantineUnlinked)),
                 Label(1, Acquire(CreateOk))];
    for k := 0 to |rest|
      invariant Execute(INITIAL, labels) == Some(s)
      invariant s.store == Store(if k < 4 then Some(0) else if k < 5 then None else Some(1), k >= 3)
      invariant RunOf(s, 1) == START.(pc := if k < 1 then Fresh else if k < 5 then Looked else Made)
      invariant RunOf(s, 0) == RunAfter(9).(pc := [Holding, Holding, Marking, Marked, Quarantined, Quarantined][k])
    {
      Extend(labels, rest[k]);
      labels := labels + [rest[k]];
      s := Next(s, rest[k]).value;
    }
  }

  function RunAfter(k: nat): Run
    requires k <= 9
  {
    Run([Fresh, Looked, Made, Holding, Holding, Holding, Holding, Holding, Holding, Holding][k],
        [Absent, Absent, Absent, Absent, Pending, Up, Up, Up, Destroying, Gone][k],
        k >= 7, k >= 7, k >= 6, false)
  }
}
