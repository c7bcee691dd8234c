/** What one Codex isolation run may visibly do, as a small automaton.

    `SessionHost` proves that the host code only ever emits traces of this
    automaton, whatever its calls return. `ReceiptSystem` proves what follows
    when any number of such runs share one receipt store.
 */
module SessionProtocol {
  import opened Options

  /** Where a run is with respect to the two receipt files. */
  datatype Pc =
    | Fresh        // nothing done yet
    | Looked       // `.quarantine.json` was absent at the first look
    | Made         // `.active.json` was created exclusively
    | Retracting   // the second look found a quarantine; unlink comes next
    | Holding      // both looks passed: the run may prepare a guest
    | Clearing     // own receipt re-read and matched; unlink comes next
    | Marking      // own receipt re-read and matched; quarantine comes next
    | Marked       // `.quarantine.json` written; unlink comes next
    | Released     // receipt removed after a clean end
    | Quarantined  // receipt replaced by the quarantine receipt
    | Refused      // never held a receipt, or took its own back
    | Stuck        // ended with its own `.active.json` left in place

  /** What the host knows about the guest that prepare was asked for. */
  datatype Guest = Absent | Pending | Up | Destroying | Gone

  /** `auth`: a transient authentication file may be on disk.
      `exposed`: authentication was issued and retained state is not validated.
      `profile`: a populated private profile is on disk.
      `stray`: a profile is on disk whose population failed, and its discard too; the
      host does not know of it any more. */
  datatype Run = Run(pc: Pc, guest: Guest, auth: bool, exposed: bool, profile: bool, stray: bool)

  const START := Run(Fresh, Absent, false, false, false, false)

  /** Creating the receipt. */
  datatype Acquiring =
    | LookAbsent | LookPresent | LookFailed
    | CreateOk | CreateFailed | WriteFailed
    | RelookAbsent | RelookPresent | Retracted | RetractFailed

  datatype GuestCall = PrepareStarted | PrepareRaised | GuestArrived | DestroyStarted | DestroyProved

  /** What the host puts on disk and takes away again. */
  datatype Disk =
    | Populated | PopulationStuck | ProfileDiscarded
    | AuthIssued | AuthPartial | AuthRemoved
    | StateValidated | RolloutExported

  /** Giving the receipt up, or leaving it. */
  datatype Ending =
    | ClearVerified | Unlinked
    | QuarantineVerified | QuarantineCreated | QuarantineUnlinked
    | LeftBehind

  datatype Event = Acquire(a: Acquiring) | OnGuest(g: GuestCall) | OnDisk(d: Disk) | Finish(f: Ending)

  /** No guest, no authentication, and nothing that either of them touched. A stray
      profile never saw authentication. */
  predicate Safe(r: Run) {
    (r.guest == Absent || r.guest == Gone) && !r.auth && !r.exposed && !r.profile
  }

  /** Nothing is left behind at all. */
  predicate Spotless(r: Run) {
    Safe(r) && !r.stray
  }

  /** The run's own `.active.json` is on disk. */
  predicate Owns(pc: Pc) {
    pc == Made || pc == Retracting || pc == Holding || pc == Clearing
    || pc == Marking || pc == Marked || pc == Stuck
  }

  function Allow(ok: bool, r: Run): Option<Run> {
    if ok then Some(r) else None
  }

  function AcquireStep(r: Run, a: Acquiring): Option<Run> {
    match a
    case LookAbsent => Allow(r.pc == Fresh, r.(pc := Looked))
    case LookPresent => Allow(r.pc == Fresh, r.(pc := Refused))
    case LookFailed => Allow(r.pc == Fresh, r.(pc := Refused))
    case CreateOk => Allow(r.pc == Looked, r.(pc := Made))
    case CreateFailed => Allow(r.pc == Looked, r.(pc := Refused))
    case WriteFailed => Allow(r.pc == Made, r.(pc := Stuck))
    case RelookAbsent => Allow(r.pc == Made, r.(pc := Holding))
    case RelookPresent => Allow(r.pc == Made, r.(pc := Retracting))
    case Retracted => Allow(r.pc == Retracting, r.(pc := Refused))
    case RetractFailed => Allow(r.pc == Retracting, r.(pc := Stuck))
  }

  function GuestStep(r: Run, g: GuestCall): Option<Run> {
    match g
    case PrepareStarted => Allow(r.guest == Absent && Safe(r), r.(guest := Pending))
    case PrepareRaised => Allow(r.guest == Pending, r.(guest := Absent))
    case GuestArrived => Allow(r.guest == Pending, r.(guest := Up))
    case DestroyStarted => Allow(r.guest == Up, r.(guest := Destroying))
    case DestroyProved => Allow(r.guest == Destroying, r.(guest := Gone))
  }

  function DiskStep(r: Run, d: Disk): Option<Run> {
    match d
    case Populated => Allow(r.guest == Up && !r.profile && !r.auth, r.(profile := true))
    case PopulationStuck => Allow(r.guest == Up && !r.profile && !r.auth, r.(stray := true))
    case ProfileDiscarded => Allow(r.guest == Gone, r.(profile := false))
    case AuthIssued => Allow(r.guest == Up && r.profile, r.(auth := true, exposed := true))
    case AuthPartial => Allow(r.guest == Up && r.profile, r.(auth := true))
    case AuthRemoved => Some(r.(auth := false))
    case StateValidated => Allow(r.guest == Gone && r.profile, r.(exposed := false))
    case RolloutExported => Allow(r.guest == Gone && !r.auth && !r.exposed && r.profile, r)
  }

  function FinishStep(r: Run, f: Ending): Option<Run> {
    match f
    case ClearVerified => Allow(r.pc == Holding && Safe(r), r.(pc := Clearing))
    case Unlinked => Allow(r.pc == Clearing, r.(pc := Released))
    case QuarantineVerified => Allow(r.pc == Holding && r.guest == Gone, r.(pc := Marking))
    case QuarantineCreated => Allow(r.pc == Marking, r.(pc := Marked))
    case QuarantineUnlinked => Allow(r.pc == Marked, r.(pc := Quarantined))
    case LeftBehind =>
      Allow(r.pc == Holding || r.pc == Clearing || r.pc == Marking || r.pc == Marked, r.(pc := Stuck))
  }

  /** The run after `e`, or `None` when the protocol forbids `e` here. The guest
      and the disk are touched only by a run that holds the receipt. */
  function Step(r: Run, e: Event): Option<Run> {
    match e
    case Acquire(a) => AcquireStep(r, a)
    case OnGuest(g) => if r.pc == Holding then GuestStep(r, g) else None
    case OnDisk(d) => if r.pc == Holding then DiskStep(r, d) else None
    case Finish(f) => FinishStep(r, f)
  }

  /** What a run did so far, oldest first. */
  datatype Trace = Nothing | Then(before: Trace, event: Event)

  /** The run after a whole trace. */
  function Replay(t: Trace): Option<Run> {
    match t
    case Nothing => Some(START)
    case Then(before, e) =>
      match Replay(before)
      case None => None
      case Some(r) => Step(r, e)
  }

  function Count(t: Trace, e: Event): nat {
    match t
    case Nothing => 0
    case Then(before, last) => Count(before, e) + (if last == e then 1 else 0)
  }

  /** `t` begins with `p`. */
  predicate BeginsWith(t: Trace, p: Trace) {
    t == p || (t.Then? && BeginsWith(t.before, p))
  }

  lemma BeginsWithExactly(t: Trace, p: Trace, e: Event)
    ensures BeginsWith(t, t) && (BeginsWith(Then(t, e), p) <==> p == Then(t, e) || BeginsWith(t, p))
  {
  }

  /** Every `on` of the trace has an `off` after it. */
  predicate Undone(t: Trace, on: Event, off: Event) {
    match t
    case Nothing => true
    case Then(before, last) => last == off || (last != on && Undone(before, on, off))
  }

  /** What the store-independent part of a run's state always satisfies. */
  predicate Consistent(r: Run) {
    && ((r.pc == Fresh || r.pc == Looked || r.pc == Made || r.pc == Retracting || r.pc == Refused) ==>
          r.guest == Absent && Safe(r))
    && ((r.pc == Clearing || r.pc == Released) ==> Safe(r))
    && ((r.pc == Marking || r.pc == Marked || r.pc == Quarantined) ==> r.guest == Gone)
    && ((r.guest == Absent || r.guest == Pending) ==> !r.auth && !r.exposed && !r.profile && !r.stray)
  }

  lemma AcquireConsistent(r: Run, a: Acquiring)
    requires Consistent(r) && AcquireStep(r, a).Some?
    ensures Consistent(AcquireStep(r, a).value)
  {
  }

  lemma GuestConsistent(r: Run, g: GuestCall)
    requires Consistent(r) && r.pc == Holding && GuestStep(r, g).Some?
    ensures Consistent(GuestStep(r, g).value)
  {
  }

  lemma DiskConsistent(r: Run, d: Disk)
    requires Consistent(r) && r.pc == Holding && DiskStep(r, d).Some?
    ensures Consistent(DiskStep(r, d).value)
  {
  }

  lemma FinishConsistent(r: Run, f: Ending)
    requires Consistent(r) && FinishStep(r, f).Some?
    ensures Consistent(FinishStep(r, f).value)
  {
  }

  lemma StepConsistent(r: Run, e: Event)
    requires Consistent(r) && Step(r, e).Some?
    ensures Consistent(Step(r, e).value)
  {
    match e
    case Acquire(a) => AcquireConsistent(r, a);
    case OnGuest(g) => GuestConsistent(r, g);
    case OnDisk(d) => DiskConsistent(r, d);
    case Finish(f) => FinishConsistent(r, f);
  }

  lemma {:induction false} ReplayConsistent(t: Trace)
    requires Replay(t).Some?
    ensures Consistent(Replay(t).value)
  {
    if t.Then? {
      ReplayConsistent(t.before);
      StepConsistent(Replay(t.before).value, t.event);
    }
  }

  lemma EventsKeepTheRest(r: Run, e: Event)
    requires Step(r, e).Some?
    ensures !e.OnGuest? ==> Step(r, e).value.guest == r.guest
    ensures !e.OnDisk? ==>
              && Step(r, e).value.auth == r.auth
              && Step(r, e).value.exposed == r.exposed
              && Step(r, e).value.profile == r.profile
              && Step(r, e).value.stray == r.stray
  {
  }

  /** How often call `c` was made for a guest that is now `g`. */
  function Calls(g: Guest, c: GuestCall): nat
    requires c == GuestArrived || c == DestroyStarted || c == DestroyProved
  {
    match c
    case GuestArrived => if g == Up || g == Destroying || g == Gone then 1 else 0
    case DestroyStarted => if g == Destroying || g == Gone then 1 else 0
    case DestroyProved => if g == Gone then 1 else 0
  }

  lemma StepCalls(r: Run, e: Event, c: GuestCall)
    requires c == GuestArrived || c == DestroyStarted || c == DestroyProved
    requires Step(r, e).Some?
    ensures Calls(Step(r, e).value.guest, c) == Calls(r.guest, c) + if e == OnGuest(c) then 1 else 0
  {
    if !e.OnGuest? {
      EventsKeepTheRest(r, e);
    }
  }

  /** A guest that arrived is asked to be destroyed at most once, and never
      before it arrived; the run's `guest` field says exactly how often. */
  lemma {:induction false} DestroyCount(t: Trace)
    requires Replay(t).Some?
    ensures
      var g := Replay(t).value.guest;
      && Count(t, OnGuest(DestroyStarted)) == (if g == Destroying || g == Gone then 1 else 0)
      && Count(t, OnGuest(GuestArrived)) == (if g == Up || g == Destroying || g == Gone then 1 else 0)
      && Count(t, OnGuest(DestroyProved)) == (if g == Gone then 1 else 0)
  {
    if t.Then? {
      var before := Replay(t.before).value;
      DestroyCount(t.before);
      StepCalls(before, t.event, DestroyStarted);
      StepCalls(before, t.event, GuestArrived);
      StepCalls(before, t.event, DestroyProved);
    }
  }

  lemma {:induction false} ReplayBeginning(t: Trace, p: Trace)
    requires Replay(t).Some? && BeginsWith(t, p)
    ensures Replay(p).Some?
  {
    if t != p {
      ReplayBeginning(t.before, p);
    }
  }

  /** Authentication on disk, whole or partial, was removed again. */
  predicate AuthUndone(t: Trace) {
    && Undone(t, OnDisk(AuthIssued), OnDisk(AuthRemoved))
    && Undone(t, OnDisk(AuthPartial), OnDisk(AuthRemoved))
  }

  /** The flags are down exactly when what raised them was undone. */
  lemma {:induction false} ExposureEnds(t: Trace)
    requires Replay(t).Some?
    ensures !Replay(t).value.exposed <==> Undone(t, OnDisk(AuthIssued), OnDisk(StateValidated))
    ensures !Replay(t).value.auth <==> AuthUndone(t)
    ensures !Replay(t).value.profile <==> Undone(t, OnDisk(Populated), OnDisk(ProfileDiscarded))
    ensures !Replay(t).value.stray <==> Count(t, OnDisk(PopulationStuck)) == 0
  {
    if t.Then? {
      ExposureEnds(t.before);
      if !t.event.OnDisk? {
        EventsKeepTheRest(Replay(t.before).value, t.event);
      }
    }
  }

  /** The order of what happens on disk. A profile is populated and authentication issued
      while the guest lives; state is validated, a rollout exported and the profile
      discarded after its proved end. Authentication, validation and export need a
      populated profile, and populating needs that neither is there. */
  lemma DiskInOrder(t: Trace, p: Trace, d: Disk)
    requires Replay(t).Some? && BeginsWith(t, Then(p, OnDisk(d)))
    ensures d in {Populated, PopulationStuck, AuthIssued, AuthPartial} ==>
              Count(p, OnGuest(GuestArrived)) == 1 && Count(p, OnGuest(DestroyStarted)) == 0
    ensures d in {ProfileDiscarded, StateValidated, RolloutExported} ==> Count(p, OnGuest(DestroyProved)) == 1
    ensures d in {AuthIssued, AuthPartial, StateValidated, RolloutExported} ==>
              !Undone(p, OnDisk(Populated), OnDisk(ProfileDiscarded))
    ensures d in {Populated, PopulationStuck} ==>
              Undone(p, OnDisk(Populated), OnDisk(ProfileDiscarded)) && AuthUndone(p)
  {
    ReplayBeginning(t, Then(p, OnDisk(d)));
    DestroyCount(p);
    ExposureEnds(p);
  }

  /** Every export comes after the proof of destruction, and after the removal of
      the authentication and the validation of the state it exposed. */
  lemma ExportComesLast(t: Trace, p: Trace)
    requires Replay(t).Some? && BeginsWith(t, Then(p, OnDisk(RolloutExported)))
    ensures Count(p, OnGuest(DestroyProved)) == 1
    ensures AuthUndone(p) && Undone(p, OnDisk(AuthIssued), OnDisk(StateValidated))
  {
    ReplayBeginning(t, Then(p, OnDisk(RolloutExported)));
    DestroyCount(p);
    ExposureEnds(p);
  }

  /** A run whose receipt was removed: the guest never arrived or its destruction was
      proved, and what was put on disk was undone. Only a profile whose population
      failed and could not be undone either may be left. */
  lemma ReleasedLeavesNothing(t: Trace)
    requires Replay(t).Some? && Replay(t).value.pc == Released
    ensures Count(t, OnGuest(GuestArrived)) == Count(t, OnGuest(DestroyStarted)) == Count(t, OnGuest(DestroyProved))
    ensures AuthUndone(t) && Undone(t, OnDisk(AuthIssued), OnDisk(StateValidated))
    ensures Undone(t, OnDisk(Populated), OnDisk(ProfileDiscarded))
    ensures Spotless(Replay(t).value) <==> Count(t, OnDisk(PopulationStuck)) == 0
  {
    ReplayConsistent(t);
    DestroyCount(t);
    ExposureEnds(t);
  }
}
