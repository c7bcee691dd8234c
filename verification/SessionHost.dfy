/** The host side of one admitted Codex implementation session.

    `Host.RunAdmittedSession` follows the host code statement by statement: receipt,
    prepare, the `try` body, the `finally` block. Every fallible call is answered
    by an `Oracle`, so each postcondition holds for every combination of failures,
    hangs and late returns. Visible actions go through `Emit`, whose precondition
    is that `SessionProtocol` allows them.
 */
module SessionHost {
  import opened Options
  import opened SessionProtocol

  datatype Code = Timeout | Uncertain | LaunchFailed | Mismatch | InitFailed | ResultInvalid | Other

  datatype Outcome = Returned(session: string) | EffortRetry | Failed(code: Code)

  datatype Graces = Graces(term: real, kill: real, pipe: real, quiescence: real)

  /** The policy record only admits positive graces. */
  type Policy = p: Graces | p.term > 0.0 && p.kill > 0.0 && p.pipe > 0.0 && p.quiescence > 0.0
    witness Graces(1.0, 1.0, 1.0, 1.0)

  /** `effort`: the command line sets a reasoning effort. */
  datatype Request = Request(deadline: real, policy: Policy, expected: Option<string>, effort: bool)

  function CleanupBudget(p: Policy): real {
    p.term + p.kill + p.pipe + 2.0 * p.quiescence
  }

  /** The deadline of one cleanup control that starts at `now`. */
  function ControlDeadline(q: Request, now: real): (d: real)
    ensures d <= q.deadline + CleanupBudget(q.policy) && d <= now + CleanupBudget(q.policy)
    ensures d == q.deadline + CleanupBudget(q.policy) || d == now + CleanupBudget(q.policy)
  {
    if q.deadline < now then q.deadline + CleanupBudget(q.policy) else now + CleanupBudget(q.policy)
  }

  // ---- what the calls of one session answer ----

  datatype DestroyEnd = DestroyHung | DestroyRaised | DestroyReturnedValue | DestroyReturned(at: real)

  /** `started`, `observed`: clock readings around the destroy call. */
  datatype DestroyCall = DestroyCall(started: real, end: DestroyEnd, observed: real)

  /** `code`: that of an error of the isolation layer, which is raised as it is. */
  datatype PrepareEnd =
    | Raises(code: Option<Code>)
    | RaisesCleanup(claimable: bool, cleanup: DestroyEnd)
    | YieldsGuest(valid: bool, returnedAt: real)

  datatype PrepareCall = OnTime(end: PrepareEnd) | Late(end: PrepareEnd) | Hung

  datatype CreateCalls = CreateCalls(storeOk: bool, quarantined: bool, created: bool, written: bool,
                                     requarantined: bool, retracted: bool, durable: bool)

  datatype ClearCalls = ClearCalls(matches: bool, unlinked: bool, gone: bool)

  datatype QuarantineCalls = QuarantineCalls(matches: bool, created: bool, written: bool, unlinked: bool)

  /** `evidence`: why the result evidence is refused, if it is. */
  datatype ResultDoc = ResultDoc(evidence: Option<Code>, inWindow: bool, leaksAuth: bool,
                                 effortRejected: bool, exitStatus: int, session: Option<string>)

  datatype InvokeCall = InvokeOnTime(ok: bool, at: real, doc: ResultDoc) | InvokeLate(at: real) | InvokeHung

  datatype AuthCalls = AuthCalls(readOk: bool, readIsolationError: bool, bridged: bool, partialRemoved: bool, rootDiscarded: bool)

  /** `PopulationLeft`: writing the profile failed, and so did discarding what was
      written. */
  datatype PopulationCalls = PopulationOk | PopulationUndone(code: Code) | PopulationLeft

  datatype Validation = Accepted | RejectedDiscarded | RejectedKept

  /** `prepared`: prepared-record check; `setup`: deadline, executable and stale
      root before population; `population`: writing the private profile;
      `sealing`: rollout import, inventory, snapshot and baseline; `launch`:
      deadline and executable before invoke; `truncated`: after a failed removal, the
      held authentication file could at least be emptied. */
  datatype Oracle = Oracle(
    admitted: bool, expired: bool, create: CreateCalls, prepare: PrepareCall, prepareNow: real,
    prepareClear: ClearCalls, lateDestroy: DestroyCall,
    prepared: Option<Code>, setup: Option<Code>, population: PopulationCalls, sealing: Option<Code>,
    auth: AuthCalls, launch: Option<Code>,
    invoke: InvokeCall, executableOk: bool, bodyDestroy: DestroyCall,
    finalNow: real, finalDestroy: DestroyCall, hasReaper: bool, reaperRaises: bool,
    authRemoved: bool, truncated: bool, fallbackDiscarded: bool, validation: Validation,
    lateDiscard: bool, exported: bool, finalDiscard: bool,
    quarantine: QuarantineCalls, clear: ClearCalls)

  // ---- which answers make each stage succeed ----

  predicate CreateGood(c: CreateCalls) {
    c.storeOk && !c.quarantined && c.created && c.written && !c.requarantined && c.durable
  }

  predicate ClearGood(c: ClearCalls) {
    c.matches && c.unlinked && c.gone
  }

  predicate QuarantineGood(c: QuarantineCalls) {
    c.matches && c.created && c.written && c.unlinked
  }

  predicate DestroyGood(d: DestroyCall, callReturnedAt: real) {
    d.end.DestroyReturned? && callReturnedAt <= d.started <= d.end.at <= d.observed
  }

  predicate GuestInTime(o: Oracle) {
    o.prepare.OnTime? && o.prepare.end.YieldsGuest?
  }

  /** A profile was populated; authentication was read for it; it was bridged. */
  predicate HasProfile(o: Oracle) {
    o.prepared.None? && o.setup.None? && o.population.PopulationOk?
  }

  predicate Issues(o: Oracle) {
    HasProfile(o) && o.sealing.None?
  }

  predicate Bridged(o: Oracle) {
    Issues(o) && o.auth.readOk && o.auth.bridged
  }

  /** A failed issue could not discard what it may have left. */
  predicate IssueStuck(a: AuthCalls) {
    (a.readOk || a.readIsolationError) && !(a.readOk && a.bridged) && !a.rootDiscarded
  }

  predicate SetUpGood(o: Oracle) {
    Bridged(o) && o.launch.None?
  }

  /** The session gets to populate a profile, fails, and leaves it. */
  predicate LeavesStray(o: Oracle) {
    && o.admitted && !o.expired && CreateGood(o.create) && GuestInTime(o)
    && o.prepared.None? && o.setup.None? && o.population.PopulationLeft?
  }

  /** The guest answered in time with sound evidence. */
  predicate EvidenceGood(o: Oracle) {
    && o.invoke.InvokeOnTime? && o.invoke.ok
    && o.invoke.doc.evidence.None? && o.invoke.doc.inWindow && !o.invoke.doc.leaksAuth
    && o.executableOk
  }

  /** And was then destroyed. */
  predicate AnswerGood(o: Oracle) {
    EvidenceGood(o) && DestroyGood(o.bodyDestroy, o.invoke.at)
  }

  /** Invoke overran, and it and destroy ended all the same. */
  predicate OverrunGood(d: DestroyCall, invoke: InvokeCall) {
    && invoke.InvokeLate? && invoke.at <= d.observed
    && d.end.DestroyReturned? && d.started <= d.end.at <= d.observed
  }

  predicate WantsRetry(o: Oracle, q: Request)
    requires AnswerGood(o)
  {
    o.invoke.doc.effortRejected && q.effort
  }

  predicate NamesSession(o: Oracle, q: Request)
    requires AnswerGood(o)
  {
    && o.invoke.doc.exitStatus == 0 && o.invoke.doc.session.Some?
    && (q.expected.Some? ==> o.invoke.doc.session == q.expected)
  }

  /** The session got as far as a sound answer from a destroyed guest. */
  predicate Answered(o: Oracle) {
    o.admitted && !o.expired && CreateGood(o.create) && GuestInTime(o) && SetUpGood(o) && AnswerGood(o)
  }

  predicate CleanedUp(o: Oracle) {
    o.authRemoved && o.validation.Accepted? && o.finalDiscard && ClearGood(o.clear)
  }

  // ---- where the answers lead ----

  /** The answer binds a session identifier, whether or not it is the expected one. */
  predicate BindsSession(o: Oracle, q: Request) {
    AnswerGood(o) && !WantsRetry(o, q) && o.invoke.doc.exitStatus == 0 && o.invoke.doc.session.Some?
  }

  /** Invoke starts destroy itself if it overruns or is answered with sound evidence. */
  predicate BodyDestroys(o: Oracle) {
    !o.invoke.InvokeOnTime? || EvidenceGood(o)
  }

  predicate BodyProved(o: Oracle) {
    if o.invoke.InvokeOnTime? then AnswerGood(o) else OverrunGood(o.bodyDestroy, o.invoke)
  }

  /** The guest's end is proved, by the body or by the `finally` block. */
  predicate EndProved(o: Oracle) {
    if SetUpGood(o) && BodyDestroys(o) then BodyProved(o) else DestroyGood(o.finalDestroy, o.finalNow)
  }

  /** No authentication and no populated profile is left, and the state is validated.
      `bridged`, `stuck`, `profile`, `bound`: what the session had when it got there. */
  predicate Cleans(o: Oracle, bridged: bool, stuck: bool, profile: bool, bound: bool) {
    && !stuck && (bridged ==> o.authRemoved)
    && (profile ==> if bridged then o.validation.Accepted? && o.finalDiscard && (bound ==> o.exported) else o.lateDiscard)
  }

  function ClearFate(c: ClearCalls): Pc {
    if c.matches && c.unlinked then Released else Stuck
  }

  /** The receipt is left when the guest may live, quarantined when cleanup failed
      after its proved end, and removed otherwise. */
  function EndFate(o: Oracle, proved: bool, clean: bool): Pc {
    if !proved then Stuck
    else if clean then ClearFate(o.clear)
    else if QuarantineGood(o.quarantine) then Quarantined
    else Stuck
  }

  function CreateFate(c: CreateCalls): Pc {
    if !c.storeOk || c.quarantined || !c.created then Refused
    else if c.written && c.requarantined && c.retracted then Refused
    else Stuck
  }

  /** What becomes of a session whose guest is not handed on. */
  function PrepareFate(o: Oracle): Pc {
    match o.prepare
    case Hung => Stuck
    case Late(end) => PrepareEndFate(end, o)
    case OnTime(end) => PrepareEndFate(end, o)
  }

  function PrepareEndFate(end: PrepareEnd, o: Oracle): Pc {
    match end
    case RaisesCleanup(_, _) => Stuck
    case Raises(_) => ClearFate(o.prepareClear)
    case YieldsGuest(valid, at) => if DestroyGood(o.lateDestroy, at) && valid then ClearFate(o.prepareClear) else Stuck
  }

  function GuestFate(o: Oracle, q: Request): Pc {
    var stuck := Issues(o) && IssueStuck(o.auth);
    EndFate(o, EndProved(o), Cleans(o, Bridged(o), stuck, HasProfile(o), SetUpGood(o) && BindsSession(o, q)))
  }

  /** Where the receipt of a session ends, for every oracle. */
  function Fate(o: Oracle, q: Request): Pc {
    if !o.admitted || o.expired then Fresh
    else if !CreateGood(o.create) then CreateFate(o.create)
    else if !GuestInTime(o) then PrepareFate(o)
    else GuestFate(o, q)
  }

  // ---- and what leaves the session ----

  function PrepareEndOutcome(end: PrepareEnd, late: bool, o: Oracle): Outcome {
    match end
    case RaisesCleanup(_, _) => Failed(Uncertain)
    case Raises(code) =>
      Failed(if !ClearGood(o.prepareClear) then Uncertain
             else if late then Timeout
             else if code.Some? then code.value else LaunchFailed)
    case YieldsGuest(valid, at) =>
      Failed(if DestroyGood(o.lateDestroy, at) && valid && ClearGood(o.prepareClear) then Timeout else Uncertain)
  }

  function PrepareOutcome(o: Oracle): Outcome {
    match o.prepare
    case Hung => Failed(Uncertain)
    case Late(end) => PrepareEndOutcome(end, true, o)
    case OnTime(end) => PrepareEndOutcome(end, false, o)
  }

  /** The first step of the set-up that fails. */
  function SetUpFailure(o: Oracle): Option<Code> {
    if o.prepared.Some? then o.prepared
    else if o.setup.Some? then o.setup
    else if o.population.PopulationUndone? then Some(o.population.code)
    else if o.population.PopulationLeft? then Some(ResultInvalid)
    else if o.sealing.Some? then o.sealing
    else if o.auth.readOk && o.auth.bridged then o.launch
    else if o.auth.readOk && !o.auth.partialRemoved then Some(ResultInvalid)
    else Some(InitFailed)
  }

  function InvokeOutcome(o: Oracle, q: Request): Outcome {
    if !o.invoke.InvokeOnTime? then Failed(if OverrunGood(o.bodyDestroy, o.invoke) then Timeout else Uncertain)
    else if !o.invoke.ok then Failed(LaunchFailed)
    else if o.invoke.doc.evidence.Some? then Failed(o.invoke.doc.evidence.value)
    else if !o.invoke.doc.inWindow then Failed(Uncertain)
    else if o.invoke.doc.leaksAuth then Failed(ResultInvalid)
    else if !o.executableOk then Failed(Mismatch)
    else if !AnswerGood(o) then Failed(Uncertain)
    else if WantsRetry(o, q) then EffortRetry
    else if NamesSession(o, q) then Returned(o.invoke.doc.session.value)
    else Failed(ResultInvalid)
  }

  /** The failure of a removal: of a partial issue, or of what was bridged, whose
      truncation may fail too. */
  function AuthCode(o: Oracle, bridged: bool): Code {
    if bridged && !o.truncated then Other else ResultInvalid
  }

  /** The failure of a session whose guest may live. */
  function UnprovedCode(o: Oracle, bridged: bool, authGone: bool): Code {
    if !authGone then AuthCode(o, bridged) else if o.hasReaper && o.reaperRaises then Other else Uncertain
  }

  /** What leaves the `finally` block: a failed cleanup comes before a failed destroy,
      an uncertain receipt before both, and what was pending comes last. */
  function EndOutcome(o: Oracle, proved: bool, clean: bool, bridged: bool, authGone: bool, pending: Outcome): Outcome {
    if !proved then Failed(UnprovedCode(o, bridged, authGone))
    else if clean && ClearGood(o.clear) then pending
    else Failed(Uncertain)
  }

  function GuestOutcome(o: Oracle, q: Request): Outcome {
    var stuck := Issues(o) && IssueStuck(o.auth);
    var clean := Cleans(o, Bridged(o), stuck, HasProfile(o), SetUpGood(o) && BindsSession(o, q));
    var pending := if SetUpFailure(o).Some? then Failed(SetUpFailure(o).value) else InvokeOutcome(o, q);
    EndOutcome(o, EndProved(o), clean, Bridged(o), !stuck && (Bridged(o) ==> o.authRemoved), pending)
  }

  /** What a session returns or raises, for every oracle. */
  function SessionOutcome(o: Oracle, q: Request): Outcome {
    if !o.admitted then Failed(Mismatch)
    else if o.expired then Failed(Timeout)
    else if !CreateGood(o.create) then Failed(Uncertain)
    else if !GuestInTime(o) then PrepareOutcome(o)
    else GuestOutcome(o, q)
  }

  /** Which sessions end in a result, and which in the retry signal. */
  lemma OutcomeExactly(o: Oracle, q: Request)
    ensures SessionOutcome(o, q).Returned? <==>
              Answered(o) && !WantsRetry(o, q) && NamesSession(o, q) && CleanedUp(o) && o.exported
    ensures SessionOutcome(o, q).Returned? ==> o.invoke.doc.session == Some(SessionOutcome(o, q).session)
    ensures SessionOutcome(o, q).EffortRetry? <==> Answered(o) && WantsRetry(o, q) && CleanedUp(o)
  {
  }

  /** The readings of the destroy call that ended the guest, over what the calls
      answered: prepare gave no guest; or gave it late, and the late destroy returned;
      or gave it in time, and the destroy of the body, or else the final one, did. */
  ghost predicate GuestEnded(o: Oracle) {
    match o.prepare
    case Hung => false
    case Late(end) =>
      end.YieldsGuest? ==>
        && end.valid && o.lateDestroy.end.DestroyReturned?
        && end.returnedAt <= o.lateDestroy.started <= o.lateDestroy.end.at <= o.lateDestroy.observed
    case OnTime(end) =>
      end.YieldsGuest? ==>
        if o.prepared.Some? || o.setup.Some? || !o.population.PopulationOk? || o.sealing.Some?
           || !o.auth.readOk || !o.auth.bridged || o.launch.Some?
        then FinalEnded(o)
        else match o.invoke
          case InvokeHung => false
          case InvokeLate(at) => at <= o.bodyDestroy.observed && BodyEnded(o)
          case InvokeOnTime(ok, at, doc) =>
            if ok && doc.evidence.None? && doc.inWindow && !doc.leaksAuth && o.executableOk
            then at <= o.bodyDestroy.started && BodyEnded(o)
            else FinalEnded(o)
  }

  ghost predicate BodyEnded(o: Oracle) {
    o.bodyDestroy.end.DestroyReturned? && o.bodyDestroy.started <= o.bodyDestroy.end.at <= o.bodyDestroy.observed
  }

  ghost predicate FinalEnded(o: Oracle) {
    && o.finalDestroy.end.DestroyReturned?
    && o.finalNow <= o.finalDestroy.started <= o.finalDestroy.end.at <= o.finalDestroy.observed
  }

  lemma GiveUpMeansEnded(o: Oracle, q: Request)
    ensures Fate(o, q) == Released || Fate(o, q) == Quarantined ==> GuestEnded(o)
  {
  }

  /** What the host did, where that leaves the run, and the absolute deadline of
      every wait for an adapter call. */
  datatype Record = Record(trace: Trace, run: Run, waits: seq<real>, limit: real)

  /** The trace is one of the protocol, and no wait goes beyond the limit. */
  ghost predicate Sound(l: Record) {
    && Replay(l.trace) == Some(l.run)
    && Consistent(l.run)
    && forall k :: 0 <= k < |l.waits| ==> l.waits[k] <= l.limit
  }

  type Log = l: Record | Sound(l) ghost witness Record(Nothing, START, [], 0.0)

  function Emit(l: Log, e: Event): (m: Log)
    requires Step(l.run, e).Some?
    ensures m.run == Step(l.run, e).value && m.trace == Then(l.trace, e)
    ensures m.waits == l.waits && m.limit == l.limit
  {
    StepConsistent(l.run, e);
    l.(trace := Then(l.trace, e), run := Step(l.run, e).value)
  }

  function Wait(l: Log, deadline: real): (m: Log)
    requires deadline <= l.limit
    ensures m == l.(waits := l.waits + [deadline])
  {
    l.(waits := l.waits + [deadline])
  }

  function Limit(q: Request): real {
    q.deadline + CleanupBudget(q.policy)
  }

  class Host {
    const request: Request
    var log: Log

    // the local variables that the `finally` block reads
    var destroyStarted: bool
    var terminalProved: bool
    var destroyFailure: Option<Code>
    var preAuthFailure: Option<Code>
    var cleanupFailure: Option<Code>
    var stateFailure: Option<Code>
    var bridge: bool
    var profile: bool
    var provider: Option<string>

    constructor (request: Request)
      ensures log.limit == Limit(request) && log.run == START && log.trace == Nothing && this.request == request
      ensures Untouched()
    {
      this.request := request;
      log := Record(Nothing, START, [], Limit(request));
      destroyStarted, terminalProved := false, false;
      destroyFailure, preAuthFailure, cleanupFailure, stateFailure := None, None, None, None;
      bridge, profile, provider := false, false, None;
    }

    ghost predicate Untouched() reads this {
      && !destroyStarted && !terminalProved && !bridge && !profile && provider.None?
      && destroyFailure.None? && preAuthFailure.None? && cleanupFailure.None? && stateFailure.None?
    }

    /** How the local variables mirror the protocol state inside the session. */
    ghost predicate Mirrors() reads this {
      && log.run.pc == Holding
      && (log.run.guest == Up || log.run.guest == Destroying || log.run.guest == Gone)
      && (destroyStarted <==> log.run.guest != Up)
      && (terminalProved <==> log.run.guest == Gone)
      && (destroyStarted && !terminalProved ==> destroyFailure.Some?)
      && (!destroyStarted || terminalProved ==> destroyFailure.None?)
      && (profile <==> log.run.profile)
      && (log.run.exposed ==> bridge)
      && (bridge ==> profile)
    }

    // ---- receipt ----

    /** The first look and the exclusive create. */
    method MakeReceipt(c: CreateCalls) returns (ok: bool)
      requires log.limit == Limit(request) && log.run == START
      modifies `log
      ensures log.limit == Limit(request)
      ensures ok <==> c.storeOk && !c.quarantined && c.created
      ensures ok ==> log.run == START.(pc := Made)
      ensures !ok ==> log.run.pc == Refused && log.run.guest == Absent
      ensures !log.run.stray
    {
      if !c.storeOk { log := Emit(log, Acquire(LookFailed)); return false; }
      if c.quarantined { log := Emit(log, Acquire(LookPresent)); return false; }
      log := Emit(log, Acquire(LookAbsent));
      log := Emit(log, Acquire(if c.created then CreateOk else CreateFailed));
      ok := c.created;
    }

    method CreateReceipt(c: CreateCalls) returns (ok: bool)
      requires log.limit == Limit(request) && log.run == START
      modifies `log
      ensures log.limit == Limit(request)
      ensures ok <==> CreateGood(c)
      ensures ok ==> log.run == START.(pc := Holding)
      ensures !ok ==> log.run.pc == CreateFate(c) && log.run.guest == Absent
      ensures !log.run.stray
    {
      ok := MakeReceipt(c);
      if !ok { return; }
      ok := false;
      if !c.written { log := Emit(log, Acquire(WriteFailed)); return; }
      if c.requarantined {
        log := Emit(log, Acquire(RelookPresent));
        log := Emit(log, Acquire(if c.retracted then Retracted else RetractFailed));
        return;
      }
      log := Emit(log, Acquire(RelookAbsent));
      if !c.durable { log := Emit(log, Finish(LeftBehind)); return; }
      ok := true;
    }

    method ClearReceipt(c: ClearCalls) returns (ok: bool)
      requires log.limit == Limit(request) && log.run.pc == Holding && Safe(log.run)
      modifies `log
      ensures log.limit == Limit(request) && log.run.guest == old(log.run).guest
      ensures ok <==> ClearGood(c)
      ensures log.run.pc == ClearFate(c)
      ensures Count(log.trace, OnDisk(RolloutExported)) == old(Count(log.trace, OnDisk(RolloutExported)))
      ensures log.run.stray == old(log.run).stray
    {
      if !c.matches { log := Emit(log, Finish(LeftBehind)); return false; }
      log := Emit(log, Finish(ClearVerified));
      if !c.unlinked { log := Emit(log, Finish(LeftBehind)); return false; }
      log := Emit(log, Finish(Unlinked));
      ok := c.gone;
    }

    /** Every ending of this method makes the session fail. */
    method QuarantineReceipt(c: QuarantineCalls)
      requires log.limit == Limit(request) && log.run.pc == Holding && log.run.guest == Gone
      modifies `log
      ensures log.limit == Limit(request) && log.run.guest == Gone
      ensures log.run.pc == if QuarantineGood(c) then Quarantined else Stuck
      ensures Count(log.trace, OnDisk(RolloutExported)) == old(Count(log.trace, OnDisk(RolloutExported)))
      ensures log.run.stray == old(log.run).stray
    {
      if !c.matches { log := Emit(log, Finish(LeftBehind)); return; }
      log := Emit(log, Finish(QuarantineVerified));
      MarkReceipt(c);
    }

    /** Creates the quarantine file first and only then unlinks the receipt. */
    method MarkReceipt(c: QuarantineCalls)
      requires log.limit == Limit(request) && log.run.pc == Marking && log.run.guest == Gone
      modifies `log
      ensures log.limit == Limit(request) && log.run.guest == Gone
      ensures log.run.pc == if c.created && c.written && c.unlinked then Quarantined else Stuck
      ensures Count(log.trace, OnDisk(RolloutExported)) == old(Count(log.trace, OnDisk(RolloutExported)))
      ensures log.run.stray == old(log.run).stray
    {
      if !c.created { log := Emit(log, Finish(LeftBehind)); return; }
      log := Emit(log, Finish(QuarantineCreated));
      if !c.written || !c.unlinked { log := Emit(log, Finish(LeftBehind)); return; }
      log := Emit(log, Finish(QuarantineUnlinked));
    }

    // ---- destruction ----

    /** Starts destroy on the guest and decides whether its end is proved:
        it returned nothing, in time, and the host clock readings are ordered. */
    method DestroyPrepared(d: DestroyCall, callReturnedAt: real) returns (proved: bool)
      requires log.limit == Limit(request) && log.run.pc == Holding && log.run.guest == Up
      modifies `log
      ensures log.limit == Limit(request) && log.run == old(log.run).(guest := if proved then Gone else Destroying)
      ensures proved <==>
                d.end.DestroyReturned? && callReturnedAt <= d.started && d.started <= d.end.at && d.end.at <= d.observed
    {
      log := Emit(log, OnGuest(DestroyStarted));
      log := Wait(log, ControlDeadline(request, d.started));
      proved := d.end.DestroyReturned? && callReturnedAt <= d.started <= d.end.at <= d.observed;
      if proved { log := Emit(log, OnGuest(DestroyProved)); }
    }

    /** The invoke call overran: destroy starts first, then both calls must end. */
    method DestroyAfterLateInvoke(d: DestroyCall, invoke: InvokeCall) returns (proved: bool)
      requires log.limit == Limit(request) && log.run.pc == Holding && log.run.guest == Up && !invoke.InvokeOnTime?
      modifies `log
      ensures log.limit == Limit(request) && log.run == old(log.run).(guest := if proved then Gone else Destroying)
      ensures proved <==>
                && invoke.InvokeLate? && invoke.at <= d.observed
                && d.end.DestroyReturned? && d.started <= d.end.at && d.end.at <= d.observed
    {
      log := Emit(log, OnGuest(DestroyStarted));
      var deadline := ControlDeadline(request, d.started);
      log := Wait(log, deadline);
      if invoke.InvokeHung? { return false; }
      log := Wait(log, deadline);
      proved := d.end.DestroyReturned? && d.started <= d.end.at <= d.observed && invoke.at <= d.observed;
      if proved { log := Emit(log, OnGuest(DestroyProved)); }
    }

    // ---- prepare ----

    /** Runs prepare. A guest that arrives in time is handed on; otherwise the
        session ends here. */
    method Prepare(o: Oracle) returns (guest: bool, out: Outcome)
      requires log.limit == Limit(request) && log.run == START.(pc := Holding)
      modifies `log
      ensures log.limit == Limit(request)
      ensures guest <==> GuestInTime(o)
      ensures guest ==> log.run == START.(pc := Holding, guest := Up)
      ensures !guest ==> out == PrepareOutcome(o) && log.run.pc == PrepareFate(o) && log.run.guest != Up
      ensures !log.run.stray
    {
      guest, out := false, Failed(Timeout);
      log := Emit(log, OnGuest(PrepareStarted));
      log := Wait(log, request.deadline);
      match o.prepare
      case Hung =>
        log := Wait(log, ControlDeadline(request, o.prepareNow));
        log := Emit(log, Finish(LeftBehind));
        out := Failed(Uncertain);
      case Late(end) =>
        log := Wait(log, ControlDeadline(request, o.prepareNow));
        out := EndPrepare(end, true, o);
      case OnTime(end) =>
        if end.YieldsGuest? {
          log := Emit(log, OnGuest(GuestArrived));
          guest := true;
        } else {
          out := EndPrepare(end, false, o);
        }
    }

    method EndPrepare(end: PrepareEnd, late: bool, o: Oracle) returns (out: Outcome)
      requires log.limit == Limit(request) && log.run == START.(pc := Holding, guest := Pending)
      requires end.YieldsGuest? ==> late
      modifies `log
      ensures log.limit == Limit(request) && out == PrepareEndOutcome(end, late, o)
      ensures log.run.pc == PrepareEndFate(end, o) && log.run.guest != Up
      ensures !log.run.stray
    {
      match end
      case RaisesCleanup(claimable, _) =>
        // the opaque cleanup runs once, and this path raises however it ends
        if claimable { log := Wait(log, ControlDeadline(request, o.prepareNow)); }
        log := Emit(log, Finish(LeftBehind));
        out := Failed(Uncertain);
      case Raises(code) =>
        log := Emit(log, OnGuest(PrepareRaised));
        var ok := ClearReceipt(o.prepareClear);
        out := Failed(if !ok then Uncertain else if late then Timeout else if code.Some? then code.value else LaunchFailed);
      case YieldsGuest(valid, returnedAt) =>
        log := Emit(log, OnGuest(GuestArrived));
        var proved := DestroyPrepared(o.lateDestroy, returnedAt);
        if !proved || !valid {
          log := Emit(log, Finish(LeftBehind));
          out := Failed(Uncertain);
        } else {
          var ok := ClearReceipt(o.prepareClear);
          out := Failed(if ok then Timeout else Uncertain);
        }
    }

    // ---- the `try` body ----

    /** Issues the transient authentication. A failed issue that may have left a
        file behind discards the transient root, or records that it could not. */
    method IssueAuthentication(a: AuthCalls) returns (failure: Option<Code>)
      requires log.limit == Limit(request) && Mirrors() && log.run.guest == Up && profile
      requires !bridge && !log.run.auth && preAuthFailure.None?
      modifies `log, `bridge, `preAuthFailure
      ensures log.limit == Limit(request) && Mirrors() && log.run.guest == Up
      ensures failure.None? <==> bridge
      ensures bridge <==> a.readOk && a.bridged
      ensures preAuthFailure == if IssueStuck(a) then Some(ResultInvalid) else None
      ensures failure.Some? ==> failure == Some(if a.readOk && !a.partialRemoved then ResultInvalid else InitFailed)
      ensures !bridge ==> (log.run.auth <==> a.readOk && !a.partialRemoved && !a.rootDiscarded)
      ensures log.run.auth && !bridge ==> preAuthFailure.Some?
      ensures log.run.stray == old(log.run).stray
    {
      if a.readOk && a.bridged {
        log := Emit(log, OnDisk(AuthIssued));
        bridge := true;
        return None;
      }
      if a.readOk || a.readIsolationError {
        if a.readOk && !a.partialRemoved { log := Emit(log, OnDisk(AuthPartial)); }
        if a.rootDiscarded {
          log := Emit(log, OnDisk(AuthRemoved));
        } else {
          preAuthFailure := Some(ResultInvalid);
        }
      }
      failure := Some(if a.readOk && !a.partialRemoved then ResultInvalid else InitFailed);
    }

    /** Everything up to the invoke call: prepared record, profile, authentication. */
    method SetUp(o: Oracle) returns (failure: Option<Code>)
      requires log.limit == Limit(request) && log.run == START.(pc := Holding, guest := Up) && Untouched()
      modifies `log, `profile, `bridge, `preAuthFailure
      ensures log.limit == Limit(request) && Mirrors() && log.run.guest == Up
      ensures failure == SetUpFailure(o) && (failure.None? <==> SetUpGood(o))
      ensures (bridge <==> Bridged(o)) && (profile <==> HasProfile(o))
      ensures preAuthFailure == if Issues(o) && IssueStuck(o.auth) then Some(ResultInvalid) else None
      ensures log.run.auth && !bridge ==> preAuthFailure.Some?
      ensures log.run.stray <==> o.prepared.None? && o.setup.None? && o.population.PopulationLeft?
    {
      if o.prepared.Some? { return o.prepared; }
      if o.setup.Some? { return o.setup; }
      match o.population {
        case PopulationOk =>
        case PopulationUndone(code) => return Some(code);
        case PopulationLeft =>
          log := Emit(log, OnDisk(PopulationStuck));
          return Some(ResultInvalid);
      }
      log := Emit(log, OnDisk(Populated));
      profile := true;
      if o.sealing.Some? { return o.sealing; }
      failure := IssueAuthentication(o.auth);
      if failure.None? { failure := o.launch; }
    }

    /** Invokes the guest, judges its answer and destroys it. */
    method Invoke(o: Oracle) returns (out: Outcome)
      requires log.limit == Limit(request) && Mirrors() && log.run.guest == Up && bridge
      requires provider.None?
      modifies `log, `destroyStarted, `terminalProved, `destroyFailure, `provider
      ensures log.limit == Limit(request) && Mirrors()
      ensures log.run.auth == old(log.run).auth
      ensures destroyStarted <==> BodyDestroys(o)
      ensures destroyStarted ==> (terminalProved <==> BodyProved(o))
      ensures provider.Some? <==> BindsSession(o, request)
      ensures out == InvokeOutcome(o, request)
      ensures destroyStarted && !terminalProved ==> destroyFailure == Some(Uncertain)
      ensures !out.Failed? ==> terminalProved
      ensures out.EffortRetry? <==> AnswerGood(o) && WantsRetry(o, request)
      ensures out.Returned? <==> AnswerGood(o) && !WantsRetry(o, request) && NamesSession(o, request)
      ensures out.Returned? ==> provider == o.invoke.doc.session == Some(out.session)
      ensures out.EffortRetry? ==> provider.None?
      ensures log.run.stray == old(log.run).stray
    {
      log := Wait(log, request.deadline);
      if !o.invoke.InvokeOnTime? {
        out := EndOverrun(o);
        return;
      }
      var doc := o.invoke.doc;
      if !o.invoke.ok { return Failed(LaunchFailed); }
      if doc.evidence.Some? { return Failed(doc.evidence.value); }
      if !doc.inWindow { return Failed(Uncertain); }
      if doc.leaksAuth { return Failed(ResultInvalid); }
      if !o.executableOk { return Failed(Mismatch); }
      var ended := EndAnswered(o);
      if !ended { return Failed(Uncertain); }
      out := JudgeAnswer(doc);
    }

    /** The call did not answer in time: the session fails, however the guest ends. */
    method EndOverrun(o: Oracle) returns (out: Outcome)
      requires log.limit == Limit(request) && Mirrors() && log.run.guest == Up && !o.invoke.InvokeOnTime?
      modifies `log, `destroyStarted, `terminalProved, `destroyFailure
      ensures log.limit == Limit(request) && Mirrors() && out.Failed? && destroyStarted
      ensures log.run == old(log.run).(guest := log.run.guest)
      ensures terminalProved <==> OverrunGood(o.bodyDestroy, o.invoke)
      ensures out == Failed(if terminalProved then Timeout else Uncertain)
      ensures !terminalProved ==> destroyFailure == Some(Uncertain)
    {
      destroyStarted := true;
      terminalProved := DestroyAfterLateInvoke(o.bodyDestroy, o.invoke);
      if !terminalProved { destroyFailure := Some(Uncertain); }
      out := Failed(if terminalProved then Timeout else Uncertain);
    }

    /** Destroys the guest that answered in time. */
    method EndAnswered(o: Oracle) returns (ended: bool)
      requires log.limit == Limit(request) && Mirrors() && log.run.guest == Up && o.invoke.InvokeOnTime?
      modifies `log, `destroyStarted, `terminalProved, `destroyFailure
      ensures log.limit == Limit(request) && Mirrors() && destroyStarted
      ensures log.run == old(log.run).(guest := log.run.guest)
      ensures ended == terminalProved == DestroyGood(o.bodyDestroy, o.invoke.at)
      ensures !terminalProved ==> destroyFailure == Some(Uncertain)
    {
      destroyStarted := true;
      terminalProved := DestroyPrepared(o.bodyDestroy, o.invoke.at);
      if !terminalProved { destroyFailure := Some(Uncertain); }
      ended := terminalProved;
    }

    /** Decides what a sound answer means: retry, failure, or a session. The session
        identifier is bound before it is compared. */
    method JudgeAnswer(doc: ResultDoc) returns (out: Outcome)
      modifies `provider
      ensures out.EffortRetry? <==> doc.effortRejected && request.effort
      ensures out.Returned? <==>
                && !(doc.effortRejected && request.effort) && doc.exitStatus == 0 && doc.session.Some?
                && (request.expected.Some? ==> doc.session == request.expected)
      ensures out.Returned? ==> provider == doc.session == Some(out.session)
      ensures out.Failed? ==> out == Failed(ResultInvalid)
      ensures provider == if (doc.effortRejected && request.effort) || doc.exitStatus != 0 then old(provider) else doc.session
    {
      if doc.effortRejected && request.effort { return EffortRetry; }
      if doc.exitStatus != 0 { return Failed(ResultInvalid); }
      provider := doc.session;
      if provider.None? || (request.expected.Some? && provider != request.expected) {
        return Failed(ResultInvalid);
      }
      return Returned(provider.value);
    }

    // ---- the `finally` block ----

    method FinallyDestroy(o: Oracle)
      requires log.limit == Limit(request) && Mirrors()
      requires destroyStarted && !terminalProved ==> destroyFailure == Some(Uncertain)
      modifies `log, `destroyStarted, `terminalProved, `destroyFailure
      ensures log.limit == Limit(request) && Mirrors()
      ensures log.run.guest != Up && log.run == old(log.run).(guest := log.run.guest)
      ensures terminalProved == if old(destroyStarted) then old(terminalProved) else DestroyGood(o.finalDestroy, o.finalNow)
      ensures !terminalProved ==> destroyFailure == Some(if o.hasReaper && o.reaperRaises then Other else Uncertain)
    {
      if !destroyStarted {
        destroyStarted := true;
        terminalProved := DestroyPrepared(o.finalDestroy, o.finalNow);
        if !terminalProved { destroyFailure := Some(Uncertain); }
      }
      if !terminalProved && o.hasReaper && o.reaperRaises { destroyFailure := Some(Other); }
    }

    method FinallyAuthentication(o: Oracle)
      requires log.limit == Limit(request) && Mirrors() && log.run.guest != Up
      requires log.run.auth && !bridge ==> preAuthFailure.Some?
      requires preAuthFailure.Some? ==> preAuthFailure == Some(ResultInvalid) && !bridge
      modifies `log, `cleanupFailure
      ensures log.limit == Limit(request) && Mirrors()
      ensures log.run.(auth := false) == old(log.run).(auth := false)
      ensures cleanupFailure.None? ==> !log.run.auth
      ensures cleanupFailure == if AuthGone(o) then None else Some(AuthCode(o, bridge))
    {
      cleanupFailure := preAuthFailure;
      if bridge {
        if o.authRemoved {
          log := Emit(log, OnDisk(AuthRemoved));
        } else {
          cleanupFailure := Some(if o.truncated then ResultInvalid else Other);
          if terminalProved && o.truncated && o.fallbackDiscarded { log := Emit(log, OnDisk(AuthRemoved)); }
        }
      }
    }

    method FinallyState(o: Oracle)
      requires log.limit == Limit(request) && Mirrors() && log.run.guest != Up
      requires cleanupFailure.None? ==> !log.run.auth
      requires stateFailure.None?
      modifies `log, `stateFailure
      ensures log.limit == Limit(request)
      ensures log.run.pc == Holding && log.run.guest == old(log.run).guest
      ensures log.run.auth == old(log.run).auth
      ensures terminalProved && stateFailure.None? ==> !log.run.exposed
      ensures terminalProved && stateFailure.None? && !(cleanupFailure.None? && bridge) ==> !log.run.profile
      ensures terminalProved && stateFailure.None? && cleanupFailure.None? && bridge ==> log.run.profile
      ensures terminalProved && cleanupFailure.None? ==>
                (stateFailure.None? <==> (profile ==> if bridge then o.validation.Accepted? else o.lateDiscard))
      ensures !terminalProved ==> stateFailure.None?
      ensures log.run.stray == old(log.run).stray
    {
      if terminalProved && profile {
        if bridge {
          match o.validation
          case Accepted => log := Emit(log, OnDisk(StateValidated));
          case RejectedDiscarded =>
            log := Emit(log, OnDisk(ProfileDiscarded));
            stateFailure := Some(ResultInvalid);
          case RejectedKept => stateFailure := Some(ResultInvalid);
        } else if o.lateDiscard {
          log := Emit(log, OnDisk(ProfileDiscarded));
        } else {
          stateFailure := Some(ResultInvalid);
        }
        if cleanupFailure.Some? && stateFailure.None? && log.run.profile {
          if o.lateDiscard {
            log := Emit(log, OnDisk(ProfileDiscarded));
          } else {
            stateFailure := Some(ResultInvalid);
          }
        }
      }
    }

    /** Exports the rollout of a proved, removed and validated session, then
        discards the profile. */
    method FinallyExport(o: Oracle) returns (exported: bool)
      requires log.limit == Limit(request) && terminalProved && bridge
      requires log.run.pc == Holding && log.run.guest == Gone
      requires !log.run.auth && !log.run.exposed && log.run.profile && stateFailure.None?
      modifies `log, `stateFailure
      ensures log.limit == Limit(request)
      ensures log.run.(profile := false) == old(log.run).(profile := false)
      ensures stateFailure.None? <==> o.finalDiscard && (provider.Some? ==> o.exported)
      ensures stateFailure.None? ==> !log.run.profile && (provider.Some? ==> exported)
      ensures exported ==> Count(log.trace, OnDisk(RolloutExported)) > 0
    {
      exported := false;
      if provider.Some? {
        if !o.exported { stateFailure := Some(ResultInvalid); return; }
        log := Emit(log, OnDisk(RolloutExported));
        exported := true;
      }
      if o.finalDiscard {
        log := Emit(log, OnDisk(ProfileDiscarded));
      } else {
        stateFailure := Some(ResultInvalid);
      }
    }

    /** The local variables say that everything was cleaned up. */
    predicate NoFailure()
      reads `cleanupFailure, `stateFailure
    {
      cleanupFailure.None? && stateFailure.None?
    }

    /** Authentication was removed, or was never issued. */
    predicate AuthGone(o: Oracle)
      reads `preAuthFailure, `bridge
    {
      preAuthFailure.None? && (bridge ==> o.authRemoved)
    }

    /** The first of the failures, in the order in which they are raised. */
    function FirstFailure(): Option<Code>
      reads `stateFailure, `cleanupFailure, `destroyFailure
    {
      if stateFailure.Some? then stateFailure else if cleanupFailure.Some? then cleanupFailure else destroyFailure
    }

    /** What the `finally` block finds decides what it can clean up. */
    predicate CleansUp(o: Oracle)
      reads `bridge, `preAuthFailure, `profile, `provider
    {
      Cleans(o, bridge, preAuthFailure.Some?, profile, provider.Some?)
    }

    /** Gives the receipt up, or leaves it; `proved`, `clean`: whether the guest's end is
        proved, and no cleanup failed. */
    method FinallyReceipt(o: Oracle, proved: bool, clean: bool) returns (failure: Option<Code>)
      requires log.limit == Limit(request) && log.run.pc == Holding
      requires log.run.guest == if proved then Gone else Destroying
      requires proved && clean ==> Safe(log.run)
      modifies `log
      ensures log.limit == Limit(request) && log.run.guest == old(log.run).guest
      ensures log.run.pc == EndFate(o, proved, clean)
      ensures failure == if !proved || (clean && ClearGood(o.clear)) then None else Some(Uncertain)
      ensures Count(log.trace, OnDisk(RolloutExported)) == old(Count(log.trace, OnDisk(RolloutExported)))
      ensures log.run.stray == old(log.run).stray
    {
      failure := None;
      if !proved {
        log := Emit(log, Finish(LeftBehind));
      } else if !clean {
        QuarantineReceipt(o.quarantine);
        failure := Some(Uncertain);
      } else {
        var ok := ClearReceipt(o.clear);
        if !ok { failure := Some(Uncertain); }
      }
    }

    /** The `finally` block up to the receipt. */
    method FinallyCleanUp(o: Oracle, ghost clean: bool, ghost authGone: bool)
      requires log.limit == Limit(request) && Mirrors() && stateFailure.None?
      requires bridge ==> preAuthFailure.None?
      requires log.run.auth && !bridge ==> preAuthFailure.Some?
      requires preAuthFailure.Some? ==> preAuthFailure == Some(ResultInvalid)
      requires destroyStarted && !terminalProved ==> destroyFailure == Some(Uncertain)
      requires clean == CleansUp(o) && authGone == AuthGone(o)
      modifies `log, `destroyStarted, `terminalProved, `destroyFailure, `cleanupFailure, `stateFailure
      ensures log.limit == Limit(request) && log.run.pc == Holding
      ensures log.run.guest == if terminalProved then Gone else Destroying
      ensures terminalProved <==> destroyFailure.None?
      ensures terminalProved == if old(destroyStarted) then old(terminalProved) else DestroyGood(o.finalDestroy, o.finalNow)
      ensures terminalProved ==> (clean <==> NoFailure())
      ensures terminalProved && clean ==> Safe(log.run)
      ensures !terminalProved ==> FirstFailure() == Some(UnprovedCode(o, bridge, authGone))
      ensures terminalProved && bridge && clean && provider.Some? ==>
                Count(log.trace, OnDisk(RolloutExported)) > 0
      ensures log.run.stray == old(log.run).stray
    {
      FinallyDestroy(o);
      FinallyAuthentication(o);
      FinallyKeep(o);
    }

    /** Validates what the session leaves, and exports what it is to keep. */
    method FinallyKeep(o: Oracle)
      requires log.limit == Limit(request) && Mirrors() && log.run.guest != Up
      requires (cleanupFailure.None? ==> !log.run.auth) && stateFailure.None?
      modifies `log, `stateFailure
      ensures log.limit == Limit(request)
      ensures log.run.pc == Holding && log.run.guest == old(log.run).guest
      ensures terminalProved && NoFailure() ==> Safe(log.run)
      ensures terminalProved && cleanupFailure.None? ==>
                (stateFailure.None? <==> (profile ==>
                  if bridge then o.validation.Accepted? && o.finalDiscard && (provider.Some? ==> o.exported)
                  else o.lateDiscard))
      ensures !terminalProved ==> stateFailure.None?
      ensures terminalProved && bridge && NoFailure() && provider.Some? ==>
                Count(log.trace, OnDisk(RolloutExported)) > 0
      ensures log.run.stray == old(log.run).stray
    {
      FinallyState(o);
      if stateFailure.None? && terminalProved && cleanupFailure.None? && bridge {
        var _ := FinallyExport(o);
      }
    }

    /** Cleans up and gives the receipt up, or leaves it. */
    method FinallyEnd(o: Oracle, ghost clean: bool, ghost authGone: bool) returns (failure: Option<Code>)
      requires log.limit == Limit(request) && Mirrors() && stateFailure.None?
      requires bridge ==> preAuthFailure.None?
      requires log.run.auth && !bridge ==> preAuthFailure.Some?
      requires preAuthFailure.Some? ==> preAuthFailure == Some(ResultInvalid)
      requires destroyStarted && !terminalProved ==> destroyFailure == Some(Uncertain)
      requires clean == CleansUp(o) && authGone == AuthGone(o)
      modifies `log, `destroyStarted, `terminalProved, `destroyFailure, `cleanupFailure, `stateFailure
      ensures log.limit == Limit(request)
      ensures terminalProved == if old(destroyStarted) then old(terminalProved) else DestroyGood(o.finalDestroy, o.finalNow)
      ensures log.run.pc == EndFate(o, terminalProved, clean)
      ensures log.run.guest == if terminalProved then Gone else Destroying
      ensures failure == if !terminalProved || (clean && ClearGood(o.clear)) then None else Some(Uncertain)
      ensures terminalProved && clean ==> FirstFailure() == None
      ensures !terminalProved ==> FirstFailure() == Some(UnprovedCode(o, bridge, authGone))
      ensures terminalProved && bridge && clean && provider.Some? ==> Count(log.trace, OnDisk(RolloutExported)) > 0
      ensures log.run.stray == old(log.run).stray
    {
      FinallyCleanUp(o, clean, authGone);
      failure := FinallyReceipt(o, terminalProved, NoFailure());
    }

    /** The `finally` block, entered with `pending` about to leave the `try`. */
    method Finally(o: Oracle, pending: Outcome) returns (out: Outcome)
      requires log.limit == Limit(request) && Mirrors() && stateFailure.None?
      requires bridge ==> preAuthFailure.None?
      requires log.run.auth && !bridge ==> preAuthFailure.Some?
      requires preAuthFailure.Some? ==> preAuthFailure == Some(ResultInvalid)
      requires destroyStarted && !terminalProved ==> destroyFailure == Some(Uncertain)
      requires !pending.Failed? ==> terminalProved && bridge
      requires pending.Returned? ==> provider == Some(pending.session)
      modifies `log, `destroyStarted, `terminalProved, `destroyFailure, `cleanupFailure, `stateFailure
      ensures log.limit == Limit(request)
      ensures terminalProved == if old(destroyStarted) then old(terminalProved) else DestroyGood(o.finalDestroy, o.finalNow)
      ensures log.run.pc == EndFate(o, terminalProved, CleansUp(o))
      ensures log.run.guest == if terminalProved then Gone else Destroying
      ensures out == EndOutcome(o, terminalProved, CleansUp(o), bridge, AuthGone(o), pending)
      ensures !out.Failed? ==> out == pending && log.run.pc == Released && log.run.guest == Gone
      ensures !pending.Failed? ==>
                (!out.Failed? <==> CleanedUp(o) && (old(provider).Some? ==> o.exported))
      ensures out.Returned? ==> Count(log.trace, OnDisk(RolloutExported)) > 0
      ensures log.run.stray == old(log.run).stray
    {
      var receiptFailure := FinallyEnd(o, CleansUp(o), AuthGone(o));
      out := Raise(receiptFailure, pending);
    }

    /** The first failure there is leaves the session, or else what was pending. */
    method Raise(receiptFailure: Option<Code>, pending: Outcome) returns (out: Outcome)
      ensures out ==
                if receiptFailure.Some? then Failed(receiptFailure.value)
                else if FirstFailure().Some? then Failed(FirstFailure().value)
                else pending
    {
      if receiptFailure.Some? { return Failed(receiptFailure.value); }
      if stateFailure.Some? { return Failed(stateFailure.value); }
      if cleanupFailure.Some? { return Failed(cleanupFailure.value); }
      if destroyFailure.Some? { return Failed(destroyFailure.value); }
      return pending;
    }

    // ---- the session ----

    /** One admitted session, for every oracle.

        It ends with the receipt removed, replaced by a quarantine, left in place,
        or never taken, exactly as `Fate` says. Removed means that nothing stays behind, except a profile that
        could be neither populated nor discarded. A result or the
        effort-retry signal escapes only then. A guest that arrived is destroyed
        exactly once, and no adapter wait outlasts the cleanup bound. */
    method RunAdmittedSession(o: Oracle) returns (out: Outcome)
      requires log.limit == Limit(request) && log.run == START && Untouched()
      modifies this
      ensures Replay(log.trace) == Some(log.run)
      ensures log.run.pc == Fate(o, request) && out == SessionOutcome(o, request)
      ensures log.run.pc == Released || log.run.pc == Quarantined ==> GuestEnded(o)
      ensures Count(log.trace, OnGuest(GuestArrived)) == Count(log.trace, OnGuest(DestroyStarted)) <= 1
      ensures log.run.pc == Released ==>
                && Count(log.trace, OnGuest(GuestArrived)) == Count(log.trace, OnGuest(DestroyProved))
                && AuthUndone(log.trace)
                && Undone(log.trace, OnDisk(AuthIssued), OnDisk(StateValidated))
                && Undone(log.trace, OnDisk(Populated), OnDisk(ProfileDiscarded))
                && (Spotless(log.run) <==> !LeavesStray(o))
      ensures Count(log.trace, OnDisk(PopulationStuck)) == 0 <==> !LeavesStray(o)
      ensures !out.Failed? ==> log.run.pc == Released && Count(log.trace, OnGuest(DestroyProved)) == 1
      ensures out.Returned? ==> Count(log.trace, OnDisk(RolloutExported)) > 0
      ensures out.Returned? <==>
                && Answered(o) && !WantsRetry(o, request) && NamesSession(o, request)
                && CleanedUp(o) && o.exported
      ensures out.Returned? ==> o.invoke.doc.session == Some(out.session)
      ensures out.EffortRetry? <==> Answered(o) && WantsRetry(o, request) && CleanedUp(o)
      ensures forall k :: 0 <= k < |log.waits| ==>
                log.waits[k] <= request.deadline + request.policy.term + request.policy.kill
                                + request.policy.pipe + 2.0 * request.policy.quiescence
    {
      GiveUpMeansEnded(o, request);
      OutcomeExactly(o, request);
      out := RunToTheEnd(o);
      DestroyCount(log.trace);
      ExposureEnds(log.trace);
      if log.run.pc == Released {
        ReleasedLeavesNothing(log.trace);
      }
    }

    method RunToTheEnd(o: Oracle) returns (out: Outcome)
      requires log.limit == Limit(request) && log.run == START && Untouched()
      modifies this
      ensures log.limit == Limit(request)
      ensures log.run.pc == Fate(o, request) && out == SessionOutcome(o, request) && log.run.guest != Up
      ensures !out.Failed? ==> log.run.pc == Released && log.run.guest == Gone
      ensures out.Returned? ==> Count(log.trace, OnDisk(RolloutExported)) > 0
      ensures log.run.stray <==> LeavesStray(o)
    {
      if !o.admitted { return Failed(Mismatch); }
      if o.expired { return Failed(Timeout); }
      var held := CreateReceipt(o.create);
      if !held { return Failed(Uncertain); }
      var guest, early := Prepare(o);
      if !guest { return early; }
      out := RunWithGuest(o);
    }

    /** The `try` body and the `finally` block. */
    method RunWithGuest(o: Oracle) returns (out: Outcome)
      requires log.limit == Limit(request) && log.run == START.(pc := Holding, guest := Up) && Untouched()
      modifies this
      ensures log.limit == Limit(request) && log.run.pc == GuestFate(o, request) && log.run.guest != Up
      ensures out == GuestOutcome(o, request)
      ensures !out.Failed? ==> log.run.pc == Released && log.run.guest == Gone
      ensures out.Returned? ==> Count(log.trace, OnDisk(RolloutExported)) > 0
      ensures log.run.stray <==> o.prepared.None? && o.setup.None? && o.population.PopulationLeft?
    {
      var pending := RunBody(o);
      out := Finally(o, pending);
    }

    /** The `try` body, up to what is about to leave it. */
    method RunBody(o: Oracle) returns (pending: Outcome)
      requires log.limit == Limit(request) && log.run == START.(pc := Holding, guest := Up) && Untouched()
      modifies `log, `profile, `bridge, `preAuthFailure, `destroyStarted, `terminalProved, `destroyFailure, `provider
      ensures log.limit == Limit(request) && Mirrors()
      ensures pending == if SetUpFailure(o).Some? then Failed(SetUpFailure(o).value) else InvokeOutcome(o, request)
      ensures (bridge <==> Bridged(o)) && (profile <==> HasProfile(o))
      ensures preAuthFailure == if Issues(o) && IssueStuck(o.auth) then Some(ResultInvalid) else None
      ensures log.run.auth && !bridge ==> preAuthFailure.Some?
      ensures destroyStarted <==> SetUpGood(o) && BodyDestroys(o)
      ensures destroyStarted ==> (terminalProved <==> BodyProved(o))
      ensures destroyStarted && !terminalProved ==> destroyFailure == Some(Uncertain)
      ensures !pending.Failed? ==> terminalProved && bridge
      ensures provider.Some? <==> SetUpGood(o) && BindsSession(o, request)
      ensures pending.Returned? ==> provider == Some(pending.session)
      ensures log.run.stray <==> o.prepared.None? && o.setup.None? && o.population.PopulationLeft?
    {
      var failure := SetUp(o);
      if failure.Some? { return Failed(failure.value); }
      pending := Invoke(o);
    }
  }

  const GRACES: Policy := Graces(1.0, 1.0, 1.0, 1.0)

  const GOOD_CLEAR := ClearCalls(true, true, true)

  const GOOD_DESTROY := DestroyCall(2.0, DestroyReturned(3.0), 4.0)

  /** Everything goes well but the population, which fails and keeps what it wrote. */
  const POPULATION_LEFT := Oracle(
    true, false, CreateCalls(true, false, true, true, false, false, true), OnTime(YieldsGuest(true, 1.0)), 1.0,
    GOOD_CLEAR, GOOD_DESTROY,
    None, None, PopulationLeft, None,
    AuthCalls(true, false, true, true, true), None,
    InvokeHung, true, GOOD_DESTROY,
    1.0, GOOD_DESTROY, false, false,
    true, true, true, Accepted,
    true, true, true,
    QuarantineCalls(true, true, true, true), GOOD_CLEAR)

  /** A session can remove its receipt and leave a profile: its population failed, and
      so did the discard of what it wrote. */
  method StrayAfterRelease() returns (host: Host)
    ensures fresh(host) && host.log.run.pc == Released && host.log.run.stray
  {
    host := new Host(Request(10.0, GRACES, None, false));
    var _ := host.RunAdmittedSession(POPULATION_LEFT);
  }
}
