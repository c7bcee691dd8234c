/** Invocations with a fallback model, and the sessions they run in. */
module ModelFallback {
  import opened Options
  import opened Text
  import opened SessionNames

  // ---- model references ----

  /** Characters a reference must not hold. */
  predicate Control(s: string) {
    exists i :: 0 <= i < |s| && s[i] as int < 32 && !IsSpace(s[i])
  }

  /** The control characters that are no white space, by their codes. */
  lemma ControlExactly(s: string)
    ensures Control(s) <==> exists i :: 0 <= i < |s| && (s[i] as int <= 8 || 14 <= s[i] as int <= 27)
  {
  }

  /** A stripped text as a model and, after the last colon, an effort. */
  function Rejoined(value: string): string {
    CutAt(value, LastIndexOf(value, ':'))
  }

  function CutAt(value: string, i: nat): string {
    if i < |value| then WithParts(value, value[..i], value[i + 1..]) else value
  }

  function WithParts(value: string, before: string, after: string): string {
    if Strip(after) != "" then Strip(before) + [':'] + Strip(after) else value
  }

  /** The canonical reference. */
  function Reference(text: string): string {
    Rejoined(Strip(text))
  }

  /** The model of a canonical reference. */
  function ModelPart(reference: string): string {
    var i := LastIndexOf(reference, ':');
    if i < |reference| && reference[i + 1..] != "" then reference[..i] else reference
  }

  function BaseModel(text: string): string {
    ModelPart(Reference(text))
  }

  /** A reference without a colon is its own model. */
  lemma PlainReads(base: string)
    requires Stripped(base) && ':' !in base
    ensures BaseModel(base) == Reference(base) == base
  {
    StripIsStripped(base);
    WithoutEffort(base);
  }

  /** What follows the last colon is an effort, if it is not blank. */
  lemma EffortReads(base: string, effort: string)
    requires Stripped(base) && ':' !in effort && !Blank(effort) && Stripped(base + [':'] + effort)
    ensures Reference(base + [':'] + effort) == base + [':'] + Strip(effort)
    ensures BaseModel(base + [':'] + effort) == base
  {
    StripIsStripped(base);
    StripIsStripped(effort);
    StripNotBlank(effort);
    ReferenceRejoins(base + [':'] + effort);
    RejoinedReads(base, effort);
    WithEffort(base, Strip(effort), effort);
  }

  lemma ReferenceRejoins(text: string)
    requires Stripped(text)
    ensures Reference(text) == Rejoined(text)
  {
    StripIsStripped(text);
  }

  lemma CutSides(base: string, effort: string)
    ensures
      var text := base + [':'] + effort;
      |base| < |text| && text[..|base|] == base && text[|base| + 1..] == effort
  {
  }

  lemma RejoinedReads(base: string, effort: string)
    requires ':' !in effort && Strip(base) == base && Strip(effort) != ""
    ensures Rejoined(base + [':'] + effort) == base + [':'] + Strip(effort)
  {
    LastIndexJoint(base, effort, ':');
    CutSides(base, effort);
    PartsAt(base + [':'] + effort, |base|, base, effort);
  }

  lemma PartsAt(text: string, n: nat, before: string, after: string)
    requires n < |text| && text[..n] == before && text[n + 1..] == after
    ensures CutAt(text, n) == WithParts(text, before, after)
  {
  }

  /** A colon at the end belongs to the model. */
  lemma ColonReads(base: string)
    requires Stripped(base + [':'])
    ensures BaseModel(base + [':']) == Reference(base + [':']) == base + [':']
  {
    var text := base + [':'];
    StripIsStripped(text);
    LastIndexJoint(base, "", ':');
    assert text + "" == text && text[|base| + 1..] == "";
    StripNotBlank("");
    WithoutEffort(text);
  }

  lemma StripNotBlank(s: string)
    ensures Strip(s) == "" <==> Blank(s)
  {
    if Blank(s) {
      SpacesOfBlank(s);
    } else if Strip(s) == "" {
      BlankStrips(s);
    }
  }

  // ---- requests ----

  datatype Request = Request(
    repo: string, issue: string, agent: string, checkout: string,
    model: string, fallback: Option<string>, lifecycle: Option<string>, requireNew: bool, json: bool)

  function Dashed(s: string): string {
    seq(|s|, i requires 0 <= i < |s| => if s[i] == '_' then '-' else s[i])
  }

  predicate Lifecycle(q: Request, name: string) {
    q.lifecycle.Some? && Dashed(q.lifecycle.value) == name
  }

  /** The references can be read at all. */
  predicate Readable(q: Request) {
    !Control(q.model) && (q.fallback.Some? ==> !Control(q.fallback.value))
  }

  function Fallback(q: Request): string {
    if q.fallback.None? then "" else Reference(BaseModel(q.fallback.value))
  }

  /** No other model may stand in for the requested one. */
  predicate Strict(q: Request) {
    Fallback(q) == "" || Lifecycle(q, "start-new") || Lifecycle(q, "resume-required")
  }

  // ---- one attempt ----

  datatype Reply = Exit0(stdout: string) | ExitNonzero(stderr: string, stdout: string) | TimedOut

  /** What an attempt meets: whether a transcript exists, and what the program replies. */
  datatype Answer = Answer(transcript: bool, reply: Reply)

  datatype Outcome = Returned(stdout: string, sid: string) | CalledProcessError(stderr: string, stdout: string) | Raised

  /** One start of the program. */
  datatype Command = Command(create: bool, sid: string, key: Key, checkout: string)

  /** Everything outside: names, answers by attempt, and how a cap is recognized. */
  datatype Outside = Outside(world: World, answers: nat -> Answer, cap: string -> bool, envelope: string -> Option<string>)

  /** `attempts` lists the models tried, `records` the models recorded as capped. */
  datatype State = State(capped: set<string>, attempts: seq<string>, commands: seq<Command>, records: seq<string>)

  function KeyOf(q: Request, model: string): Key {
    Key(q.repo, q.issue, q.agent, Some(model))
  }

  predicate Lost(q: Request, create: bool) {
    || (Lifecycle(q, "resume-required") && create)
    || (Lifecycle(q, "start-new") && q.requireNew && !create)
  }

  /** The attempt starts the program. */
  predicate Starts(o: Outside, q: Request, model: string, answer: Answer) {
    SessionName(o.world, KeyOf(q, model)).Name? && !Lost(q, !answer.transcript)
  }

  function CommandOf(o: Outside, q: Request, model: string, answer: Answer): Command
    requires Starts(o, q, model, answer)
  {
    var key := KeyOf(q, model);
    Command(!answer.transcript, SessionUuid(o.world, key, q.checkout).value, key, q.checkout)
  }

  function OutcomeOf(o: Outside, q: Request, model: string, answer: Answer): Outcome {
    if !Starts(o, q, model, answer) then Raised
    else
      match answer.reply
      case Exit0(stdout) => Returned(stdout, CommandOf(o, q, model, answer).sid)
      case ExitNonzero(stderr, stdout) => CalledProcessError(stderr, stdout)
      case TimedOut => Raised
  }

  function AfterAttempt(o: Outside, s: State, q: Request, model: string): State {
    var answer := o.answers(|s.attempts|);
    s.(
      attempts := s.attempts + [model],
      commands := s.commands + if Starts(o, q, model, answer) then [CommandOf(o, q, model, answer)] else [])
  }

  predicate CapText(o: Outside, text: string) {
    text != "" && o.cap(text)
  }

  /** The outcome says that the model is at its usage cap. */
  predicate SaysCapped(o: Outside, q: Request, outcome: Outcome) {
    match outcome
    case Returned(stdout, _) => q.json && o.envelope(stdout).Some? && CapText(o, o.envelope(stdout).value)
    case CalledProcessError(stderr, stdout) => CapText(o, stderr) || CapText(o, stdout)
    case Raised => false
  }

  // ---- one call ----

  /** What a request settles before any attempt. */
  datatype Choice = Choice(model: string, fallback: string, strict: bool)

  function ChoiceOf(q: Request): Choice {
    Choice(BaseModel(q.model), Fallback(q), Strict(q))
  }

  /** The model of the first attempt. */
  function Effective(s: State, c: Choice): string {
    if !c.strict && c.model != c.fallback && c.model in s.capped then c.fallback else c.model
  }

  /** The first attempt meets a cap that the call may evade. */
  predicate Switches(o: Outside, s: State, q: Request, c: Choice) {
    && !c.strict && Effective(s, c) != c.fallback
    && SaysCapped(o, q, OutcomeOf(o, q, Effective(s, c), o.answers(|s.attempts|)))
  }

  function AfterSwitch(o: Outside, s: State, q: Request, model: string, fallback: string): State {
    AfterAttempt(o, s.(capped := s.capped + {model}, records := s.records + [model]), q, fallback)
  }

  function AfterChoice(o: Outside, s: State, q: Request, c: Choice): State {
    var model := Effective(s, c);
    var first := AfterAttempt(o, s, q, model);
    if Switches(o, s, q, c) then AfterSwitch(o, first, q, model, c.fallback) else first
  }

  function AfterCall(o: Outside, s: State, q: Request): State {
    if Readable(q) then AfterChoice(o, s, q, ChoiceOf(q)) else s
  }

  /** What the caller gets: the outcome of the last attempt. */
  function ChoiceOutcome(o: Outside, s: State, q: Request, c: Choice): Outcome {
    if Switches(o, s, q, c) then OutcomeOf(o, q, c.fallback, o.answers(|s.attempts| + 1))
    else OutcomeOf(o, q, Effective(s, c), o.answers(|s.attempts|))
  }

  function CallOutcome(o: Outside, s: State, q: Request): Outcome {
    if Readable(q) then ChoiceOutcome(o, s, q, ChoiceOf(q)) else Raised
  }

  function AfterCalls(o: Outside, s: State, qs: seq<Request>): State {
    if qs == [] then s else AfterCall(o, AfterCalls(o, s, qs[..|qs| - 1]), qs[|qs| - 1])
  }

  /** The number of calls whose references can be read. */
  function Calls(qs: seq<Request>): nat {
    if qs == [] then 0 else Calls(qs[..|qs| - 1]) + if Readable(qs[|qs| - 1]) then 1 else 0
  }

  // ---- the same, said of requests, answers and commands ----

  ghost predicate AsksResume(q: Request) {
    q.lifecycle == Some("resume-required") || q.lifecycle == Some("resume_required")
  }

  ghost predicate AsksNew(q: Request) {
    q.lifecycle == Some("start-new") || q.lifecycle == Some("start_new")
  }

  lemma LifecycleExactly(q: Request)
    ensures Lifecycle(q, "resume-required") <==> AsksResume(q)
    ensures Lifecycle(q, "start-new") <==> AsksNew(q)
  {
    assert Dashed("resume-required") == "resume-required" == Dashed("resume_required");
    assert Dashed("start-new") == "start-new" == Dashed("start_new");
    if q.lifecycle.Some? {
      DashedOnce(q.lifecycle.value, "resume", "required");
      DashedOnce(q.lifecycle.value, "start", "new");
      assert "resume" + ['-'] + "required" == "resume-required" && "resume" + ['_'] + "required" == "resume_required";
      assert "start" + ['-'] + "new" == "start-new" && "start" + ['_'] + "new" == "start_new";
    }
  }

  /** A text that reads as two words and a dash has a dash or an underscore there. */
  lemma DashedOnce(s: string, x: string, y: string)
    requires '-' !in x && '-' !in y
    ensures Dashed(s) == x + ['-'] + y ==> s == x + ['-'] + y || s == x + ['_'] + y
  {
    if Dashed(s) == x + ['-'] + y {
      var n := |x|;
      DashedParts(s, n);
      assert Dashed(s)[..n] == x && Dashed(s)[n] == '-' && Dashed(s)[n + 1..] == y;
      UndashedIs(s[..n], x);
      UndashedIs(s[n + 1..], y);
      Parted(s, n);
    }
  }

  lemma DashedParts(s: string, n: nat)
    requires n < |s|
    ensures Dashed(s)[..n] == Dashed(s[..n]) && Dashed(s)[n + 1..] == Dashed(s[n + 1..])
  {
  }

  lemma UndashedIs(s: string, x: string)
    requires '-' !in x && Dashed(s) == x
    ensures s == x
  {
    assert forall i :: 0 <= i < |s| ==> x[i] == Dashed(s)[i] && x[i] in x;
  }

  /** One attempt: it starts the program if the key has a name and the transcript is as
      the lifecycle demands, and then it creates exactly if there is none. `sids` gives
      the identifier of each model's session. */
  ghost predicate AttemptMeans(
    s: State, q: Request, sids: string -> Option<string>, model: string, answer: Answer, t: State, r: Outcome)
  {
    && t.attempts == s.attempts + [model] && t.capped == s.capped && t.records == s.records
    && if sids(model).Some? && (AsksResume(q) ==> answer.transcript) && (AsksNew(q) && q.requireNew ==> !answer.transcript)
       then
         var sid, key := sids(model).value, Key(q.repo, q.issue, q.agent, Some(model));
         && t.commands == s.commands + [Command(!answer.transcript, sid, key, q.checkout)]
         && (answer.reply.Exit0? ==> r == Returned(answer.reply.stdout, sid))
         && (answer.reply.ExitNonzero? ==> r == CalledProcessError(answer.reply.stderr, answer.reply.stdout))
         && (answer.reply.TimedOut? ==> r == Raised)
       else t.commands == s.commands && r == Raised
  }

  /** A usage cap shows in a failed program's streams, or in a JSON error envelope. */
  ghost predicate CapSeen(o: Outside, q: Request, r: Outcome) {
    || (r.CalledProcessError? && ((r.stderr != "" && o.cap(r.stderr)) || (r.stdout != "" && o.cap(r.stdout))))
    || (r.Returned? && q.json && o.envelope(r.stdout).Some?
        && o.envelope(r.stdout).value != "" && o.cap(o.envelope(r.stdout).value))
  }

  /** The first attempt led to `u` and `r1`; after a cap that was seen, one more attempt
      with the fallback follows. */
  ghost predicate TriesMean(
    o: Outside, s: State, q: Request, sids: string -> Option<string>,
    first: string, fallback: string, free: bool, u: State, r1: Outcome, t: State, r: Outcome)
  {
    && AttemptMeans(s, q, sids, first, o.answers(|s.attempts|), u, r1)
    && if free && first != fallback && CapSeen(o, q, r1)
       then AttemptMeans(Noted(u, first), q, sids, fallback, o.answers(|s.attempts| + 1), t, r)
       else t == u && r == r1
  }

  function Noted(s: State, model: string): State {
    s.(capped := s.capped + {model}, records := s.records + [model])
  }

  /** One call that may use the fallback or not: it begins with the model, or with the
      fallback if the model is known to be capped. */
  ghost predicate ChoiceMeans(
    o: Outside, s: State, q: Request, sids: string -> Option<string>,
    model: string, fallback: string, free: bool, t: State, r: Outcome)
  {
    var first := if free && model != fallback && model in s.capped then fallback else model;
    exists u, r1 :: TriesMean(o, s, q, sids, first, fallback, free, u, r1, t, r)
  }

  function Sids(o: Outside, q: Request): string -> Option<string> {
    m => SessionUuid(o.world, Key(q.repo, q.issue, q.agent, Some(m)), q.checkout)
  }

  /** A call, over its request and the answers it meets. */
  ghost predicate CallMeans(o: Outside, s: State, q: Request, t: State, r: Outcome) {
    if Control(q.model) || (q.fallback.Some? && Control(q.fallback.value)) then t == s && r == Raised
    else
      var fallback := if q.fallback.None? then "" else Reference(BaseModel(q.fallback.value));
      var free := fallback != "" && !AsksNew(q) && !AsksResume(q);
      ChoiceMeans(o, s, q, Sids(o, q), BaseModel(q.model), fallback, free, t, r)
  }

  lemma AttemptExactly(o: Outside, s: State, q: Request, model: string)
    ensures
      var answer := o.answers(|s.attempts|);
      AttemptMeans(s, q, Sids(o, q), model, answer, AfterAttempt(o, s, q, model), OutcomeOf(o, q, model, answer))
  {
    LifecycleExactly(q);
  }

  lemma SeenExactly(o: Outside, q: Request, r: Outcome)
    ensures SaysCapped(o, q, r) <==> CapSeen(o, q, r)
  {
  }

  lemma ChoiceExactly(o: Outside, s: State, q: Request, c: Choice)
    ensures ChoiceMeans(o, s, q, Sids(o, q), c.model, c.fallback, !c.strict, AfterChoice(o, s, q, c), ChoiceOutcome(o, s, q, c))
  {
    var first := Effective(s, c);
    var u, r1 := AfterAttempt(o, s, q, first), OutcomeOf(o, q, first, o.answers(|s.attempts|));
    AttemptExactly(o, s, q, first);
    AttemptExactly(o, Noted(u, first), q, c.fallback);
    SeenExactly(o, q, r1);
    TriesAre(o, s, q, c, u, r1);
    assert TriesMean(o, s, q, Sids(o, q), first, c.fallback, !c.strict, u, r1, AfterChoice(o, s, q, c), ChoiceOutcome(o, s, q, c));
  }

  lemma TriesAre(o: Outside, s: State, q: Request, c: Choice, u: State, r1: Outcome)
    requires u == AfterAttempt(o, s, q, Effective(s, c)) && r1 == OutcomeOf(o, q, Effective(s, c), o.answers(|s.attempts|))
    ensures
      if !c.strict && Effective(s, c) != c.fallback && SaysCapped(o, q, r1)
      then
        && AfterChoice(o, s, q, c) == AfterAttempt(o, Noted(u, Effective(s, c)), q, c.fallback)
        && ChoiceOutcome(o, s, q, c) == OutcomeOf(o, q, c.fallback, o.answers(|s.attempts| + 1))
      else AfterChoice(o, s, q, c) == u && ChoiceOutcome(o, s, q, c) == r1
  {
  }

  lemma CallExactly(o: Outside, s: State, q: Request)
    ensures CallMeans(o, s, q, AfterCall(o, s, q), CallOutcome(o, s, q))
  {
    if Readable(q) {
      LifecycleExactly(q);
      ChoiceExactly(o, s, q, ChoiceOf(q));
    }
  }

  /** The process that makes the calls; `capped` is its registry of capped models. */
  class Client {
    const outside: Outside
    var capped: set<string>
    var attempts: seq<string>
    var commands: seq<Command>
    var records: seq<string>

    constructor (outside: Outside)
      ensures this.outside == outside && Now() == State({}, [], [], [])
    {
      this.outside := outside;
      capped, attempts, commands, records := {}, [], [], [];
    }

    function Now(): State
      reads this
    {
      State(capped, attempts, commands, records)
    }

    method RecordModelCap(model: string)
      modifies this
      ensures Now() == old(Now()).(capped := old(capped) + {model}, records := old(records) + [model])
    {
      capped := capped + {model};
      records := records + [model];
    }

    method InvokeOnce(q: Request, model: string) returns (r: Outcome)
      modifies this
      ensures r == OutcomeOf(outside, q, model, outside.answers(|old(attempts)|))
      ensures Now() == AfterAttempt(outside, old(Now()), q, model) && |attempts| == |old(attempts)| + 1
      ensures AttemptMeans(old(Now()), q, Sids(outside, q), model, outside.answers(|old(attempts)|), Now(), r)
    {
      AttemptExactly(outside, Now(), q, model);
      var answer := outside.answers(|attempts|);
      attempts := attempts + [model];
      var key := KeyOf(q, model);
      if !SessionName(outside.world, key).Name? {
        return Raised;
      }
      var sid := SessionUuid(outside.world, key, q.checkout).value;
      var create := !answer.transcript;
      if Lifecycle(q, "resume-required") && create {
        return Raised;
      }
      if Lifecycle(q, "start-new") && q.requireNew && !create {
        return Raised;
      }
      commands := commands + [Command(create, sid, key, q.checkout)];
      match answer.reply
      case Exit0(stdout) => r := Returned(stdout, sid);
      case ExitNonzero(stderr, stdout) => r := CalledProcessError(stderr, stdout);
      case TimedOut => r := Raised;
    }

    /** Records the cap and tries the fallback. */
    method SwitchModel(q: Request, model: string, fallback: string) returns (r: Outcome)
      modifies this
      ensures r == OutcomeOf(outside, q, fallback, outside.answers(|old(attempts)|))
      ensures Now() == AfterSwitch(outside, old(Now()), q, model, fallback)
    {
      RecordModelCap(model);
      r := InvokeOnce(q, fallback);
    }

    method Invoke(q: Request) returns (r: Outcome)
      modifies this
      ensures r == CallOutcome(outside, old(Now()), q)
      ensures Now() == AfterCall(outside, old(Now()), q)
      ensures CallMeans(outside, old(Now()), q, Now(), r)
    {
      CallExactly(outside, Now(), q);
      if !Readable(q) {
        return Raised;
      }
      var model := BaseModel(q.model);
      var fallback := Fallback(q);
      if fallback == "" || Lifecycle(q, "start-new") || Lifecycle(q, "resume-required") {
        r := InvokeOnce(q, model);
      } else {
        r := InvokeWithFallback(q, model, fallback);
      }
    }

    method InvokeWithFallback(q: Request, model: string, fallback: string) returns (r: Outcome)
      modifies this
      ensures r == ChoiceOutcome(outside, old(Now()), q, Choice(model, fallback, false))
      ensures Now() == AfterChoice(outside, old(Now()), q, Choice(model, fallback, false))
    {
      ghost var before := Now();
      var effective := if model != fallback && model in capped then fallback else model;
      r := InvokeOnce(q, effective);
      var evades := false;
      if r.CalledProcessError? {
        evades := effective != fallback && (CapText(outside, r.stderr) || CapText(outside, r.stdout));
      } else if r.Returned? && q.json && effective != fallback {
        var text := outside.envelope(r.stdout);
        evades := text.Some? && CapText(outside, text.value);
      }
      assert evades == Switches(outside, before, q, Choice(model, fallback, false));
      if evades {
        r := SwitchModel(q, effective, fallback);
      }
    }

    method InvokeAll(qs: seq<Request>)
      modifies this
      ensures Now() == AfterCalls(outside, old(Now()), qs)
    {
      for i := 0 to |qs|
        invariant Now() == AfterCalls(outside, old(Now()), qs[..i])
      {
        var _ := Invoke(qs[i]);
        assert qs[..i + 1][..i] == qs[..i];
      }
      assert qs[..|qs|] == qs;
    }
  }

  // ---- the account ----

  /** Nothing is recorded twice, and what is recorded is what is capped. */
  ghost predicate Accounted(s: State) {
    && (forall i, j :: 0 <= i < j < |s.records| ==> s.records[i] != s.records[j])
    && (forall m :: m in s.capped <==> m in s.records)
    && |s.records| == |s.capped|
  }

  /** The models a call tries, and those it records. */
  function Tried(o: Outside, s: State, q: Request, c: Choice): seq<string> {
    [Effective(s, c)] + if Switches(o, s, q, c) then [c.fallback] else []
  }

  function Recorded(o: Outside, s: State, q: Request, c: Choice): seq<string> {
    if Switches(o, s, q, c) then [Effective(s, c)] else []
  }

  lemma CallEffect(o: Outside, s: State, q: Request, c: Choice)
    ensures AfterChoice(o, s, q, c).attempts == s.attempts + Tried(o, s, q, c)
    ensures AfterChoice(o, s, q, c).records == s.records + Recorded(o, s, q, c)
    ensures AfterChoice(o, s, q, c).capped == s.capped + set m | m in Recorded(o, s, q, c)
  {
  }

  /** A recorded model was not recorded before. */
  lemma RecordedIsNew(o: Outside, s: State, q: Request, c: Choice)
    ensures forall m :: m in Recorded(o, s, q, c) ==> m !in s.capped
    ensures |Tried(o, s, q, c)| == |Recorded(o, s, q, c)| + 1
  {
  }

  lemma GrowsBy(known: set<string>, added: seq<string>)
    requires |added| <= 1 && forall m :: m in added ==> m !in known
    ensures |known + set m | m in added| == |known| + |added|
  {
    var all := set m | m in added;
    if added == [] {
      assert all == {} && known + all == known;
    } else {
      assert all == {added[0]};
    }
  }

  lemma AccountGrows(s: State, t: State, added: seq<string>)
    requires Accounted(s) && |added| <= 1 && forall m :: m in added ==> m !in s.capped
    requires t.records == s.records + added && t.capped == s.capped + set m | m in added
    ensures Accounted(t)
  {
    GrowsBy(s.capped, added);
  }

  /** What one call does: one attempt, and one more only after recording a model that
      was not recorded before. A strict call makes one attempt and records nothing. */
  lemma CallAttempts(o: Outside, s: State, q: Request)
    requires Accounted(s)
    ensures
      var t := AfterCall(o, s, q);
      && Accounted(t) && s.capped <= t.capped
      && |t.attempts| + |s.capped| == |s.attempts| + (if Readable(q) then 1 else 0) + |t.capped|
    ensures Strict(q) ==> AfterCall(o, s, q).capped == s.capped && AfterCall(o, s, q).records == s.records
    ensures Strict(q) && Readable(q) ==> AfterCall(o, s, q).attempts == s.attempts + [BaseModel(q.model)]
  {
    if Readable(q) {
      var c := ChoiceOf(q);
      CallEffect(o, s, q, c);
      RecordedIsNew(o, s, q, c);
      GrowsBy(s.capped, Recorded(o, s, q, c));
      AccountGrows(s, AfterCall(o, s, q), Recorded(o, s, q, c));
    }
  }

  /** No call tries a model twice, and what it tries second is the fallback. */
  lemma SecondTryIsFallback(o: Outside, s: State, q: Request)
    requires |AfterCall(o, s, q).attempts| > |s.attempts| + 1
    ensures
      var n, tried := |s.attempts|, AfterCall(o, s, q).attempts;
      |tried| == n + 2 && tried[n] == BaseModel(q.model) != tried[n + 1] == Fallback(q) && tried[n] in AfterCall(o, s, q).capped
  {
    if Readable(q) {
      SecondTry(o, s, q, ChoiceOf(q));
    }
  }

  lemma SecondTry(o: Outside, s: State, q: Request, c: Choice)
    requires |AfterChoice(o, s, q, c).attempts| > |s.attempts| + 1
    ensures
      var n, t := |s.attempts|, AfterChoice(o, s, q, c);
      |t.attempts| == n + 2 && t.attempts[n] == c.model != t.attempts[n + 1] == c.fallback && c.model in t.capped
  {
    CallEffect(o, s, q, c);
    assert Tried(o, s, q, c) == [c.model, c.fallback] && Recorded(o, s, q, c) == [c.model];
  }

  /** Over every run, attempts are calls plus newly capped models, and no model is
      recorded twice. */
  lemma {:induction false} RunAttempts(o: Outside, s: State, qs: seq<Request>)
    requires Accounted(s)
    ensures
      var t := AfterCalls(o, s, qs);
      && Accounted(t) && s.capped <= t.capped
      && |t.attempts| - |s.attempts| == Calls(qs) + |t.capped| - |s.capped|
  {
    if qs != [] {
      var n := |qs| - 1;
      RunAttempts(o, s, qs[..n]);
      CallAttempts(o, AfterCalls(o, s, qs[..n]), qs[n]);
    }
  }

  /** A capped model is tried again only where nothing may stand in for it, or as the
      fallback itself; `s` is the state any earlier calls led to. */
  lemma CappedModelSkipped(o: Outside, s: State, q: Request, m: string, i: nat)
    requires m in s.capped && !Strict(q) && Fallback(q) != m
    requires |s.attempts| <= i < |AfterCall(o, s, q).attempts|
    ensures AfterCall(o, s, q).attempts[i] != m
  {
    if Readable(q) {
      ChoiceSkips(o, s, q, ChoiceOf(q), m, i);
    }
  }

  lemma ChoiceSkips(o: Outside, s: State, q: Request, c: Choice, m: string, i: nat)
    requires m in s.capped && !c.strict && c.fallback != m
    requires |s.attempts| <= i < |AfterChoice(o, s, q, c).attempts|
    ensures AfterChoice(o, s, q, c).attempts[i] != m
  {
    CallEffect(o, s, q, c);
    assert m !in Tried(o, s, q, c);
    assert AfterChoice(o, s, q, c).attempts[i] == Tried(o, s, q, c)[i - |s.attempts|];
  }

  /** A returned identifier is that of the last start, which ran the last model tried. */
  lemma ReturnedSession(o: Outside, s: State, q: Request)
    requires CallOutcome(o, s, q).Returned?
    ensures
      var t := AfterCall(o, s, q);
      && |t.commands| > |s.commands| && t.attempts != []
      && t.commands[|t.commands| - 1].sid == CallOutcome(o, s, q).sid
      && t.commands[|t.commands| - 1].key == KeyOf(q, t.attempts[|t.attempts| - 1])
  {
    var c := ChoiceOf(q);
    var first := AfterAttempt(o, s, q, Effective(s, c));
    if Switches(o, s, q, c) {
      LastAttempt(o, first, q, c.fallback);
    } else {
      LastAttempt(o, s, q, Effective(s, c));
    }
  }

  lemma LastAttempt(o: Outside, s: State, q: Request, model: string)
    ensures
      var t := AfterAttempt(o, s, q, model);
      var outcome := OutcomeOf(o, q, model, o.answers(|s.attempts|));
      t.attempts == s.attempts + [model] && (outcome.Returned? ==> LastStart(t, outcome.sid, KeyOf(q, model)))
  {
  }

  predicate LastStart(t: State, sid: string, key: Key) {
    t.commands != [] && t.commands[|t.commands| - 1].sid == sid && t.commands[|t.commands| - 1].key == key
  }

  lemma AttemptRespects(s: State, q: Request, sids: string -> Option<string>, model: string, answer: Answer, t: State, r: Outcome)
    requires AttemptMeans(s, q, sids, model, answer, t, r)
    ensures s.commands <= t.commands
    ensures forall i :: |s.commands| <= i < |t.commands| ==>
              (AsksResume(q) ==> !t.commands[i].create) && (AsksNew(q) && q.requireNew ==> t.commands[i].create)
  {
  }

  lemma ChoiceRespects(
    o: Outside, s: State, q: Request, sids: string -> Option<string>,
    model: string, fallback: string, free: bool, t: State, r: Outcome)
    requires ChoiceMeans(o, s, q, sids, model, fallback, free, t, r)
    ensures s.commands <= t.commands
    ensures forall i :: |s.commands| <= i < |t.commands| ==>
              (AsksResume(q) ==> !t.commands[i].create) && (AsksNew(q) && q.requireNew ==> t.commands[i].create)
  {
    var first := if free && model != fallback && model in s.capped then fallback else model;
    var u, r1 :| TriesMean(o, s, q, sids, first, fallback, free, u, r1, t, r);
    AttemptRespects(s, q, sids, first, o.answers(|s.attempts|), u, r1);
    if free && first != fallback && CapSeen(o, q, r1) {
      AttemptRespects(Noted(u, first), q, sids, fallback, o.answers(|s.attempts| + 1), t, r);
    }
  }

  /** Every start that a call adds is as its lifecycle demands: a resume for one, a
      creation for the other. */
  lemma LifecycleRespected(o: Outside, s: State, q: Request, t: State, r: Outcome)
    requires CallMeans(o, s, q, t, r)
    ensures forall i :: |s.commands| <= i < |t.commands| ==>
              (AsksResume(q) ==> !t.commands[i].create) && (AsksNew(q) && q.requireNew ==> t.commands[i].create)
  {
    if !Control(q.model) && !(q.fallback.Some? && Control(q.fallback.value)) {
      var fallback := if q.fallback.None? then "" else Reference(BaseModel(q.fallback.value));
      var free := fallback != "" && !AsksNew(q) && !AsksResume(q);
      ChoiceRespects(o, s, q, Sids(o, q), BaseModel(q.model), fallback, free, t, r);
    }
  }

  /** So it is in every run, for every call of it. */
  lemma RunRespectsLifecycles(o: Outside, s: State, before: seq<Request>, q: Request)
    ensures
      var earlier, later := AfterCalls(o, s, before).commands, AfterCalls(o, s, before + [q]).commands;
      forall i :: |earlier| <= i < |later| ==>
        (AsksResume(q) ==> !later[i].create) && (AsksNew(q) && q.requireNew ==> later[i].create)
  {
    assert (before + [q])[..|before|] == before;
    var now := AfterCalls(o, s, before);
    CallExactly(o, now, q);
    LifecycleRespected(o, now, q, AfterCall(o, now, q), CallOutcome(o, now, q));
  }

  /** The program can be started for this request, as far as the lifecycle goes. */
  ghost predicate Permits(q: Request, transcript: bool) {
    (AsksResume(q) ==> transcript) && (AsksNew(q) && q.requireNew ==> !transcript)
  }

  /** And conversely: where the key has a name and the lifecycle is met, the call starts
      the program, and gives back what it printed unless a usage cap may show in it. */
  lemma ChoiceServed(
    o: Outside, s: State, q: Request, sids: string -> Option<string>,
    model: string, fallback: string, free: bool, t: State, r: Outcome)
    requires ChoiceMeans(o, s, q, sids, model, fallback, free, t, r)
    requires sids(model).Some? && (free ==> model !in s.capped) && Permits(q, o.answers(|s.attempts|).transcript)
    ensures |t.commands| > |s.commands|
    ensures t.commands[|s.commands|] ==
              Command(!o.answers(|s.attempts|).transcript, sids(model).value, Key(q.repo, q.issue, q.agent, Some(model)), q.checkout)
    ensures
      var reply := o.answers(|s.attempts|).reply;
      reply.Exit0? && (!free || !q.json || o.envelope(reply.stdout).None?) ==> r == Returned(reply.stdout, sids(model).value)
  {
    var u, r1 :| TriesMean(o, s, q, sids, model, fallback, free, u, r1, t, r);
    var command := Command(!o.answers(|s.attempts|).transcript, sids(model).value, Key(q.repo, q.issue, q.agent, Some(model)), q.checkout);
    assert u.commands == s.commands + [command] && u.commands[|s.commands|] == command;
    if free && model != fallback && CapSeen(o, q, r1) {
      AttemptRespects(Noted(u, model), q, sids, fallback, o.answers(|s.attempts| + 1), t, r);
    }
  }

  lemma CallServed(o: Outside, s: State, q: Request, t: State, r: Outcome)
    requires CallMeans(o, s, q, t, r) && !Control(q.model) && (q.fallback.Some? ==> !Control(q.fallback.value))
    requires Sids(o, q)(BaseModel(q.model)).Some? && Permits(q, o.answers(|s.attempts|).transcript)
    requires AsksResume(q) || AsksNew(q) || q.fallback.None? || BaseModel(q.model) !in s.capped
    ensures |t.commands| > |s.commands| && t.commands[|s.commands|].create == !o.answers(|s.attempts|).transcript
    ensures t.commands[|s.commands|].key.model == Some(BaseModel(q.model))
    ensures
      var reply := o.answers(|s.attempts|).reply;
      reply.Exit0? && (AsksResume(q) || AsksNew(q) || q.fallback.None? || !q.json || o.envelope(reply.stdout).None?) ==>
        r.Returned? && r.stdout == reply.stdout
  {
    var fallback := if q.fallback.None? then "" else Reference(BaseModel(q.fallback.value));
    var free := fallback != "" && !AsksNew(q) && !AsksResume(q);
    ChoiceServed(o, s, q, Sids(o, q), BaseModel(q.model), fallback, free, t, r);
  }

  // ---- sessions ----

  ghost predicate CommandOk(o: Outside, c: Command) {
    && SessionName(o.world, c.key).Name? && SessionUuid(o.world, c.key, c.checkout) == Some(c.sid)
    && c.key.model.Some? && Strip(c.key.model.value) == c.key.model.value
  }

  ghost predicate CommandsOk(o: Outside, s: State) {
    forall i :: 0 <= i < |s.commands| ==> CommandOk(o, s.commands[i])
  }

  predicate Stripped(s: string) {
    s != "" ==> !IsSpace(s[0]) && !IsSpace(s[|s| - 1])
  }

  lemma StripIsStripped(s: string)
    ensures Stripped(Strip(s)) && (Stripped(s) ==> Strip(s) == s)
  {
    var t := s[Spaces(s)..];
    if Strip(s) != "" {
      assert Strip(s)[0] == t[0];
    }
    if Stripped(s) && s != "" {
      StripOf(s);
    }
  }

  lemma LastIndexJoint(x: string, y: string, c: char)
    requires c !in y
    ensures LastIndexOf(x + [c] + y, c) == |x|
  {
    var s := x + [c] + y;
    var i := LastIndexOf(s, c);
    assert s[|x|] == c && s[|x| + 1..] == y;
  }

  lemma StripHolds(s: string, c: char)
    requires c in Strip(s)
    ensures c in s
  {
    var t := s[Spaces(s)..];
    var i :| 0 <= i < |Strip(s)| && Strip(s)[i] == c;
    assert t[i] == c;
  }

  /** A stripped text whose last colon has nothing after it names a model alone. */
  lemma WithoutEffort(value: string)
    requires Stripped(value)
    requires var i := LastIndexOf(value, ':'); i < |value| ==> Blank(value[i + 1..])
    ensures ModelPart(value) == value
  {
    var i := LastIndexOf(value, ':');
    if i < |value| {
      SuffixEnds(value, i + 1);
    }
  }

  lemma SuffixEnds(s: string, i: nat)
    requires i <= |s|
    ensures Blank(s[i..]) ==> i == |s| || IsSpace(s[|s| - 1])
  {
    if i < |s| {
      assert s[i..][|s| - i - 1] == s[|s| - 1];
    }
  }

  lemma BlankStrips(s: string)
    requires Strip(s) == ""
    ensures Blank(s)
  {
    var n := Spaces(s);
    assert Blank(s[..n]) && Blank(s[n..]);
    assert s == s[..n] + s[n..];
  }

  lemma RejoinedIsStripped(value: string)
    requires Stripped(value)
    ensures Stripped(Rejoined(value)) && Stripped(ModelPart(Rejoined(value)))
  {
    var i := LastIndexOf(value, ':');
    if i < |value| {
      var before, after := value[..i], value[i + 1..];
      if Strip(after) != "" {
        StripIsStripped(before);
        StripIsStripped(after);
        WithEffort(Strip(before), Strip(after), after);
      } else {
        BlankStrips(after);
        WithoutEffort(value);
      }
    } else {
      WithoutEffort(value);
    }
  }

  /** A reference and its model carry no white space around them. */
  lemma ReferenceIsStripped(text: string)
    ensures Stripped(Reference(text)) && Stripped(BaseModel(text))
  {
    StripIsStripped(text);
    RejoinedIsStripped(Strip(text));
  }

  lemma WithEffort(base: string, effort: string, after: string)
    requires Stripped(base) && Stripped(effort) && effort == Strip(after) != "" && ':' !in after
    ensures Stripped(base + [':'] + effort) && ModelPart(base + [':'] + effort) == base
  {
    if ':' in effort {
      StripHolds(after, ':');
    }
    var s := base + [':'] + effort;
    LastIndexJoint(base, effort, ':');
    assert s[..|base|] == base && s[|base| + 1..] == effort;
    assert s[0] == if base == "" then ':' else base[0];
    assert s[|s| - 1] == effort[|effort| - 1];
  }

  lemma AttemptKeepsCommands(o: Outside, s: State, q: Request, model: string)
    requires CommandsOk(o, s) && Stripped(model)
    ensures CommandsOk(o, AfterAttempt(o, s, q, model))
  {
    StripIsStripped(model);
  }

  lemma CallKeepsCommands(o: Outside, s: State, q: Request)
    requires CommandsOk(o, s)
    ensures CommandsOk(o, AfterCall(o, s, q))
  {
    ReferenceIsStripped(q.model);
    if q.fallback.Some? {
      ReferenceIsStripped(BaseModel(q.fallback.value));
    }
    ChoiceKeepsCommands(o, s, q, ChoiceOf(q));
  }

  lemma ChoiceKeepsCommands(o: Outside, s: State, q: Request, c: Choice)
    requires CommandsOk(o, s) && Stripped(c.model) && Stripped(c.fallback)
    ensures CommandsOk(o, AfterChoice(o, s, q, c))
  {
    var model := Effective(s, c);
    var first := AfterAttempt(o, s, q, model);
    AttemptKeepsCommands(o, s, q, model);
    var noted := first.(capped := first.capped + {model}, records := first.records + [model]);
    assert CommandsOk(o, noted);
    AttemptKeepsCommands(o, noted, q, c.fallback);
  }

  lemma {:induction false} RunKeepsCommands(o: Outside, s: State, qs: seq<Request>)
    requires CommandsOk(o, s)
    ensures CommandsOk(o, AfterCalls(o, s, qs))
  {
    if qs != [] {
      RunKeepsCommands(o, s, qs[..|qs| - 1]);
      CallKeepsCommands(o, AfterCalls(o, s, qs[..|qs| - 1]), qs[|qs| - 1]);
    }
  }

  /** No digest that two commands rest on collides. */
  predicate NoCollision(w: World, a: Command, b: Command)
    requires SessionName(w, a.key).Name? && SessionName(w, b.key).Name?
  {
    && ModelsApart(w, Plain(a.key.model), Plain(b.key.model)) && Apart(w.digest, a.checkout, b.checkout)
    && Apart(w.uuid, UuidSeed(w, a.key, a.checkout), UuidSeed(w, b.key, b.checkout))
  }

  /** In every run from a new process, two starts on one session run the same model,
      issue and agent. */
  lemma OneModelPerSession(o: Outside, qs: seq<Request>)
    requires WorldOk(o.world)
    ensures SessionsTell(o.world, AfterCalls(o, State({}, [], [], []), qs).commands)
  {
    RunKeepsCommands(o, State({}, [], [], []), qs);
    CommandsTell(o, AfterCalls(o, State({}, [], [], []), qs).commands);
  }

  ghost predicate SessionsTell(w: World, cs: seq<Command>) {
    forall i, j :: 0 <= i < |cs| && 0 <= j < |cs| && cs[i].sid == cs[j].sid ==> SameSession(w, cs[i], cs[j])
  }

  lemma CommandsTell(o: Outside, cs: seq<Command>)
    requires WorldOk(o.world) && forall i :: 0 <= i < |cs| ==> CommandOk(o, cs[i])
    ensures SessionsTell(o.world, cs)
  {
    forall i, j | 0 <= i < |cs| && 0 <= j < |cs| && cs[i].sid == cs[j].sid ensures SameSession(o.world, cs[i], cs[j]) {
      SidTells(o, cs[i], cs[j]);
    }
  }

  /** Where the keys can be told apart and nothing collides, the commands agree. */
  ghost predicate SameSession(w: World, a: Command, b: Command) {
    && SessionName(w, a.key).Name? && SessionName(w, b.key).Name?
    && (Unambiguous(w, a.key.repo, a.key.issue, b.key.repo, b.key.issue) && NoCollision(w, a, b) ==> SameKey(a.key, b.key) && a.key.model == b.key.model)
  }

  lemma SidTells(o: Outside, a: Command, b: Command)
    requires WorldOk(o.world) && CommandOk(o, a) && CommandOk(o, b) && a.sid == b.sid
    ensures SameSession(o.world, a, b)
  {
    if Unambiguous(o.world, a.key.repo, a.key.issue, b.key.repo, b.key.issue) && NoCollision(o.world, a, b) {
      UuidsAreInjective(o.world, a.key, a.checkout, b.key, b.checkout);
    }
  }

  // ---- create once, then resume ----

  ghost predicate Started(s: State, sid: string) {
    exists i :: 0 <= i < |s.commands| && s.commands[i].sid == sid
  }

  /** The attempt finds a transcript exactly if its identifier was started before. */
  ghost predicate SeesHistory(o: Outside, s: State, q: Request, model: string) {
    var answer := o.answers(|s.attempts|);
    Starts(o, q, model, answer) ==> (answer.transcript <==> Started(s, CommandOf(o, q, model, answer).sid))
  }

  ghost predicate CallSeesHistory(o: Outside, s: State, q: Request) {
    Readable(q) ==>
      var c := ChoiceOf(q);
      && SeesHistory(o, s, q, Effective(s, c))
      && (Switches(o, s, q, c) ==> SeesHistory(o, AfterAttempt(o, s, q, Effective(s, c)), q, c.fallback))
  }

  ghost predicate RunSeesHistory(o: Outside, s: State, qs: seq<Request>) {
    qs == [] || (RunSeesHistory(o, s, qs[..|qs| - 1]) && CallSeesHistory(o, AfterCalls(o, s, qs[..|qs| - 1]), qs[|qs| - 1]))
  }

  /** The first start of each identifier creates it, and every later one resumes it. */
  ghost predicate Lineage(s: State) {
    forall i :: 0 <= i < |s.commands| ==> (s.commands[i].create <==> FirstAt(s.commands, i))
  }

  ghost predicate FirstAt(commands: seq<Command>, i: nat)
    requires i < |commands|
  {
    forall j :: 0 <= j < i ==> commands[j].sid != commands[i].sid
  }

  lemma AttemptKeepsLineage(o: Outside, s: State, q: Request, model: string)
    requires Lineage(s) && SeesHistory(o, s, q, model)
    ensures Lineage(AfterAttempt(o, s, q, model))
  {
    var t := AfterAttempt(o, s, q, model);
    forall i | 0 <= i < |t.commands| ensures t.commands[i].create <==> FirstAt(t.commands, i) {
      assert forall j :: 0 <= j < |s.commands| ==> t.commands[j] == s.commands[j];
      if i < |s.commands| {
        assert FirstAt(t.commands, i) <==> FirstAt(s.commands, i);
      }
    }
  }

  lemma CallKeepsLineage(o: Outside, s: State, q: Request)
    requires Lineage(s) && CallSeesHistory(o, s, q)
    ensures Lineage(AfterCall(o, s, q))
  {
    if Readable(q) {
      var c := ChoiceOf(q);
      var model := Effective(s, c);
      var first := AfterAttempt(o, s, q, model);
      AttemptKeepsLineage(o, s, q, model);
      if Switches(o, s, q, c) {
        var noted := first.(capped := first.capped + {model}, records := first.records + [model]);
        assert Lineage(noted) && SeesHistory(o, noted, q, c.fallback);
        AttemptKeepsLineage(o, noted, q, c.fallback);
      }
    }
  }

  /** In every run from a new process that sees its own transcripts, the first start on
      an identifier creates the session and every later one resumes it: each session is
      created exactly once. */
  lemma {:induction false} CreatedOnce(o: Outside, qs: seq<Request>)
    requires RunSeesHistory(o, State({}, [], [], []), qs)
    ensures Lineage(AfterCalls(o, State({}, [], [], []), qs))
  {
    if qs != [] {
      CreatedOnce(o, qs[..|qs| - 1]);
      CallKeepsLineage(o, AfterCalls(o, State({}, [], [], []), qs[..|qs| - 1]), qs[|qs| - 1]);
    }
  }
}
