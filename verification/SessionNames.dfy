/** Session names: the key of a deterministic agent session. */
module SessionNames {
  import opened Options
  import opened Text

  datatype Named = Name(text: string) | UnknownAgent | EmptyRepo | EmptyIssue

  const AGENTS := {"planner", "plan-reviewer", "implementer", "pr-reviewer", "commit-message"}
  const REVIEWERS := {"plan-reviewer", "pr-reviewer"}
  const CYCLE := "plan-reviewer-cycle-"

  /** What the names rest on: the hexadecimal digest of a text, the identifier made of
      a name, and the characters that count as digits. */
  datatype World = World(digest: string -> string, uuid: string -> string, isDigit: char -> bool)

  ghost predicate WorldOk(w: World) {
    && (forall s :: |w.digest(s)| == 64 && HexText(w.digest(s)))
    && (forall c :: '0' <= c <= '9' ==> w.isDigit(c)) && !w.isDigit('_') && !w.isDigit('-')
  }

  // ---- agents ----

  /** Position of the last `-r`, or -1. */
  function LastMark(s: string): (i: int)
    ensures -1 <= i <= |s| - 2 || (i == -1 && |s| < 2)
    ensures i >= 0 ==> s[i] == '-' && s[i + 1] == 'r'
  {
    if |s| < 2 then -1
    else if s[|s| - 2] == '-' && s[|s| - 1] == 'r' then |s| - 2
    else LastMark(s[..|s| - 1])
  }

  predicate Digits(w: World, s: string) {
    s != "" && forall i :: 0 <= i < |s| ==> w.isDigit(s[i])
  }

  predicate Hex(c: char) {
    '0' <= c <= '9' || 'a' <= c <= 'f'
  }

  predicate HexText(s: string) {
    forall i :: 0 <= i < |s| ==> Hex(s[i])
  }

  /** The text form of a UUID: 8, 4, 4, 4 and 12 lower-case hexadecimal digits. */
  predicate UuidShape(s: string) {
    |s| == 36 && forall i :: 0 <= i < 36 ==> if i in {8, 13, 18, 23} then s[i] == '-' else Hex(s[i])
  }

  predicate ValidAgent(w: World, agent: string) {
    || agent in AGENTS
    || (var i := LastMark(agent); i >= 0 && agent[..i] in REVIEWERS && Digits(w, agent[i + 2..]))
    || (CYCLE <= agent && UuidShape(agent[|CYCLE|..]))
  }

  function Decimal(n: nat): (s: string)
    ensures s != "" && forall i :: 0 <= i < |s| ==> '0' <= s[i] <= '9'
  {
    var digit := ['0' + (n % 10) as char];
    if n < 10 then digit else Decimal(n / 10) + digit
  }

  /** The number a decimal text denotes. */
  function Value(s: string): int {
    if s == "" then 0 else 10 * Value(s[..|s| - 1]) + (s[|s| - 1] as int - '0' as int)
  }

  /** The agent of one review round; `None` where it raises. */
  function ReviewerAgent(base: string, iteration: int): Option<string> {
    if base !in REVIEWERS || iteration < 0 then None
    else Some(base + "-r" + Decimal(iteration))
  }

  lemma {:induction false} DecimalValue(n: nat)
    ensures Value(Decimal(n)) == n
  {
    var s := Decimal(n);
    if n < 10 {
      assert s[..|s| - 1] == "" && Value("") == 0;
    } else {
      DecimalValue(n / 10);
      assert s[..|s| - 1] == Decimal(n / 10);
    }
  }

  lemma {:induction false} LastMarkBefore(x: string, d: string)
    requires forall i :: 0 <= i < |d| ==> '0' <= d[i] <= '9'
    ensures LastMark(x + "-r" + d) == |x|
  {
    var s := x + "-r" + d;
    if d != "" {
      LastMarkBefore(x, d[..|d| - 1]);
      assert s[..|s| - 1] == x + "-r" + d[..|d| - 1];
      assert s[|s| - 1] == d[|d| - 1];
    }
  }

  /** The agents there are: the fixed ones, the rounds of a reviewer, and its cycles. */
  lemma ValidAgentExactly(w: World, agent: string)
    requires WorldOk(w)
    ensures ValidAgent(w, agent) <==>
              || agent in {"planner", "plan-reviewer", "implementer", "pr-reviewer", "commit-message"}
              || (exists base, digits :: RoundOf(w, agent, base, digits))
              || (exists a, b, c, d, e :: CycleOf(agent, a, b, c, d, e))
  {
    var i := LastMark(agent);
    if i >= 0 && agent[..i] in REVIEWERS && Digits(w, agent[i + 2..]) {
      assert agent == agent[..i] + "-r" + agent[i + 2..];
      assert RoundOf(w, agent, agent[..i], agent[i + 2..]);
    }
    if base, digits :| RoundOf(w, agent, base, digits) {
      LastMarkDigits(w, base, digits);
      assert agent[..|base|] == base && agent[|base| + 2..] == digits;
    }
    CycleExactly(agent);
  }

  ghost predicate RoundOf(w: World, agent: string, base: string, digits: string) {
    && agent == base + "-r" + digits && (base == "plan-reviewer" || base == "pr-reviewer")
    && digits != "" && forall i :: 0 <= i < |digits| ==> w.isDigit(digits[i])
  }

  ghost predicate HexOf(s: string, n: nat) {
    |s| == n && forall i :: 0 <= i < n ==> '0' <= s[i] <= '9' || 'a' <= s[i] <= 'f'
  }

  ghost predicate CycleOf(agent: string, a: string, b: string, c: string, d: string, e: string) {
    && HexOf(a, 8) && HexOf(b, 4) && HexOf(c, 4) && HexOf(d, 4) && HexOf(e, 12)
    && agent == "plan-reviewer-cycle-" + Dashes(a, b, c, d, e)
  }

  function Dashes(a: string, b: string, c: string, d: string, e: string): string {
    a + (['-'] + (b + (['-'] + (c + (['-'] + (d + (['-'] + e)))))))
  }

  lemma CycleExactly(agent: string)
    ensures (CYCLE <= agent && UuidShape(agent[|CYCLE|..])) <==> exists a, b, c, d, e :: CycleOf(agent, a, b, c, d, e)
  {
    if CYCLE <= agent && UuidShape(agent[|CYCLE|..]) {
      var u := agent[|CYCLE|..];
      UuidParts(u);
      assert agent == CYCLE + u;
      assert CycleOf(agent, u[..8], u[9..13], u[14..18], u[19..23], u[24..]);
    }
    if a, b, c, d, e :| CycleOf(agent, a, b, c, d, e) {
      DashesAreUuid(a, b, c, d, e);
      assert agent[|CYCLE|..] == Dashes(a, b, c, d, e);
    }
  }

  lemma UuidParts(u: string)
    requires UuidShape(u)
    ensures u == Dashes(u[..8], u[9..13], u[14..18], u[19..23], u[24..])
    ensures HexOf(u[..8], 8) && HexOf(u[9..13], 4) && HexOf(u[14..18], 4) && HexOf(u[19..23], 4) && HexOf(u[24..], 12)
  {
  }

  lemma DashesAreUuid(a: string, b: string, c: string, d: string, e: string)
    requires HexOf(a, 8) && HexOf(b, 4) && HexOf(c, 4) && HexOf(d, 4) && HexOf(e, 12)
    ensures UuidShape(Dashes(a, b, c, d, e))
  {
  }

  lemma {:induction false} LastMarkDigits(w: World, x: string, d: string)
    requires WorldOk(w) && forall i :: 0 <= i < |d| ==> w.isDigit(d[i])
    ensures LastMark(x + "-r" + d) == |x|
  {
    var s := x + "-r" + d;
    if d != "" {
      LastMarkDigits(w, x, d[..|d| - 1]);
      assert s[..|s| - 1] == x + "-r" + d[..|d| - 1];
      assert s[|s| - 1] == d[|d| - 1];
      if |d| > 1 {
        assert s[|s| - 2] == d[|d| - 2] != '-';
      }
    }
  }

  /** Each review round has a valid agent of its own. */
  lemma RoundsAreDistinct(w: World, b1: string, n1: int, b2: string, n2: int)
    requires WorldOk(w) && ReviewerAgent(b1, n1).Some? && ReviewerAgent(b2, n2).Some?
    ensures ValidAgent(w, ReviewerAgent(b1, n1).value)
    ensures ReviewerAgent(b1, n1) == ReviewerAgent(b2, n2) <==> b1 == b2 && n1 == n2
  {
    RoundParts(b1, n1);
    RoundParts(b2, n2);
    DecimalValue(n1);
    DecimalValue(n2);
  }

  lemma RoundParts(base: string, n: nat)
    ensures
      var agent := base + "-r" + Decimal(n);
      LastMark(agent) == |base| && agent[..|base|] == base && agent[|base| + 2..] == Decimal(n)
  {
    LastMarkBefore(base, Decimal(n));
  }

  lemma NoUnderscoreInRound(w: World, agent: string, i: nat)
    requires WorldOk(w) && i + 2 <= |agent| && agent[i] == '-' && agent[i + 1] == 'r'
    requires '_' !in agent[..i] && Digits(w, agent[i + 2..])
    ensures '_' !in agent
  {
    var d := agent[i + 2..];
    assert forall k :: 0 <= k < |d| ==> d[k] != '_';
    assert agent == agent[..i] + ['-', 'r'] + agent[i + 2..];
  }

  lemma NoUnderscoreInCycle(head: string, uuid: string)
    requires '_' !in head && UuidShape(uuid)
    ensures '_' !in head + uuid
  {
    assert forall k :: 0 <= k < |uuid| ==> uuid[k] != '_';
  }

  lemma AgentHasNoUnderscore(w: World, agent: string)
    requires WorldOk(w) && ValidAgent(w, agent)
    ensures '_' !in agent
  {
    var i := LastMark(agent);
    if i >= 0 && agent[..i] in REVIEWERS && Digits(w, agent[i + 2..]) {
      NoUnderscoreInRound(w, agent, i);
    } else if agent !in AGENTS {
      NoUnderscoreInCycle(CYCLE, agent[|CYCLE|..]);
      assert agent == CYCLE + agent[|CYCLE|..];
    }
  }

  // ---- models ----

  predicate SafeChar(c: char) {
    'A' <= c <= 'Z' || 'a' <= c <= 'z' || '0' <= c <= '9' || c in "._-"
  }

  function Safe(s: string): string {
    seq(|s|, i requires 0 <= i < |s| => if SafeChar(s[i]) then s[i] else '-')
  }

  /** The model that counts: surrounding white space does not. */
  function Plain(model: Option<string>): string {
    if model.None? then "" else Strip(model.value)
  }

  function Token(w: World, value: string): string {
    if Safe(value) == value then value else Safe(value) + ['~'] + w.digest(value)
  }

  function ModelToken(w: World, model: Option<string>): string {
    if model.None? || model.value == "" then "" else Token(w, Strip(model.value))
  }

  /** The digest tells two texts apart. */
  predicate Apart(f: string -> string, a: string, b: string) {
    f(a) == f(b) ==> a == b
  }

  /** The digest tells two models apart, where it is used for both. */
  predicate ModelsApart(w: World, v1: string, v2: string) {
    Safe(v1) != v1 && Safe(v2) != v2 ==> Apart(w.digest, v1, v2)
  }

  lemma CutAtFirst(x1: string, y1: string, x2: string, y2: string, sep: char)
    requires sep !in x1 && sep !in x2 && x1 + [sep] + y1 == x2 + [sep] + y2
    ensures x1 == x2 && y1 == y2
  {
    IndexOfJoint(x1, y1, sep);
    IndexOfJoint(x2, y2, sep);
    var s := x1 + [sep] + y1;
    assert s[..|x1|] == x1 && s[..|x2|] == x2;
    assert s[|x1| + 1..] == y1 && s[|x2| + 1..] == y2;
  }

  lemma TildeTells(w: World, v: string)
    ensures '~' !in Safe(v) && ('~' in Token(w, v) <==> Safe(v) != v)
  {
    if Safe(v) != v {
      assert Token(w, v)[|Safe(v)|] == '~';
    }
  }

  lemma TokenInjective(w: World, v1: string, v2: string)
    requires ModelsApart(w, v1, v2) && Token(w, v1) == Token(w, v2)
    ensures v1 == v2
  {
    TildeTells(w, v1);
    TildeTells(w, v2);
    if Safe(v1) != v1 {
      CutAtFirst(Safe(v1), w.digest(v1), Safe(v2), w.digest(v2), '~');
    }
  }

  predicate SafeText(s: string) {
    forall i :: 0 <= i < |s| ==> SafeChar(s[i])
  }

  lemma NoUnderscoreFromTilde(safe: string, digest: string)
    requires HexText(digest)
    ensures
      var t := safe + ['~'] + digest;
      forall k :: |safe| <= k < |t| ==> t[k] != '_'
  {
    var t := safe + ['~'] + digest;
    forall k | |safe| <= k < |t| ensures t[k] != '_' {
      if k > |safe| {
        assert t[k] == digest[k - |safe| - 1];
      }
    }
  }

  /** What precedes an underscore in a token is safe text: none is in the digest. */
  lemma TokenPrefixIsSafe(w: World, v: string, s: string, z: string)
    requires WorldOk(w) && Token(w, v) == s + ['_'] + z
    ensures SafeText(s)
  {
    var t := Token(w, v);
    assert t[|s|] == '_';
    NoUnderscoreFromTilde(Safe(v), w.digest(v));
    assert forall i :: 0 <= i < |s| ==> s[i] == t[i] == Safe(v)[i];
  }

  // ---- names ----

  /** The key of a session, as a caller gives it. */
  datatype Key = Key(repo: string, issue: string, agent: string, model: Option<string>)

  function DropHashes(s: string): string {
    if s != "" && s[0] == '#' then DropHashes(s[1..]) else s
  }

  function IssueText(issue: string): string {
    Strip(DropHashes(issue))
  }

  function Tail(token: string): string {
    if token == "" then "" else ['_'] + token
  }

  function NameText(repo: string, issue: string, agent: string, token: string): string {
    repo + ['_'] + (issue + ['_'] + (agent + Tail(token)))
  }

  function SessionName(w: World, k: Key): Named {
    if !ValidAgent(w, k.agent) then UnknownAgent
    else if Strip(k.repo) == "" then EmptyRepo
    else if IssueText(k.issue) == "" then EmptyIssue
    else Name(NameText(Strip(k.repo), IssueText(k.issue), k.agent, ModelToken(w, k.model)))
  }

  /** The same session is meant. */
  predicate SameKey(k1: Key, k2: Key) {
    && Strip(k1.repo) == Strip(k2.repo) && IssueText(k1.issue) == IssueText(k2.issue)
    && k1.agent == k2.agent && Plain(k1.model) == Plain(k2.model)
  }

  /** What a name starts with. */
  function Stem(repo: string, issue: string): string {
    Strip(repo) + ['_'] + IssueText(issue)
  }

  /** Stem `q` is stem `p` and an agent `a`, perhaps with more safe text `s`. */
  predicate ExtendedBy(w: World, p: string, q: string, a: string) {
    ValidAgent(w, a) && q == p + ['_'] + a
  }

  predicate ExtendedFurther(w: World, p: string, q: string, a: string, s: string) {
    ValidAgent(w, a) && SafeText(s) && q == p + ['_'] + (a + ['_'] + s)
  }

  ghost predicate Extends(w: World, p: string, q: string) {
    (exists a :: ExtendedBy(w, p, q, a)) || (exists a, s :: ExtendedFurther(w, p, q, a, s))
  }

  /** Repository and issue can be read off the names: equal stems come from equal
      parts, and neither stem looks like the other with an agent behind it. */
  ghost predicate Unambiguous(w: World, r1: string, i1: string, r2: string, i2: string) {
    && (Stem(r1, i1) == Stem(r2, i2) ==> Strip(r1) == Strip(r2) && IssueText(i1) == IssueText(i2))
    && !Extends(w, Stem(r1, i1), Stem(r2, i2)) && !Extends(w, Stem(r2, i2), Stem(r1, i1))
  }

  /** If both keys have names, these agree exactly if the same session is meant. */
  predicate NamesTell(w: World, k1: Key, k2: Key) {
    SessionName(w, k1).Name? && SessionName(w, k2).Name? && ModelsApart(w, Plain(k1.model), Plain(k2.model)) ==>
      (SessionName(w, k1) == SessionName(w, k2) <==> SameKey(k1, k2))
  }

  lemma TokenOfPlain(w: World, model: Option<string>)
    ensures ModelToken(w, model) == Token(w, Plain(model))
  {
    assert Safe("") == "";
  }

  lemma UnderscoreTells(a: string, t: string)
    requires '_' !in a
    ensures '_' in a + Tail(t) <==> t != ""
  {
    if t != "" {
      assert (a + Tail(t))[|a|] == '_';
    }
  }

  lemma TailJoined(a: string, t: string)
    ensures a + Tail(t) == if t == "" then a else a + ['_'] + t
  {
    if t == "" {
      assert a + "" == a;
    } else {
      assert a + (['_'] + t) == a + ['_'] + t;
    }
  }

  lemma AgentAndToken(a1: string, t1: string, a2: string, t2: string)
    requires '_' !in a1 && '_' !in a2 && a1 + Tail(t1) == a2 + Tail(t2)
    ensures a1 == a2 && t1 == t2
  {
    UnderscoreTells(a1, t1);
    UnderscoreTells(a2, t2);
    TailJoined(a1, t1);
    TailJoined(a2, t2);
    if t1 != "" {
      CutAtFirst(a1, t1, a2, t2, '_');
    }
  }

  lemma SameRepoCut(r: string, y1: string, y2: string)
    requires r + ['_'] + y1 == r + ['_'] + y2
    ensures y1 == y2
  {
    assert (r + ['_'] + y1)[|r| + 1..] == y1 && (r + ['_'] + y2)[|r| + 1..] == y2;
  }

  lemma NameOfStem(r: string, i: string, a: string, t: string)
    ensures NameText(r, i, a, t) == r + ['_'] + i + ['_'] + (a + Tail(t))
  {
    var y := a + Tail(t);
    assert r + ['_'] + (i + ['_'] + y) == r + ['_'] + i + ['_'] + y;
  }

  lemma LongerStem(p: string, y: string, q: string, z: string)
    requires p + ['_'] + y == q + ['_'] + z && |p| < |q|
    ensures
      var x := q[|p| + 1..];
      q == p + ['_'] + x && y == x + ['_'] + z
  {
    var s := p + ['_'] + y;
    assert s[..|p|] == p && s[..|q|] == q && s[|p|] == '_' && s[|p| + 1..] == y;
    assert q[..|p|] == s[..|q|][..|p|] == p && q[|p|] == s[|p|];
    var x := q[|p| + 1..];
    assert q == p + ['_'] + x;
    assert p + ['_'] + y == p + ['_'] + (x + ['_'] + z);
    SameRepoCut(p, y, x + ['_'] + z);
  }

  /** Two cuts of one text, the first at its first underscore. */
  lemma LaterCut(a: string, t: string, x: string, z: string) returns (s: string)
    requires '_' !in a && '_' in x && a + ['_'] + t == x + ['_'] + z
    ensures x == a + ['_'] + s && t == s + ['_'] + z
  {
    var j := IndexOf(x, '_');
    s := x[j + 1..];
    Parted(x, j);
    CutMoved(x[..j], s, z);
    CutAtFirst(a, t, x[..j], s + ['_'] + z, '_');
  }

  lemma CutMoved(b: string, s: string, z: string)
    ensures b + ['_'] + s + ['_'] + z == b + ['_'] + (s + ['_'] + z)
  {
  }

  /** An agent and a token that read as `x`, an underscore and more: `x` is the agent,
      or begins with it. */
  lemma AgentInFront(w: World, a: string, v: string, x: string, z: string)
    requires WorldOk(w) && ValidAgent(w, a) && a + Tail(Token(w, v)) == x + ['_'] + z
    ensures x == a || (exists s :: SafeText(s) && x == a + ['_'] + s)
  {
    var t := Token(w, v);
    AgentHasNoUnderscore(w, a);
    UnderscoreTells(a, t);
    TailJoined(a, t);
    assert (x + ['_'] + z)[|x|] == '_';
    if '_' in x {
      var s := LaterCut(a, t, x, z);
      TokenPrefixIsSafe(w, v, s, z);
    } else {
      CutAtFirst(a, t, x, z, '_');
    }
  }

  /** With stems of different length, equal names mean that one extends the other. */
  lemma LongerStemExtends(w: World, p: string, a: string, v: string, q: string, z: string)
    requires WorldOk(w) && ValidAgent(w, a) && |p| < |q|
    requires p + ['_'] + (a + Tail(Token(w, v))) == q + ['_'] + z
    ensures Extends(w, p, q)
  {
    var x := q[|p| + 1..];
    LongerStem(p, a + Tail(Token(w, v)), q, z);
    AgentInFront(w, a, v, x, z);
    if x == a {
      assert ExtendedBy(w, p, q, a);
    } else {
      var s :| SafeText(s) && x == a + ['_'] + s;
      assert ExtendedFurther(w, p, q, a, s);
    }
  }

  lemma StemsAgree(w: World, p: string, a1: string, v1: string, q: string, a2: string, v2: string)
    requires WorldOk(w) && ValidAgent(w, a1) && ValidAgent(w, a2) && !Extends(w, p, q) && !Extends(w, q, p)
    requires p + ['_'] + (a1 + Tail(Token(w, v1))) == q + ['_'] + (a2 + Tail(Token(w, v2)))
    ensures p == q && a1 == a2 && Token(w, v1) == Token(w, v2)
  {
    var y1, y2 := a1 + Tail(Token(w, v1)), a2 + Tail(Token(w, v2));
    if |p| < |q| {
      LongerStemExtends(w, p, a1, v1, q, y2);
    } else if |q| < |p| {
      LongerStemExtends(w, q, a2, v2, p, y1);
    }
    assert (p + ['_'] + y1)[..|p|] == p && (q + ['_'] + y2)[..|q|] == q;
    SameRepoCut(p, y1, y2);
    AgentHasNoUnderscore(w, a1);
    AgentHasNoUnderscore(w, a2);
    AgentAndToken(a1, Token(w, v1), a2, Token(w, v2));
  }

  /** How a name reads: repository, issue, agent and, if there is one, the model. Hashes
      before the issue and white space around any part do not count; of a model with
      other characters than letters, digits, dots, dashes and underscores, these become
      dashes and a digest follows. */
  lemma NameReads(w: World, k: Key)
    requires SessionName(w, k).Name?
    ensures
      var v := Plain(k.model);
      var base := Strip(k.repo) + ['_'] + (IssueText(k.issue) + ['_'] + k.agent);
      && (v == "" ==> SessionName(w, k) == Name(base))
      && (v != "" && SafeText(v) ==> SessionName(w, k) == Name(base + ['_'] + v))
      && (!SafeText(v) ==> SessionName(w, k) == Name(base + ['_'] + (Replaced(v) + ['~'] + w.digest(v))))
    ensures forall s :: IssueText(['#'] + s) == IssueText(s)
    ensures k.issue == "" || k.issue[0] != '#' ==> IssueText(k.issue) == Strip(k.issue)
  {
    var v := Plain(k.model);
    TokenOfPlain(w, k.model);
    SafeExactly(v);
    NameJoined(Strip(k.repo), IssueText(k.issue), k.agent, Token(w, v));
    forall s ensures IssueText(['#'] + s) == IssueText(s) {
      assert (['#'] + s)[1..] == s;
    }
  }

  function Replaced(v: string): string {
    seq(|v|, i requires 0 <= i < |v| =>
      if 'A' <= v[i] <= 'Z' || 'a' <= v[i] <= 'z' || '0' <= v[i] <= '9' || v[i] == '.' || v[i] == '_' || v[i] == '-'
      then v[i] else '-')
  }

  lemma SafeExactly(v: string)
    ensures Safe(v) == Replaced(v) && (Safe(v) == v <==> SafeText(v))
  {
    if Safe(v) == v {
      assert forall i :: 0 <= i < |v| ==> v[i] == Safe(v)[i];
    }
  }

  lemma NameJoined(r: string, i: string, a: string, t: string)
    ensures NameText(r, i, a, t) == r + ['_'] + (i + ['_'] + a) + Tail(t)
    ensures t != "" ==> NameText(r, i, a, t) == r + ['_'] + (i + ['_'] + a) + ['_'] + t
  {
    Joined(r, i, a, Tail(t));
    TailJoined(r + ['_'] + (i + ['_'] + a), t);
  }

  lemma Joined(r: string, i: string, a: string, t: string)
    ensures r + ['_'] + (i + ['_'] + (a + t)) == r + ['_'] + (i + ['_'] + a) + t
  {
    assert i + ['_'] + (a + t) == i + ['_'] + a + t;
  }

  /** Two names agree exactly if they are names of the same session. */
  lemma NamesAreInjective(w: World, k1: Key, k2: Key)
    requires WorldOk(w) && Unambiguous(w, k1.repo, k1.issue, k2.repo, k2.issue)
    ensures NamesTell(w, k1, k2)
  {
    TokenOfPlain(w, k1.model);
    TokenOfPlain(w, k2.model);
    var v1, v2 := Plain(k1.model), Plain(k2.model);
    NameOfStem(Strip(k1.repo), IssueText(k1.issue), k1.agent, Token(w, v1));
    NameOfStem(Strip(k2.repo), IssueText(k2.issue), k2.agent, Token(w, v2));
    if SessionName(w, k1).Name? && SessionName(w, k1) == SessionName(w, k2) && ModelsApart(w, v1, v2) {
      StemsAgree(w, Stem(k1.repo, k1.issue), k1.agent, v1, Stem(k2.repo, k2.issue), k2.agent, v2);
      TokenInjective(w, v1, v2);
    }
  }

  lemma SafeModel(m: string)
    requires m != "" && SafeText(m)
    ensures Safe(m) == m && Strip(m) == m
  {
    StripOf(m);
  }

  /** A key with model `m` and a key without one, whose names run together. */
  lemma ModelRunsTogether(w: World, r1: string, i1: string, a: string, m: string, r2: string, i2: string)
    requires Strip(r1) != "" && IssueText(i1) != "" && Strip(r2) != "" && IssueText(i2) != ""
    requires ValidAgent(w, a) && m != "" && SafeText(m)
    requires Stem(r2, i2) + ['_'] + ("planner" + "") == Stem(r1, i1) + ['_'] + (a + (['_'] + m))
    ensures
      var k1, k2 := Key(r1, i1, a, Some(m)), Key(r2, i2, "planner", None);
      !NamesTell(w, k1, k2) && !NamesTell(w, k2, k1)
  {
    SafeModel(m);
    NameOfStem(Strip(r1), IssueText(i1), a, m);
    NameOfStem(Strip(r2), IssueText(i2), "planner", "");
  }

  /** A longer stem shares a name with the shorter one: for the agent behind it. */
  lemma ExtensionCollides(w: World, r1: string, i1: string, r2: string, i2: string) returns (k1: Key, k2: Key)
    requires Extends(w, Stem(r1, i1), Stem(r2, i2))
    requires Strip(r1) != "" && IssueText(i1) != "" && Strip(r2) != "" && IssueText(i2) != ""
    ensures k1.repo == r1 && k1.issue == i1 && k2.repo == r2 && k2.issue == i2
    ensures !NamesTell(w, k1, k2) && !NamesTell(w, k2, k1)
  {
    var a, m := ExtensionModel(w, Stem(r1, i1), Stem(r2, i2));
    k1, k2 := Key(r1, i1, a, Some(m)), Key(r2, i2, "planner", None);
    ModelRunsTogether(w, r1, i1, a, m, r2, i2);
  }

  lemma ExtensionModel(w: World, p: string, q: string) returns (a: string, m: string)
    requires Extends(w, p, q)
    ensures ValidAgent(w, a) && m != "" && SafeText(m)
    ensures q + ['_'] + ("planner" + "") == p + ['_'] + (a + (['_'] + m))
  {
    PlannerIsSafe();
    if x :| ExtendedBy(w, p, q, x) {
      a, m := x, "planner";
      NameBehind(p, a, q, m);
    } else {
      var s;
      a, s :| ExtendedFurther(w, p, q, a, s);
      m := s + (['_'] + "planner");
      SafeBehind(s, "planner");
      NameFurtherBehind(p, a, s, q, "planner");
    }
  }

  lemma PlannerIsSafe()
    ensures SafeText("planner")
  {
  }

  lemma SafeBehind(s: string, name: string)
    requires SafeText(s) && SafeText(name)
    ensures SafeText(s + (['_'] + name))
  {
  }

  lemma NameBehind(p: string, a: string, q: string, name: string)
    requires q == p + ['_'] + a
    ensures q + ['_'] + (name + "") == p + ['_'] + (a + (['_'] + name))
  {
    assert name + "" == name;
  }

  lemma NameFurtherBehind(p: string, a: string, s: string, q: string, name: string)
    requires q == p + ['_'] + (a + ['_'] + s)
    ensures q + ['_'] + (name + "") == p + ['_'] + (a + (['_'] + (s + (['_'] + name))))
  {
    NameBehind(p, a + ['_'] + s, q, name);
    assert a + ['_'] + s + (['_'] + name) == a + (['_'] + (s + (['_'] + name)));
  }

  lemma EqualStemsCollide(w: World, r1: string, i1: string, r2: string, i2: string)
    requires Stem(r1, i1) == Stem(r2, i2) && (Strip(r1) != Strip(r2) || IssueText(i1) != IssueText(i2))
    requires Strip(r1) != "" && IssueText(i1) != "" && Strip(r2) != "" && IssueText(i2) != ""
    ensures !NamesTell(w, Key(r1, i1, "planner", None), Key(r2, i2, "planner", None))
  {
    NameOfStem(Strip(r1), IssueText(i1), "planner", "");
    NameOfStem(Strip(r2), IssueText(i2), "planner", "");
    assert Safe("") == "";
  }

  /** For two repositories and issues, names are injective in everything else exactly
      if the two are unambiguous. */
  lemma NamesInjectiveExactly(w: World, r1: string, i1: string, r2: string, i2: string)
    requires WorldOk(w) && Strip(r1) != "" && IssueText(i1) != "" && Strip(r2) != "" && IssueText(i2) != ""
    ensures
      (forall a1, m1, a2, m2 :: NamesTell(w, Key(r1, i1, a1, m1), Key(r2, i2, a2, m2))) <==> Unambiguous(w, r1, i1, r2, i2)
  {
    if Unambiguous(w, r1, i1, r2, i2) {
      forall a1, m1, a2, m2 ensures NamesTell(w, Key(r1, i1, a1, m1), Key(r2, i2, a2, m2)) {
        NamesAreInjective(w, Key(r1, i1, a1, m1), Key(r2, i2, a2, m2));
      }
    } else if Extends(w, Stem(r1, i1), Stem(r2, i2)) {
      var k1, k2 := ExtensionCollides(w, r1, i1, r2, i2);
      assert k1 == Key(r1, i1, k1.agent, k1.model) && k2 == Key(r2, i2, k2.agent, k2.model);
    } else if Extends(w, Stem(r2, i2), Stem(r1, i1)) {
      var k2, k1 := ExtensionCollides(w, r2, i2, r1, i1);
      assert k1 == Key(r1, i1, k1.agent, k1.model) && k2 == Key(r2, i2, k2.agent, k2.model);
    } else {
      EqualStemsCollide(w, r1, i1, r2, i2);
    }
  }

  /** One repository and one issue are never ambiguous, whatever they hold. */
  lemma SameIssueUnambiguous(w: World, repo: string, issue: string)
    ensures Unambiguous(w, repo, issue, repo, issue)
  {
  }

  /** Nor are issues without an underscore in one repository, or in two without one. */
  lemma PlainIssuesUnambiguous(w: World, r1: string, i1: string, r2: string, i2: string)
    requires '_' !in IssueText(i1) && '_' !in IssueText(i2)
    requires Strip(r1) == Strip(r2) || ('_' !in Strip(r1) && '_' !in Strip(r2))
    ensures Unambiguous(w, r1, i1, r2, i2)
  {
    PlainNotExtended(w, Strip(r1), IssueText(i1), Strip(r2), IssueText(i2));
    PlainNotExtended(w, Strip(r2), IssueText(i2), Strip(r1), IssueText(i1));
    if Stem(r1, i1) == Stem(r2, i2) {
      if Strip(r1) == Strip(r2) {
        SameRepoCut(Strip(r1), IssueText(i1), IssueText(i2));
      } else {
        CutAtFirst(Strip(r1), IssueText(i1), Strip(r2), IssueText(i2), '_');
      }
    }
  }

  lemma PlainNotExtended(w: World, r1: string, i1: string, r2: string, i2: string)
    requires '_' !in i2 && (r1 == r2 || ('_' !in r1 && '_' !in r2))
    ensures !Extends(w, r1 + ['_'] + i1, r2 + ['_'] + i2)
  {
    forall y ensures r2 + ['_'] + i2 != r1 + ['_'] + i1 + ['_'] + y {
      LongerIssue(r1, i1, r2, i2, y);
    }
  }

  lemma LongerIssue(r1: string, i1: string, r2: string, i2: string, y: string)
    requires r1 == r2 || ('_' !in r1 && '_' !in r2)
    ensures r2 + ['_'] + i2 == r1 + ['_'] + i1 + ['_'] + y ==> '_' in i2
  {
    var rest := i1 + ['_'] + y;
    if r2 + ['_'] + i2 == r1 + ['_'] + i1 + ['_'] + y {
      assert r1 + ['_'] + i1 + ['_'] + y == r1 + ['_'] + rest;
      if r1 == r2 {
        SameRepoCut(r1, i2, rest);
      } else {
        CutAtFirst(r2, i2, r1, rest, '_');
      }
      assert rest[|i1|] == '_';
    }
  }

  lemma StripOf(s: string)
    requires s != "" && !IsSpace(s[0]) && !IsSpace(s[|s| - 1])
    ensures Strip(s) == s
  {
    assert Spaces(s) == 0 && s[0..] == s;
  }

  /** Plain text: nothing in it is stripped. */
  predicate Unstripped(s: string) {
    s != "" && !IsSpace(s[0]) && !IsSpace(s[|s| - 1]) && s[0] != '#'
  }

  lemma NameOfPlain(w: World, repo: string, issue: string, agent: string, model: Option<string>)
    requires Unstripped(repo) && Unstripped(issue) && ValidAgent(w, agent)
    ensures SessionName(w, Key(repo, issue, agent, model)) == Name(NameText(repo, issue, agent, ModelToken(w, model)))
    ensures Strip(repo) == repo && IssueText(issue) == issue
  {
    StripOf(repo);
    StripOf(issue);
  }

  /** With underscores the parts run together. Between repository and issue: `x_y` and
      `z` have the name of `x` and `y_z`. */
  lemma RepoUnderscoreCollides(w: World, x: string, y: string, z: string, agent: string, model: Option<string>)
    requires Unstripped(x) && Unstripped(y) && Unstripped(z) && ValidAgent(w, agent)
    ensures
      var k1, k2 := Key(x + ['_'] + y, z, agent, model), Key(x, y + ['_'] + z, agent, model);
      SessionName(w, k1).Name? && SessionName(w, k1) == SessionName(w, k2) && !SameKey(k1, k2)
  {
    var xy, yz := x + ['_'] + y, y + ['_'] + z;
    Regrouped(x, y, z, agent, ModelToken(w, model));
    UnderscoredIsPlain(x, y);
    UnderscoredIsPlain(y, z);
    NameOfPlain(w, xy, z, agent, model);
    NameOfPlain(w, x, yz, agent, model);
  }

  lemma UnderscoredIsPlain(x: string, y: string)
    requires Unstripped(x) && Unstripped(y)
    ensures Unstripped(x + ['_'] + y) && x + ['_'] + y != x
  {
    var s := x + ['_'] + y;
    assert s[0] == x[0] && s[|s| - 1] == y[|y| - 1];
  }

  lemma Regrouped(x: string, y: string, z: string, agent: string, token: string)
    ensures NameText(x + ['_'] + y, z, agent, token) == NameText(x, y + ['_'] + z, agent, token)
  {
    var rest := agent + Tail(token);
    assert (x + ['_'] + y) + ['_'] + (z + ['_'] + rest) == x + ['_'] + ((y + ['_'] + z) + ['_'] + rest);
  }

  /** Within one repository, between issue and model: an issue that ends in a first
      agent has the name of the shorter issue, that agent, and the second as its model. */
  lemma IssueUnderscoreCollides(w: World, repo: string, issue: string, first: string, second: string)
    requires Unstripped(repo) && Unstripped(issue)
    requires ValidAgent(w, first) && ValidAgent(w, second) && Unstripped(first) && Unstripped(second)
    requires Safe(second) == second
    ensures
      var k1, k2 := Key(repo, issue + ['_'] + first, second, None), Key(repo, issue, first, Some(second));
      SessionName(w, k1).Name? && SessionName(w, k1) == SessionName(w, k2) && !SameKey(k1, k2)
  {
    var longer := issue + ['_'] + first;
    UnderscoredIsPlain(issue, first);
    NameOfPlain(w, repo, longer, second, None);
    NameOfPlain(w, repo, issue, first, Some(second));
    StripOf(second);
    RegroupedInTail(issue, first, second);
  }

  lemma RegroupedInTail(issue: string, first: string, second: string)
    requires second != ""
    ensures issue + ['_'] + (first + Tail(second)) == (issue + ['_'] + first) + ['_'] + (second + Tail(""))
  {
    assert issue + ['_'] + (first + (['_'] + second)) == (issue + ['_'] + first) + ['_'] + (second + "");
  }

  // ---- identifiers ----

  function SessionUuid(w: World, k: Key, checkout: string): Option<string> {
    var name := SessionName(w, k);
    if name.Name? then Some(w.uuid(name.text + "@" + w.digest(checkout))) else None
  }

  /** The text an identifier is made of. */
  function UuidSeed(w: World, k: Key, checkout: string): string
    requires SessionName(w, k).Name?
  {
    SessionName(w, k).text + "@" + w.digest(checkout)
  }

  /** An identifier belongs to one session in one checkout. */
  lemma UuidsAreInjective(w: World, k1: Key, c1: string, k2: Key, c2: string)
    requires WorldOk(w) && SessionName(w, k1).Name? && SessionName(w, k2).Name?
    requires Unambiguous(w, k1.repo, k1.issue, k2.repo, k2.issue)
    requires ModelsApart(w, Plain(k1.model), Plain(k2.model)) && Apart(w.digest, c1, c2)
    requires Apart(w.uuid, UuidSeed(w, k1, c1), UuidSeed(w, k2, c2))
    ensures SessionUuid(w, k1, c1) == SessionUuid(w, k2, c2) <==> SameKey(k1, k2) && c1 == c2
  {
    NamesAreInjective(w, k1, k2);
    var n1, n2 := SessionName(w, k1).text, SessionName(w, k2).text;
    if UuidSeed(w, k1, c1) == UuidSeed(w, k2, c2) {
      var seed := UuidSeed(w, k1, c1);
      assert seed[..|seed| - 65] == n1 && seed[..|seed| - 65] == n2;
      assert seed[|seed| - 64..] == w.digest(c1) && seed[|seed| - 64..] == w.digest(c2);
    }
  }

  /** An identifier is made of the name, an at sign and the digest of the checkout. */
  lemma UuidReads(w: World, k: Key, checkout: string)
    ensures SessionUuid(w, k, checkout).Some? <==> SessionName(w, k).Name?
    ensures SessionName(w, k).Name? ==>
              SessionUuid(w, k, checkout) == Some(w.uuid(SessionName(w, k).text + (['@'] + w.digest(checkout))))
  {
    if SessionName(w, k).Name? {
      var n, d := SessionName(w, k).text, w.digest(checkout);
      assert n + "@" + d == n + (['@'] + d);
    }
  }

  /** Which keys have no name, and why. */
  lemma NamelessExactly(w: World, k: Key)
    ensures SessionName(w, k).UnknownAgent? <==> !ValidAgent(w, k.agent)
    ensures SessionName(w, k).EmptyRepo? <==> ValidAgent(w, k.agent) && Strip(k.repo) == ""
    ensures SessionName(w, k).EmptyIssue? <==> ValidAgent(w, k.agent) && Strip(k.repo) != "" && IssueText(k.issue) == ""
  {
  }

  /** Two rounds of one review never share a name, whatever the key holds. */
  lemma RoundsHaveOwnNames(w: World, k: Key, base: string, n1: nat, n2: nat)
    requires WorldOk(w) && base in REVIEWERS && n1 != n2
    ensures
      var k1, k2 := k.(agent := ReviewerAgent(base, n1).value), k.(agent := ReviewerAgent(base, n2).value);
      SessionName(w, k1).Name? ==> SessionName(w, k2).Name? && SessionName(w, k1) != SessionName(w, k2)
  {
    var a1, a2 := ReviewerAgent(base, n1).value, ReviewerAgent(base, n2).value;
    RoundsAreDistinct(w, base, n1, base, n2);
    RoundsAreDistinct(w, base, n2, base, n1);
    var r, i, t := Strip(k.repo), IssueText(k.issue), Tail(ModelToken(w, k.model));
    if r + ['_'] + (i + ['_'] + (a1 + t)) == r + ['_'] + (i + ['_'] + (a2 + t)) {
      SameRepoCut(r, i + ['_'] + (a1 + t), i + ['_'] + (a2 + t));
      SameRepoCut(i, a1 + t, a2 + t);
      SameTailCut(a1, a2, t);
    }
  }

  lemma SameTailCut(a1: string, a2: string, t: string)
    requires a1 + t == a2 + t
    ensures a1 == a2
  {
    var s := a1 + t;
    assert |a1| == |a2| && s[..|a1|] == a1 && s[..|a2|] == a2;
  }
}
