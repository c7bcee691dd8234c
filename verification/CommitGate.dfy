/** The commit gate, written separately from the title normalizer that must satisfy it. */
module CommitGate {
  import opened Options
  import opened Text
  import opened CommitTitles

  datatype Refusal = EmptySubject | MachinerySubject | MissingPrefix | BlankDescription | EmptyScope | InvalidType

  function DropNewlines(s: string): (t: string)
    ensures t <= s
  {
    if s != "" && s[|s| - 1] == '\n' then DropNewlines(s[..|s| - 1]) else s
  }

  predicate Machinery(s: string) {
    "Merge " <= s || "Revert " <= s || "fixup!" <= s || "squash!" <= s
  }

  /** Newlines at the end do not count. */
  lemma DropNewlinesExactly(s: string)
    ensures DropNewlines(s + ['\n']) == DropNewlines(s)
    ensures s == "" || s[|s| - 1] != '\n' ==> DropNewlines(s) == s
  {
    assert (s + ['\n'])[..|s|] == s;
  }

  /** Git's own subjects begin so. */
  lemma MachineryExactly(s: string)
    ensures Machinery(s) <==>
              exists rest :: s == "Merge " + rest || s == "Revert " + rest || s == "fixup!" + rest || s == "squash!" + rest
  {
    if "Merge " <= s {
      assert s == "Merge " + s[6..];
    }
    if "Revert " <= s {
      assert s == "Revert " + s[7..];
    }
    if "fixup!" <= s {
      assert s == "fixup!" + s[6..];
    }
    if "squash!" <= s {
      assert s == "squash!" + s[7..];
    }
  }

  predicate Ends(s: string, c: char) {
    s != "" && s[|s| - 1] == c
  }

  /** A closing parenthesis, perhaps with a bang, is at the end. */
  predicate Closes(s: string) {
    Ends(s, ')') || (Ends(s, '!') && Ends(s[..|s| - 1], ')'))
  }

  /** The judgement on the text before the first colon. */
  function CheckPrefix(prefix: string): Option<Refusal> {
    if '(' in prefix && Closes(TrimEnd(prefix)) then CheckScope(Core(prefix, TrimEnd(prefix)))
    else CheckType(Core(prefix, prefix))
  }

  /** The text without its last character, if `seen` ends in a bang. */
  function Core(prefix: string, seen: string): string
    requires |seen| <= |prefix|
  {
    if Ends(seen, '!') then prefix[..|prefix| - 1] else prefix
  }

  function CheckScope(core: string): Option<Refusal> {
    var open, close := IndexOf(core, '('), LastIndexOf(core, ')');
    if open >= close || Blank(core[open + 1..close]) then Some(EmptyScope) else CheckType(core[..open])
  }

  function CheckType(token: string): Option<Refusal> {
    if token in ALLOWED then None else Some(InvalidType)
  }

  /** The gate; `None` is acceptance. */
  function Gate(text: string, allowMachinery: bool): Option<Refusal> {
    var subject := DropNewlines(text);
    if Blank(subject) then Some(EmptySubject)
    else if Machinery(subject) then (if allowMachinery then None else Some(MachinerySubject))
    else if ':' !in subject then Some(MissingPrefix)
    else
      var i := IndexOf(subject, ':');
      var message := subject[i + 1..];
      if !Spaced(message) || Blank(message[1..]) then Some(BlankDescription)
      else CheckPrefix(subject[..i])
  }

  predicate Spaced(message: string) {
    message != "" && message[0] == ' '
  }

  // ---- what the gate accepts ----

  /** What may follow the scope: white space, perhaps after one bang. */
  predicate Closing(z: string) {
    ')' !in z && (Blank(z) || (z[0] == '!' && Blank(z[1..])))
  }

  /** A type, a scope in parentheses that is not blank and may hold parentheses. */
  predicate Scoped(prefix: string, t: string, v: string, z: string) {
    t in ALLOWED && !Blank(v) && Closing(z) && prefix == t + ['('] + (v + [')'] + z)
  }

  predicate Unscoped(prefix: string, t: string) {
    t in ALLOWED && (prefix == t || prefix == t + "!")
  }

  ghost predicate PrefixOk(prefix: string) {
    (exists t :: Unscoped(prefix, t)) || (exists t, v, z :: Scoped(prefix, t, v, z))
  }

  ghost predicate SplitAs(s: string, prefix: string, rest: string) {
    s == prefix + [':'] + ([' '] + rest) && ':' !in prefix && !Blank(rest) && PrefixOk(prefix)
  }

  /** A type with or without scope and bang, a colon, a blank and a description. */
  ghost predicate Conventional(s: string) {
    exists prefix, rest :: SplitAs(s, prefix, rest)
  }

  lemma {:induction false} TrimEndCuts(s: string)
    ensures forall i :: |TrimEnd(s)| <= i < |s| ==> IsSpace(s[i])
  {
    if s != "" && IsSpace(s[|s| - 1]) {
      TrimEndCuts(s[..|s| - 1]);
    }
  }

  lemma SuffixHolds(s: string, i: nat, k: nat)
    requires i <= |s| && k < |s|
    ensures i <= k ==> s[k] in s[i..]
  {
    if i <= k {
      assert s[i..][k - i] == s[k];
    }
  }

  lemma LastIndexAt(s: string, c: char, k: nat)
    requires k < |s| && s[k] == c && forall i :: k < i < |s| ==> s[i] != c
    ensures LastIndexOf(s, c) == k
  {
    SuffixHolds(s, LastIndexOf(s, c) + 1, k);
  }

  /** Where the gate finds the scope. */
  lemma ScopeAt(core: string, k: nat)
    requires k < |core| && core[k] == ')' && forall i :: k < i < |core| ==> core[i] != ')'
    ensures
      var open := IndexOf(core, '(');
      CheckScope(core) == None <==> open < k && !Blank(core[open + 1..k]) && core[..open] in ALLOWED
  {
    LastIndexAt(core, ')', k);
  }

  /** The closing parenthesis, and what follows it. */
  function CloseAt(trimmed: string): nat
    requires Closes(trimmed)
  {
    if Ends(trimmed, ')') then |trimmed| - 1 else |trimmed| - 2
  }

  lemma CloseFacts(prefix: string)
    requires Closes(TrimEnd(prefix))
    ensures
      var k, core := CloseAt(TrimEnd(prefix)), Core(prefix, TrimEnd(prefix));
      && k < |core| && core <= prefix && core[k] == ')' && (forall i :: k < i < |core| ==> core[i] != ')')
      && Closing(prefix[k + 1..])
  {
    var trimmed := TrimEnd(prefix);
    var k := CloseAt(trimmed);
    TrimEndCuts(prefix);
    var z := prefix[k + 1..];
    if !Ends(trimmed, ')') {
      assert prefix[k + 1] == trimmed[k + 1] == '!';
      assert forall i :: 0 <= i < |z[1..]| ==> z[1..][i] == prefix[k + 2 + i];
    }
  }

  lemma TwoCuts(s: string, i: nat, k: nat)
    requires i < k < |s|
    ensures s == s[..i] + [s[i]] + (s[i + 1..k] + [s[k]] + s[k + 1..])
  {
  }

  lemma ScopedFrom(prefix: string, core: string, open: nat, k: nat)
    requires core <= prefix && open < k < |core| && core[open] == '(' && core[k] == ')'
    requires core[..open] in ALLOWED && !Blank(core[open + 1..k]) && Closing(prefix[k + 1..])
    ensures PrefixOk(prefix)
  {
    assert core[..open] == prefix[..open] && core[open + 1..k] == prefix[open + 1..k];
    TwoCuts(prefix, open, k);
    assert Scoped(prefix, prefix[..open], prefix[open + 1..k], prefix[k + 1..]);
  }

  lemma ScopedSound(prefix: string, core: string, k: nat)
    requires k < |core| && core <= prefix && core[k] == ')' && (forall i :: k < i < |core| ==> core[i] != ')')
    requires Closing(prefix[k + 1..]) && CheckScope(core) == None
    ensures PrefixOk(prefix)
  {
    ScopeAt(core, k);
    ScopedFrom(prefix, core, IndexOf(core, '('), k);
  }

  lemma TrimmedScope(x: string, z: string)
    requires Ends(x, ')') && Closing(z)
    ensures
      var prefix := x + z;
      && TrimEnd(prefix) == (if Blank(z) then x else x + "!")
      && Closes(TrimEnd(prefix)) && CloseAt(TrimEnd(prefix)) == |x| - 1
  {
    if Blank(z) {
      TrimEndBefore(x, z);
    } else {
      assert x + z == (x + "!") + z[1..];
      TrimEndBefore(x + "!", z[1..]);
      assert (x + "!")[..|x|] == x;
    }
  }

  lemma ScopedParts(prefix: string, x: string, t: string, v: string, z: string)
    requires prefix == t + ['('] + (v + [')'] + z) && x == t + ['('] + (v + [')'])
    ensures prefix == x + z && Ends(x, ')')
    ensures prefix[..|t|] == t && prefix[|t|] == '(' && prefix[|t| + 1..|t| + 1 + |v|] == v
  {
    assert (v + [')'] + z) == (v + [')']) + z;
  }

  lemma ScopePasses(core: string, t: string, k: nat)
    requires t in ALLOWED && |t| < k < |core| && core[..|t|] == t && core[|t|] == '(' && !Blank(core[|t| + 1..k])
    requires core[k] == ')' && forall i :: k < i < |core| ==> core[i] != ')'
    ensures CheckScope(core) == None
  {
    AllowedFacts(t);
    assert forall i :: 0 <= i < |t| ==> core[i] == t[i];
    IndexOfFirst(core, '(', |t|);
    ScopeAt(core, k);
  }

  lemma SamePrefix(core: string, prefix: string, n: nat, k: nat)
    requires core <= prefix && n < k < |core|
    ensures core[..n] == prefix[..n] && core[n] == prefix[n] && core[n + 1..k] == prefix[n + 1..k]
  {
  }

  lemma JudgedByScope(prefix: string, n: nat)
    requires n < |prefix| && prefix[n] == '(' && Closes(TrimEnd(prefix))
    ensures CheckPrefix(prefix) == CheckScope(Core(prefix, TrimEnd(prefix)))
  {
  }

  /** `core` is the text up to the scope's end at `k`, perhaps with more behind it. */
  lemma CorePasses(prefix: string, core: string, t: string, v: string, k: nat)
    requires core <= prefix && k < |core| && core[k] == ')' && forall i :: k < i < |core| ==> core[i] != ')'
    requires t in ALLOWED && !Blank(v) && |t| < k
    requires prefix[..|t|] == t && prefix[|t|] == '(' && prefix[|t| + 1..k] == v
    ensures CheckScope(core) == None
  {
    SamePrefix(core, prefix, |t|, k);
    ScopePasses(core, t, k);
  }

  lemma ScopedComplete(prefix: string, t: string, v: string, z: string)
    requires Scoped(prefix, t, v, z)
    ensures CheckPrefix(prefix) == None
  {
    var x := t + ['('] + (v + [')']);
    var k := |t| + 1 + |v|;
    ScopedParts(prefix, x, t, v, z);
    TrimmedScope(x, z);
    JudgedByScope(prefix, |t|);
    CloseFacts(prefix);
    CorePasses(prefix, Core(prefix, TrimEnd(prefix)), t, v, k);
  }

  lemma UnscopedExact(prefix: string)
    requires !('(' in prefix && Closes(TrimEnd(prefix)))
    ensures CheckPrefix(prefix) == None <==> exists t :: Unscoped(prefix, t)
  {
    if CheckPrefix(prefix) == None {
      var t := Core(prefix, prefix);
      assert Ends(prefix, '!') ==> prefix == t + "!";
      assert Unscoped(prefix, t);
    }
    forall t | Unscoped(prefix, t) ensures CheckPrefix(prefix) == None {
      AllowedFacts(t);
      assert prefix == t + "!" ==> prefix[..|prefix| - 1] == t;
    }
  }

  lemma UnscopedHasNone(prefix: string, t: string)
    requires Unscoped(prefix, t)
    ensures '(' !in prefix
  {
    AllowedFacts(t);
  }

  lemma ScopedPrefixSound(prefix: string)
    requires Closes(TrimEnd(prefix)) && CheckScope(Core(prefix, TrimEnd(prefix))) == None
    ensures PrefixOk(prefix)
  {
    CloseFacts(prefix);
    ScopedSound(prefix, Core(prefix, TrimEnd(prefix)), CloseAt(TrimEnd(prefix)));
  }

  lemma PrefixSound(prefix: string)
    requires CheckPrefix(prefix) == None
    ensures PrefixOk(prefix)
  {
    if '(' in prefix && Closes(TrimEnd(prefix)) {
      ScopedPrefixSound(prefix);
    } else {
      UnscopedExact(prefix);
    }
  }

  lemma UnscopedComplete(prefix: string, t: string)
    requires Unscoped(prefix, t)
    ensures CheckPrefix(prefix) == None
  {
    UnscopedHasNone(prefix, t);
    UnscopedExact(prefix);
  }

  /** The judgement on the text before the colon, read as a grammar. */
  lemma PrefixExact(prefix: string)
    ensures CheckPrefix(prefix) == None <==> PrefixOk(prefix)
  {
    if CheckPrefix(prefix) == None {
      PrefixSound(prefix);
    }
    if t, v, z :| Scoped(prefix, t, v, z) {
      ScopedComplete(prefix, t, v, z);
    } else if t :| Unscoped(prefix, t) {
      UnscopedComplete(prefix, t);
    }
  }

  /** The gate past its first checks. */
  lemma GateAtColon(s: string, prefix: string, message: string)
    requires s == prefix + [':'] + message && ':' !in prefix
    ensures ':' in s && IndexOf(s, ':') == |prefix| && s[..|prefix|] == prefix && s[|prefix| + 1..] == message
  {
    assert s[|prefix|] == ':';
    IndexOfJoint(prefix, message, ':');
  }

  lemma ConventionalAt(s: string, prefix: string, message: string)
    requires s == prefix + [':'] + message && ':' !in prefix
    ensures Conventional(s) <==> Spaced(message) && !Blank(message[1..]) && PrefixOk(prefix)
  {
    GateAtColon(s, prefix, message);
    if Spaced(message) && !Blank(message[1..]) && PrefixOk(prefix) {
      assert message == [' '] + message[1..];
      assert SplitAs(s, prefix, message[1..]);
    }
    forall p, rest | SplitAs(s, p, rest) ensures p == prefix && message == [' '] + rest && message[1..] == rest {
      GateAtColon(s, p, [' '] + rest);
    }
  }

  lemma ConventionalHasColon(s: string)
    ensures Conventional(s) ==> ':' in s
  {
    if prefix, rest :| SplitAs(s, prefix, rest) {
      GateAtColon(s, prefix, [' '] + rest);
    }
  }

  /** The strict gate accepts exactly the conventional subjects that are not git's own;
      the other one accepts git's own as well. */
  lemma GateExact(text: string)
    ensures
      var s := DropNewlines(text);
      && (Gate(text, false) == None <==> !Machinery(s) && Conventional(s))
      && (Gate(text, true) == None <==> Machinery(s) || Conventional(s))
  {
    var s := DropNewlines(text);
    if ':' in s {
      var i := IndexOf(s, ':');
      Parted(s, i);
      ConventionalAt(s, s[..i], s[i + 1..]);
      PrefixExact(s[..i]);
      assert !Blank(s);
    } else {
      ConventionalHasColon(s);
      assert Machinery(s) ==> !IsSpace(s[0]);
    }
  }

  // ---- the gate on normalized titles ----

  lemma WordBeforeBang(s: string, w: string)
    requires AllLower(w)
    ensures w + "!" <= s ==> Letters(s) == |w| && s[..|w|] == w
  {
    if w + "!" <= s {
      var rest := s[|w|..];
      assert rest[0] == (w + "!")[|w|];
      assert s == w + rest;
      LettersBefore(w, rest);
    }
  }

  lemma NotMachinery(kind: string, rest: string)
    requires kind in ALLOWED && rest != "" && !IsLower(rest[0])
    ensures !Machinery(kind + rest)
  {
    AllowedFacts(kind);
    var s := kind + rest;
    LettersBefore(kind, rest);
    assert IsLower(s[0]);
    WordBeforeBang(s, "fixup");
    WordBeforeBang(s, "squash");
    assert "fixup" + "!" == "fixup!" && "squash" + "!" == "squash!";
  }

  /** The text before the colon that the normalizer writes is conventional. */
  lemma HeadIsOk(p: Parts)
    requires Normal(p)
    ensures PrefixOk(Head(p))
  {
    var z := BangText(p.bang);
    if p.scope.Some? {
      assert p.kind + (("(" + (p.scope.value + ")")) + z) == p.kind + ['('] + (p.scope.value + [')'] + z);
      assert Scoped(Head(p), p.kind, p.scope.value, z);
    } else {
      assert Head(p) == p.kind + z;
      assert Unscoped(Head(p), p.kind);
    }
  }

  /** A scope that opens also closes. */
  lemma OpenScopeCloses(prefix: string)
    ensures PrefixOk(prefix) ==> '(' !in prefix || ')' in prefix
  {
    if t :| Unscoped(prefix, t) {
      UnscopedHasNone(prefix, t);
    } else if t, v, z :| Scoped(prefix, t, v, z) {
      ScopedParts(prefix, t + ['('] + (v + [')']), t, v, z);
    }
  }

  lemma ColonFreeConventional(p: Parts)
    requires Normal(p) && !(p.scope.Some? && ':' in p.scope.value)
    ensures Conventional(Written(p))
  {
    AllowedFacts(p.kind);
    HeadIsOk(p);
    assert ':' !in Head(p);
    assert [':'] + ([' '] + p.description) == ": " + p.description;
    assert SplitAs(Written(p), Head(p), p.description);
  }

  /** The colon inside a scope is the first colon of the title. */
  lemma SplitInScope(kind: string, v: string, after: string, j: nat)
    requires j < |v| && v[j] == ':'
    ensures kind + ("(" + (v + after)) == (kind + ("(" + v[..j])) + [':'] + (v[j + 1..] + after)
  {
    assert v == v[..j] + ([':'] + v[j + 1..]);
    assert v + after == v[..j] + ([':'] + (v[j + 1..] + after));
  }

  lemma WrittenInScope(p: Parts) returns (after: string)
    requires p.scope.Some?
    ensures Written(p) == p.kind + ("(" + (p.scope.value + after))
  {
    var k, v, g, d := p.kind, p.scope.value, BangText(p.bang), ": " + p.description;
    after := ")" + (g + d);
    assert (k + (("(" + (v + ")")) + g)) + d == k + ("(" + (v + (")" + (g + d))));
  }

  lemma ColonIsNot(p: Parts)
    requires Normal(p) && p.scope.Some? && ':' in p.scope.value
    ensures !Conventional(Written(p))
  {
    AllowedFacts(p.kind);
    var v := p.scope.value;
    var j := IndexOf(v, ':');
    var after := WrittenInScope(p);
    SplitInScope(p.kind, v, after, j);
    var prefix := p.kind + ("(" + v[..j]);
    assert prefix[|p.kind|] == '(' && ')' !in prefix && ':' !in prefix;
    OpenScopeCloses(prefix);
    ConventionalAt(Written(p), prefix, v[j + 1..] + after);
  }

  /** The gate on a normal title looks only at the scope. */
  lemma GateOnNormal(p: Parts)
    requires Normal(p)
    ensures Gate(Written(p), false) == None <==> !(p.scope.Some? && ':' in p.scope.value)
  {
    WrittenIsTrim(p);
    assert DropNewlines(Written(p)) == Written(p);
    var rest := (ScopeText(p.scope) + BangText(p.bang)) + (": " + p.description);
    assert Written(p) == p.kind + rest;
    NotMachinery(p.kind, rest);
    GateExact(Written(p));
    if p.scope.Some? && ':' in p.scope.value {
      ColonIsNot(p);
    } else {
      ColonFreeConventional(p);
    }
  }

  /** The scope the normalizer keeps, if any. */
  function KeptScope(title: string): Option<string> {
    match Match(OneLine(title))
    case None => None
    case Some(p) => NormalScope(p.scope)
  }

  /** The strict gate accepts a normalized title exactly if its scope has no colon. */
  lemma GateAcceptsNormalized(title: string, fallback: string)
    ensures Gate(Normalize(title, fallback), false) == None <==>
              !(KeptScope(title).Some? && ':' in KeptScope(title).value)
  {
    NormalPartsAreNormal(title, fallback);
    GateOnNormal(NormalParts(title, fallback));
  }

  /** `feat(a:b): c` is its own normalized form, and the gate refuses it. */
  lemma ColonInScopeRefused(fallback: string)
    ensures Normalize("feat(a:b): c", fallback) == "feat(a:b): c"
    ensures Gate("feat(a:b): c", false) != None
  {
    var p := Parts("feat", Some("a:b"), false, "c");
    assert Written(p) == "feat(a:b): c";
    assert "a:b"[0] == 'a' && !Blank("a:b");
    NormalIsKept(p, fallback);
    GateOnNormal(p);
  }
}
