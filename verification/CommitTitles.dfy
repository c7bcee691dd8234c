/** The strict title normalizer. */
module CommitTitles {
  import opened Options
  import opened Text

  const ALLOWED := {"feat", "fix", "docs", "refactor", "test", "chore", "ci", "build", "perf", "style", "revert"}

  predicate IsLower(c: char) {
    'a' <= c <= 'z'
  }

  lemma IsLowerExactly(c: char)
    ensures IsLower(c) <==> c in "abcdefghijklmnopqrstuvwxyz"
  {
    var all := "abcdefghijklmnopqrstuvwxyz";
    assert forall i :: 0 <= i < |all| ==> all[i] as int == 'a' as int + i;
    if IsLower(c) {
      assert all[c as int - 'a' as int] == c;
    }
  }

  predicate AllLower(s: string) {
    forall i :: 0 <= i < |s| ==> IsLower(s[i])
  }

  /** Length of the longest prefix of lower-case letters. */
  function Letters(s: string): (n: nat)
    ensures n <= |s| && (n < |s| ==> !IsLower(s[n]))
    ensures forall i :: 0 <= i < n ==> IsLower(s[i])
  {
    if s == "" || !IsLower(s[0]) then 0 else 1 + Letters(s[1..])
  }

  /** Length of the longest prefix without white space. */
  function WordLength(s: string): (n: nat)
    ensures n <= |s| && (n < |s| ==> IsSpace(s[n]))
    ensures forall i :: 0 <= i < n ==> !IsSpace(s[i])
  {
    if s == "" || IsSpace(s[0]) then 0 else 1 + WordLength(s[1..])
  }

  // ---- one line ----

  /** `s.split()`: the maximal runs without white space. */
  function Words(s: string): (ws: seq<string>)
    ensures forall k :: 0 <= k < |ws| ==> ws[k] != "" && forall i :: 0 <= i < |ws[k]| ==> !IsSpace(ws[k][i])
    decreases |s|
  {
    var t := s[Spaces(s)..];
    var n := WordLength(t);
    if n == 0 then [] else [t[..n]] + Words(t[n..])
  }

  /** `" ".join(s.split())`. */
  function OneLine(s: string): string {
    Join(Words(s), ' ')
  }

  /** No white space but single blanks. */
  ghost predicate Flat(s: string) {
    && (forall i :: 0 <= i < |s| && IsSpace(s[i]) ==> s[i] == ' ')
    && (forall i, j :: 0 <= i < j < |s| && j == i + 1 ==> s[i] != ' ' || s[j] != ' ')
  }

  /** Flat, and neither begins nor ends with a blank. */
  ghost predicate Trim(s: string) {
    Flat(s) && (s != "" ==> !IsSpace(s[0]) && !IsSpace(s[|s| - 1]))
  }

  lemma FlatParts(a: string, b: string)
    requires Flat(a + b)
    ensures Flat(a) && Flat(b)
  {
    var s := a + b;
    assert forall i :: 0 <= i < |a| ==> a[i] == s[i];
    assert forall i :: 0 <= i < |b| ==> b[i] == s[|a| + i];
  }

  lemma FlatJoin(a: string, b: string)
    requires Flat(a) && Flat(b) && (a == "" || b == "" || a[|a| - 1] != ' ' || b[0] != ' ')
    ensures Flat(a + b)
  {
  }

  lemma {:induction false} JoinedWordsAreTrim(ws: seq<string>)
    requires forall k :: 0 <= k < |ws| ==> ws[k] != "" && forall i :: 0 <= i < |ws[k]| ==> !IsSpace(ws[k][i])
    ensures Trim(Join(ws, ' ')) && (ws != [] ==> Join(ws, ' ') != "")
  {
    if |ws| >= 2 {
      var rest := Join(ws[1..], ' ');
      JoinedWordsAreTrim(ws[1..]);
      FlatJoin(ws[0], " ");
      FlatJoin(ws[0] + " ", rest);
    }
  }

  lemma OneLineIsTrim(s: string)
    ensures Trim(OneLine(s))
  {
    JoinedWordsAreTrim(Words(s));
  }

  /** After a blank inside a trimmed text, a trimmed text follows. */
  lemma TrimAfterBlank(s: string, n: nat)
    requires Trim(s) && n < |s| && s[n] == ' '
    ensures n + 1 < |s| && Trim(s[n + 1..]) && !IsSpace(s[n + 1])
  {
    assert s[|s| - 1] != ' ' && n + 1 < |s|;
    var rest := s[n + 1..];
    assert s == s[..n + 1] + rest;
    FlatParts(s[..n + 1], rest);
    assert s[n + 1] != ' ';
    assert rest[0] == s[n + 1] && rest[|rest| - 1] == s[|s| - 1];
  }

  /** A trimmed text is one word, or a word, a blank and a trimmed text. */
  lemma TrimSplits(s: string)
    requires Trim(s) && s != ""
    ensures Spaces(s) == 0 && WordLength(s) > 0
    ensures
      var n := WordLength(s);
      n < |s| ==> n + 1 < |s| && s[n] == ' ' && Trim(s[n + 1..]) && !IsSpace(s[n + 1])
  {
    var n := WordLength(s);
    if n < |s| {
      TrimAfterBlank(s, n);
    }
  }

  lemma WordsSkipBlank(rest: string)
    requires rest != "" && !IsSpace(rest[0])
    ensures Words(" " + rest) == Words(rest)
  {
    var tail := " " + rest;
    assert tail[1..] == rest;
    assert Spaces(tail) == 1 && Spaces(rest) == 0 && rest[0..] == rest;
  }

  lemma WordsStep(s: string)
    requires Spaces(s) == 0 && WordLength(s) > 0
    ensures Words(s) == [s[..WordLength(s)]] + Words(s[WordLength(s)..])
  {
    assert s[0..] == s;
  }

  lemma LastWord(s: string)
    requires WordLength(s) == |s| > 0
    ensures Words(s) == [s] == Split(s, ' ')
  {
    IndexOfFirst(s, ' ', |s|);
    WordsStep(s);
    assert s[..|s|] == s && s[|s|..] == "" && Words("") == [];
  }

  lemma SplitStep(s: string, sep: char, n: nat)
    requires n < |s| && IndexOf(s, sep) == n
    ensures Split(s, sep) == [s[..n]] + Split(s[n + 1..], sep)
  {
  }

  lemma {:induction false} WordsOfTrim(s: string)
    requires Trim(s) && s != ""
    ensures Words(s) == Split(s, ' ')
    decreases |s|
  {
    TrimSplits(s);
    var n := WordLength(s);
    if n < |s| {
      var rest := s[n + 1..];
      WordsOfTrim(rest);
      IndexOfFirst(s, ' ', n);
      SplitStep(s, ' ', n);
      WordsStep(s);
      assert s[n..] == " " + rest;
      WordsSkipBlank(rest);
    } else {
      LastWord(s);
    }
  }

  lemma OneLineKeepsTrim(s: string)
    requires Trim(s)
    ensures OneLine(s) == s
  {
    if s != "" {
      WordsOfTrim(s);
      JoinSplit(s, ' ');
    }
  }

  // ---- the normalizer ----

  /** The parts of a title that has a conventional prefix. */
  datatype Parts = Parts(kind: string, scope: Option<string>, bang: bool, description: string)

  predicate NoParens(s: string) {
    '(' !in s && ')' !in s
  }

  /** Position of the first parenthesis of either kind, or the length. */
  function ParenAt(s: string): (i: nat)
    ensures i <= |s| && (i < |s| ==> s[i] == '(' || s[i] == ')')
    ensures forall k :: 0 <= k < i ==> s[k] != '(' && s[k] != ')'
  {
    if s == "" || s[0] == '(' || s[0] == ')' then 0 else 1 + ParenAt(s[1..])
  }

  /** The optional scope group at the start of `s`, and what follows it. */
  function TakeScope(s: string): (Option<string>, string) {
    if s == "" || s[0] != '(' then (None, s)
    else
      var i := ParenAt(s[1..]);
      if i < |s| - 1 && s[1 + i] == ')' then (Some(s[1..][..i]), s[i + 2..]) else (None, s)
  }

  function TakeBang(s: string): (bool, string) {
    if s != "" && s[0] == '!' then (true, s[1..]) else (false, s)
  }

  /** Blanks, a colon and blanks; the description that follows. */
  function TakeColon(s: string): Option<string> {
    var k := Spaces(s);
    if k == |s| || s[k] != ':' then None
    else
      var rest := s[k + 1..];
      Some(rest[Spaces(rest)..])
  }

  /** The pattern after the letters: optional scope, optional bang, blanks, a colon,
      blanks, description. Each group can match in one way only. */
  function MatchAfter(kind: string, rest: string): Option<Parts> {
    var (scope, afterScope) := TakeScope(rest);
    var (bang, afterBang) := TakeBang(afterScope);
    var description := TakeColon(afterBang);
    if description.None? then None else Some(Parts(kind, scope, bang, description.value))
  }

  /** The strict prefix pattern. */
  function Match(s: string): Option<Parts> {
    var n := Letters(s);
    if n == 0 then None else MatchAfter(s[..n], s[n..])
  }

  function ScopeText(scope: Option<string>): string {
    if scope.Some? then "(" + (scope.value + ")") else ""
  }

  function BangText(bang: bool): string {
    if bang then "!" else ""
  }

  /** The text before the colon. */
  function Head(p: Parts): string {
    p.kind + (ScopeText(p.scope) + BangText(p.bang))
  }

  /** The parts written out, with `a` and `b` around the colon. */
  function Compose(p: Parts, a: string, b: string): string {
    p.kind + (ScopeText(p.scope) + (BangText(p.bang) + (a + (":" + (b + p.description)))))
  }

  /** `s` is written as the parts say, with any blanks around the colon. */
  predicate WrittenAs(s: string, p: Parts, a: string, b: string) {
    && s == Compose(p, a, b)
    && Blank(a) && Blank(b)
    && p.kind != "" && AllLower(p.kind) && (p.scope.Some? ==> NoParens(p.scope.value))
    && (p.description != "" ==> !IsSpace(p.description[0]))
  }

  function NormalKind(kind: string, fallback: string): (t: string)
    ensures t in ALLOWED
  {
    if kind in ALLOWED then kind else if fallback in ALLOWED then fallback else "chore"
  }

  function NormalScope(scope: Option<string>): Option<string> {
    if scope.Some? && !Blank(scope.value) then scope else None
  }

  function OrUpdate(s: string): string {
    if s == "" then "update" else s
  }

  /** What the normalizer makes of a line and its match, as parts. */
  function PartsOf(line: string, found: Option<Parts>, fallback: string): Parts {
    match found
    case None => Parts(NormalKind("", fallback), None, false, OrUpdate(line))
    case Some(p) =>
      Parts(NormalKind(p.kind, fallback), NormalScope(p.scope), p.bang, OrUpdate(Strip(p.description)))
  }

  function NormalParts(title: string, fallback: string): Parts {
    PartsOf(OneLine(title), Match(OneLine(title)), fallback)
  }

  function Written(p: Parts): string {
    Head(p) + (": " + p.description)
  }

  function Normalize(title: string, fallback: string): string {
    Written(NormalParts(title, fallback))
  }

  // ---- the pattern and its written form ----

  lemma {:induction false} LettersBefore(a: string, rest: string)
    requires AllLower(a) && (rest != "" ==> !IsLower(rest[0]))
    ensures Letters(a + rest) == |a| && (a + rest)[..|a|] == a && (a + rest)[|a|..] == rest
  {
    if a == "" {
      assert a + rest == rest;
    } else {
      assert (a + rest)[1..] == a[1..] + rest;
      LettersBefore(a[1..], rest);
    }
  }

  lemma {:induction false} ParenAfter(a: string, rest: string)
    requires NoParens(a) && rest != "" && (rest[0] == '(' || rest[0] == ')')
    ensures ParenAt(a + rest) == |a|
  {
    if a == "" {
      assert a + rest == rest;
    } else {
      assert (a + rest)[1..] == a[1..] + rest;
      ParenAfter(a[1..], rest);
    }
  }

  lemma TakeScopeSound(s: string)
    ensures
      var (scope, after) := TakeScope(s);
      s == ScopeText(scope) + after && (scope.Some? ==> NoParens(scope.value))
  {
    if s != "" && s[0] == '(' {
      var i := ParenAt(s[1..]);
      if i < |s| - 1 && s[1 + i] == ')' {
        var inner := s[1..][..i];
        assert s == "(" + (inner + ")") + s[i + 2..];
      }
    }
  }

  lemma TakeScopeComplete(scope: Option<string>, after: string)
    requires scope.Some? ==> NoParens(scope.value)
    requires scope.None? ==> after == "" || after[0] != '('
    ensures TakeScope(ScopeText(scope) + after) == (scope, after)
  {
    if scope.Some? {
      var v := scope.value;
      var s := "(" + (v + ")") + after;
      assert s[1..] == v + (")" + after);
      ParenAfter(v, ")" + after);
      assert s[1..][..|v|] == v && s[|v| + 2..] == after;
    } else {
      assert ScopeText(scope) + after == after;
    }
  }

  lemma TakeBangSound(s: string)
    ensures var (bang, after) := TakeBang(s); s == BangText(bang) + after
  {
  }

  lemma TakeBangComplete(bang: bool, after: string)
    requires after == "" || after[0] != '!'
    ensures TakeBang(BangText(bang) + after) == (bang, after)
  {
    if bang {
      assert ("!" + after)[1..] == after;
    } else {
      assert BangText(bang) + after == after;
    }
  }

  lemma TakeColonSound(s: string) returns (a: string, b: string)
    requires TakeColon(s).Some?
    ensures s == a + (":" + (b + TakeColon(s).value)) && Blank(a) && Blank(b)
    ensures TakeColon(s).value != "" ==> !IsSpace(TakeColon(s).value[0])
  {
    var k := Spaces(s);
    var rest := s[k + 1..];
    a := s[..k];
    b := SpacesFirst(rest);
    Parted(s, k);
  }

  lemma SpacesFirst(s: string) returns (blanks: string)
    ensures s == blanks + s[Spaces(s)..] && Blank(blanks)
  {
    blanks := s[..Spaces(s)];
  }

  lemma TakeColonComplete(a: string, b: string, description: string)
    requires Blank(a) && Blank(b) && (description != "" ==> !IsSpace(description[0]))
    ensures TakeColon(a + (":" + (b + description))) == Some(description)
  {
    var rest := b + description;
    var s := a + (":" + rest);
    SpacesBefore(a, ":" + rest);
    SpacesBefore(b, description);
    assert s[|a|] == ':' && s[|a| + 1..] == rest;
  }

  /** The parts follow each other. */
  lemma Assembled(p: Parts, rest: string, afterScope: string, afterBang: string, a: string, b: string)
    requires rest == ScopeText(p.scope) + afterScope && afterScope == BangText(p.bang) + afterBang
    requires afterBang == a + (":" + (b + p.description))
    ensures p.kind + rest == Compose(p, a, b)
  {
  }

  lemma MatchAfterSound(kind: string, rest: string) returns (a: string, b: string)
    requires kind != "" && AllLower(kind) && MatchAfter(kind, rest).Some?
    ensures WrittenAs(kind + rest, MatchAfter(kind, rest).value, a, b)
  {
    var (scope, afterScope) := TakeScope(rest);
    var (bang, afterBang) := TakeBang(afterScope);
    TakeScopeSound(rest);
    TakeBangSound(afterScope);
    a, b := TakeColonSound(afterBang);
    Assembled(MatchAfter(kind, rest).value, rest, afterScope, afterBang, a, b);
  }

  /** What the pattern matches is written as its parts say. */
  lemma MatchSound(s: string) returns (a: string, b: string)
    requires Match(s).Some?
    ensures WrittenAs(s, Match(s).value, a, b)
  {
    var n := Letters(s);
    a, b := MatchAfterSound(s[..n], s[n..]);
    assert s == s[..n] + s[n..];
  }

  /** And every text so written is matched, with exactly those parts. */
  lemma MatchComplete(s: string, p: Parts, a: string, b: string)
    requires WrittenAs(s, p, a, b)
    ensures Match(s) == Some(p)
  {
    var afterBang := a + (":" + (b + p.description));
    var afterScope := BangText(p.bang) + afterBang;
    var afterKind := ScopeText(p.scope) + afterScope;
    assert afterBang[0] == ':' || IsSpace(afterBang[0]);
    assert afterScope[0] == '!' || afterScope[0] == afterBang[0];
    assert afterKind[0] == '(' || afterKind[0] == afterScope[0];
    LettersBefore(p.kind, afterKind);
    TakeScopeComplete(p.scope, afterScope);
    TakeBangComplete(p.bang, afterBang);
    TakeColonComplete(a, b, p.description);
  }

  // ---- the normalized title ----

  /** The shape of every normalized title: an allowed type, a scope that is not
      blank, a description that is not empty, and single blanks throughout. */
  ghost predicate Normal(p: Parts) {
    && p.kind in ALLOWED
    && (p.scope.Some? ==> !Blank(p.scope.value) && NoParens(p.scope.value) && Flat(p.scope.value))
    && p.description != "" && Trim(p.description)
  }

  lemma AllowedFacts(t: string)
    requires t in ALLOWED
    ensures t != "" && AllLower(t) && t != "fixup" && t != "squash"
  {
  }

  lemma StripOfTrim(s: string)
    requires Trim(s)
    ensures Strip(s) == s
  {
    if s != "" {
      assert Spaces(s) == 0 && s[0..] == s;
      TrimEndOf(s);
    }
  }

  /** The parts of one line keep its single blanks. */
  ghost predicate TrimParts(p: Parts) {
    && Trim(p.description)
    && (p.scope.Some? ==> Flat(p.scope.value) && NoParens(p.scope.value))
  }

  lemma MatchOfTrim(s: string)
    requires Trim(s) && Match(s).Some?
    ensures TrimParts(Match(s).value)
  {
    var a, b := MatchSound(s);
    var p := Match(s).value;
    var rest := BangText(p.bang) + (a + (":" + (b + p.description)));
    FlatParts(p.kind, ScopeText(p.scope) + rest);
    FlatParts(ScopeText(p.scope), rest);
    if p.scope.Some? {
      FlatParts("(", p.scope.value + ")");
      FlatParts(p.scope.value, ")");
    }
    FlatParts(BangText(p.bang), a + (":" + (b + p.description)));
    FlatParts(a, ":" + (b + p.description));
    FlatParts(":", b + p.description);
    FlatParts(b, p.description);
    if p.description != "" {
      assert s[|s| - 1] == p.description[|p.description| - 1];
    }
  }

  lemma PartsOfAreNormal(line: string, found: Option<Parts>, fallback: string)
    requires Trim(line) && (found.Some? ==> TrimParts(found.value))
    ensures Normal(PartsOf(line, found, fallback))
  {
    if found.Some? {
      StripOfTrim(found.value.description);
    }
  }

  lemma NormalPartsAreNormal(title: string, fallback: string)
    ensures Normal(NormalParts(title, fallback))
  {
    var line := OneLine(title);
    OneLineIsTrim(title);
    if Match(line).Some? {
      MatchOfTrim(line);
    }
    PartsOfAreNormal(line, Match(line), fallback);
  }

  lemma TrimWithKind(p: Parts, kind: string)
    requires Normal(p) && kind != "" && AllLower(kind)
    ensures Trim(Written(p.(kind := kind)))
  {
    var q := p.(kind := kind);
    if p.scope.Some? {
      FlatJoin(p.scope.value, ")");
      FlatJoin("(", p.scope.value + ")");
    }
    FlatJoin(ScopeText(p.scope), BangText(p.bang));
    FlatJoin(kind, ScopeText(p.scope) + BangText(p.bang));
    FlatJoin(": ", p.description);
    FlatJoin(Head(q), ": " + p.description);
    assert Written(q)[0] == kind[0];
    assert Written(q)[|Written(q)| - 1] == p.description[|p.description| - 1];
  }

  lemma WrittenIsTrim(p: Parts)
    requires Normal(p)
    ensures Trim(Written(p))
  {
    AllowedFacts(p.kind);
    TrimWithKind(p, p.kind);
    assert p.(kind := p.kind) == p;
  }

  lemma WrittenIsComposed(p: Parts)
    ensures Written(p) == Compose(p, "", " ")
  {
    var k, c, g, d := p.kind, ScopeText(p.scope), BangText(p.bang), p.description;
    assert ": " + d == "" + (":" + (" " + d));
    assert (k + (c + g)) + (": " + d) == k + (c + (g + (": " + d)));
  }

  /** Reading a normalized title gives back the parts it was written from. */
  lemma NormalReadsBack(p: Parts)
    requires Normal(p)
    ensures OneLine(Written(p)) == Written(p) && Match(Written(p)) == Some(p)
  {
    WrittenIsTrim(p);
    OneLineKeepsTrim(Written(p));
    WrittenMatches(p, Written(p));
  }

  lemma WrittenMatches(p: Parts, s: string)
    requires Normal(p) && s == Written(p)
    ensures Match(s) == Some(p)
  {
    AllowedFacts(p.kind);
    WrittenIsComposed(p);
    MatchComplete(s, p, "", " ");
  }

  /** Normalizing again, with any fallback type, changes nothing. */
  lemma Idempotent(title: string, fallback: string, later: string)
    ensures Normalize(Normalize(title, fallback), later) == Normalize(title, fallback)
  {
    var p := NormalParts(title, fallback);
    NormalPartsAreNormal(title, fallback);
    NormalReadsBack(p);
    StripOfTrim(p.description);
  }

  // ---- what normalizing means ----

  /** The words of a text, one by one: blanks before a word do not count, and the word
      goes to the next blank. */
  lemma WordsExactly(b: string, w: string, c: char, rest: string)
    requires Blank(b) && w != "" && (forall i :: 0 <= i < |w| ==> !IsSpace(w[i])) && IsSpace(c)
    ensures Words(b) == [] && Words(b + w) == [w] && Words(b + (w + ([c] + rest))) == [w] + Words([c] + rest)
  {
    BlankHasNoWords(b);
    WordTaken(b, w, "");
    assert w + "" == w;
    BlankHasNoWords("");
    WordTaken(b, w, [c] + rest);
  }

  lemma BlankHasNoWords(b: string)
    requires Blank(b)
    ensures Words(b) == []
  {
    SpacesOfBlank(b);
  }

  lemma WordTaken(b: string, w: string, rest: string)
    requires Blank(b) && w != "" && (forall i :: 0 <= i < |w| ==> !IsSpace(w[i])) && (rest != "" ==> IsSpace(rest[0]))
    ensures Words(b + (w + rest)) == [w] + Words(rest)
  {
    SpacesBefore(b, w + rest);
    WordLengthIs(w, rest);
  }

  lemma {:induction false} WordLengthIs(w: string, rest: string)
    requires forall i :: 0 <= i < |w| ==> !IsSpace(w[i])
    requires rest != "" ==> IsSpace(rest[0])
    ensures WordLength(w + rest) == |w| && (w + rest)[..|w|] == w && (w + rest)[|w|..] == rest
  {
    if w == "" {
      assert w + rest == rest;
    } else {
      assert (w + rest)[1..] == w[1..] + rest;
      WordLengthIs(w[1..], rest);
    }
  }

  /** What becomes of a line that is written as parts say: its type if that is allowed,
      or else the default, or else `chore`; its scope if not blank; its bang; and its
      description if not blank, or else `update`. */
  lemma WrittenMeans(title: string, fallback: string, p: Parts, a: string, b: string)
    requires WrittenAs(OneLine(title), p, a, b)
    ensures
      var kind := if p.kind in ALLOWED then p.kind else if fallback in ALLOWED then fallback else "chore";
      var scope := if p.scope.Some? && !Blank(p.scope.value) then "(" + (p.scope.value + ")") else "";
      var bang := if p.bang then "!" else "";
      var description := if Strip(p.description) == "" then "update" else Strip(p.description);
      Normalize(title, fallback) == kind + (scope + bang) + (": " + description)
  {
    MatchComplete(OneLine(title), p, a, b);
  }

  lemma MatchIsWritten(line: string)
    ensures Match(line).Some? <==> exists p, a, b :: WrittenAs(line, p, a, b)
  {
    if Match(line).Some? {
      var a, b := MatchSound(line);
    }
    if p, a, b :| WrittenAs(line, p, a, b) {
      MatchComplete(line, p, a, b);
    }
  }

  /** And of one that is not, with or without a colon: it becomes the description. */
  lemma UnwrittenMeans(title: string, fallback: string)
    requires forall p, a, b :: !WrittenAs(OneLine(title), p, a, b)
    ensures
      var line := OneLine(title);
      Normalize(title, fallback) ==
        (if fallback in ALLOWED then fallback else "chore") + (": " + if line == "" then "update" else line)
  {
    MatchIsWritten(OneLine(title));
    assert "" !in ALLOWED;
    var kind := NormalKind("", fallback);
    assert kind + ("" + "") == kind;
  }

  /** A title that is already normal stays as it is, whatever the fallback type. */
  lemma NormalIsKept(p: Parts, fallback: string)
    requires Normal(p)
    ensures Normalize(Written(p), fallback) == Written(p)
  {
    NormalReadsBack(p);
    StripOfTrim(p.description);
  }

  /** Of a normal title with another lower-case type, only the type is replaced. */
  lemma OtherTypeIsReplaced(p: Parts, kind: string, fallback: string)
    requires Normal(p) && kind != "" && AllLower(kind) && kind !in ALLOWED && fallback in ALLOWED
    ensures Normalize(Written(p.(kind := kind)), fallback) == Written(p.(kind := fallback))
  {
    var q := p.(kind := kind);
    TrimWithKind(p, kind);
    OneLineKeepsTrim(Written(q));
    WrittenIsComposed(q);
    MatchComplete(Written(q), q, "", " ");
    StripOfTrim(p.description);
  }

  /** A title without any colon becomes the description, on one line. */
  lemma PlainTitleIsDescription(title: string, fallback: string)
    requires ':' !in OneLine(title) && fallback in ALLOWED
    ensures Normalize(title, fallback) == fallback + (": " + OrUpdate(OneLine(title)))
  {
    MatchHasColon(OneLine(title));
    assert fallback + ("" + "") == fallback;
  }

  lemma MatchHasColon(line: string)
    ensures Match(line).Some? ==> ':' in line
  {
    if Match(line).Some? {
      var a, b := MatchSound(line);
      ComposedHasColon(Match(line).value, a, b);
    }
  }

  lemma ComposedHasColon(p: Parts, a: string, b: string)
    ensures ':' in Compose(p, a, b)
  {
    var front := p.kind + (ScopeText(p.scope) + (BangText(p.bang) + a));
    assert Compose(p, a, b) == front + (":" + (b + p.description));
    assert Compose(p, a, b)[|front|] == ':';
  }
}
