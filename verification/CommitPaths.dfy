/** Which changed paths an automated commit may stage: the reader of NUL-delimited
    porcelain status, the selection policy, and the overlap check. */
module CommitPaths {
  import opened Options
  import opened Text

  datatype Result<+T> = Ok(value: T) | Malformed | UnresolvedMerge | Overlap | OverLimit | NothingToPublish

  const NUL: char := '\0'

  const SECRET_NAMES := {".env", ".secret", "credentials.json", "id_rsa", "id_dsa", "id_ecdsa", "id_ed25519"}
  const SECRET_EXTENSIONS := [".key", ".pem", ".pfx", ".p12"]
  const UNMERGED := {"DD", "AU", "UD", "UA", "DU", "AA", "UU"}

  predicate KnownStatus(s: string) {
    || s in UNMERGED || s == "D " || s == "??"
    || (|s| == 2 && s[0] == ' ' && s[1] in "AMDTRC")
    || (|s| == 2 && s[0] in "MTARC" && s[1] in " MTD")
  }

  predicate Renamed(status: string) {
    'R' in status || 'C' in status
  }

  // ---- status records ----

  /** One status entry; a rename or copy also names the path it came from. */
  datatype Entry = Entry(status: string, path: string, source: Option<string>)

  predicate Field(s: string) {
    s != "" && NUL !in s
  }

  predicate EntryOk(e: Entry) {
    && KnownStatus(e.status) && Field(e.path)
    && (e.source.Some? <==> Renamed(e.status)) && (e.source.Some? ==> Field(e.source.value))
  }

  predicate EntriesOk(es: seq<Entry>) {
    forall i :: 0 <= i < |es| ==> EntryOk(es[i])
  }

  function Records(e: Entry): seq<string> {
    [e.status + " " + e.path] + if e.source.Some? then [e.source.value] else []
  }

  function AllRecords(es: seq<Entry>): seq<string> {
    if es == [] then [] else Records(es[0]) + AllRecords(es[1..])
  }

  /** Every record followed by a NUL. */
  function Terminated(rs: seq<string>): string {
    if rs == [] then "" else rs[0] + [NUL] + Terminated(rs[1..])
  }

  /** What `git status --porcelain=v1 -z` writes for these entries. */
  function Print(es: seq<Entry>): string {
    Terminated(AllRecords(es))
  }

  function Targets(es: seq<Entry>): seq<(string, string)> {
    seq(|es|, i requires 0 <= i < |es| => (es[i].status, es[i].path))
  }

  /** The statuses there are: untracked, unmerged, changed in the worktree only, and
      changed in the index. */
  lemma KnownStatusExactly(s: string)
    ensures KnownStatus(s) <==> s in {
      "??", "DD", "AU", "UD", "UA", "DU", "AA", "UU", "D ", " A", " M", " D", " T", " R", " C",
      "M ", "MM", "MT", "MD", "T ", "TM", "TT", "TD", "A ", "AM", "AT", "AD",
      "R ", "RM", "RT", "RD", "C ", "CM", "CT", "CD"}
    ensures KnownStatus(s) ==> (Renamed(s) <==> s in {" R", " C", "R ", "RM", "RT", "RD", "C ", "CM", "CT", "CD"})
  {
    if |s| == 2 {
      assert s == [s[0], s[1]];
    }
  }

  // ---- reading ----

  predicate RecordOk(r: string) {
    |r| >= 4 && r[2] == ' ' && KnownStatus(r[..2])
  }

  /** How many records the entry at the front takes. */
  function Width(r: string): nat
    requires RecordOk(r)
  {
    if Renamed(r[..2]) then 2 else 1
  }

  /** The entries that these records spell, if they spell any. */
  function Decode(rs: seq<string>): Option<seq<Entry>> {
    if rs == [] then Some([])
    else if !RecordOk(rs[0]) || Width(rs[0]) > |rs| then None
    else
      var w := Width(rs[0]);
      var source := if w == 2 then Some(rs[1]) else None;
      var rest := Decode(rs[w..]);
      if rest.None? then None else Some([Entry(rs[0][..2], rs[0][3..], source)] + rest.value)
  }

  /** The entry at the front of some records that starts well. */
  function FrontEntry(rs: seq<string>): Entry
    requires rs != [] && RecordOk(rs[0]) && Width(rs[0]) <= |rs|
  {
    Entry(rs[0][..2], rs[0][3..], if Width(rs[0]) == 2 then Some(rs[1]) else None)
  }

  predicate FieldsOk(rs: seq<string>) {
    forall i :: 0 <= i < |rs| ==> Field(rs[i])
  }

  lemma FrontRecord(e: Entry)
    requires EntryOk(e)
    ensures FieldsOk(Records(e)) && RecordOk(Records(e)[0]) && Width(Records(e)[0]) == |Records(e)|
    ensures Records(e)[0][..2] == e.status && Records(e)[0][3..] == e.path
  {
    var r := e.status + " " + e.path;
    assert r[..2] == e.status && r[3..] == e.path;
  }

  /** Decoding undoes the writing of records. */
  lemma {:induction false} DecodeRecords(es: seq<Entry>)
    requires EntriesOk(es)
    ensures Decode(AllRecords(es)) == Some(es) && FieldsOk(AllRecords(es))
  {
    if es != [] {
      var rs := AllRecords(es);
      FrontRecord(es[0]);
      DecodeRecords(es[1..]);
      assert rs[|Records(es[0])|..] == AllRecords(es[1..]);
      assert es == [es[0]] + es[1..];
    }
  }

  /** An entry read from the front has these records. */
  lemma FrontDecoded(rs: seq<string>)
    requires FieldsOk(rs) && rs != [] && RecordOk(rs[0]) && Width(rs[0]) <= |rs|
    ensures EntryOk(FrontEntry(rs)) && Records(FrontEntry(rs)) == rs[..Width(rs[0])]
  {
    var r := rs[0];
    assert Field(r);
    assert r == r[..2] + " " + r[3..];
    assert NUL !in r[3..];
    assert Width(r) == 2 ==> Field(rs[1]);
  }

  /** And whatever decodes was written from the entries it decodes to. */
  lemma {:induction false} RecordsOfDecoded(rs: seq<string>)
    requires FieldsOk(rs) && Decode(rs).Some?
    ensures EntriesOk(Decode(rs).value) && AllRecords(Decode(rs).value) == rs
    decreases |rs|
  {
    if rs != [] {
      var w := Width(rs[0]);
      FrontDecoded(rs);
      RecordsOfDecoded(rs[w..]);
      assert Decode(rs).value == [FrontEntry(rs)] + Decode(rs[w..]).value;
      assert Decode(rs).value[1..] == Decode(rs[w..]).value;
      assert rs == rs[..w] + rs[w..];
    }
  }

  lemma {:induction false} TerminatedIsJoin(rs: seq<string>)
    requires rs != []
    ensures Terminated(rs) == Join(rs, NUL) + [NUL]
  {
    if |rs| > 1 {
      TerminatedIsJoin(rs[1..]);
    } else {
      assert Terminated(rs[1..]) == "";
    }
  }

  /** The records of an output; `None` if it is not cut into nonempty records. */
  function Cut(output: string): Option<seq<string>> {
    if output == "" then Some([])
    else if output[|output| - 1] != NUL then None
    else
      var rs := Split(output[..|output| - 1], NUL);
      if FieldsOk(rs) then Some(rs) else None
  }

  lemma CutTerminated(rs: seq<string>)
    requires FieldsOk(rs)
    ensures Cut(Terminated(rs)) == Some(rs)
  {
    if rs != [] {
      TerminatedIsJoin(rs);
      SplitJoin(rs, NUL);
      var output := Terminated(rs);
      assert output[..|output| - 1] == Join(rs, NUL);
    }
  }

  lemma TerminatedCut(output: string)
    requires Cut(output).Some?
    ensures FieldsOk(Cut(output).value) && Terminated(Cut(output).value) == output
  {
    if output != "" {
      var front := output[..|output| - 1];
      JoinSplit(front, NUL);
      TerminatedIsJoin(Split(front, NUL));
      assert output == front + [NUL];
    }
  }

  /** The entries an output spells, if it is well formed. */
  function Parsed(output: string): Option<seq<Entry>> {
    var rs := Cut(output);
    if rs.None? then None else Decode(rs.value)
  }

  /** Reading inverts printing, on every list of entries. */
  lemma ParseInvertsPrint(es: seq<Entry>)
    requires EntriesOk(es)
    ensures Parsed(Print(es)) == Some(es)
  {
    DecodeRecords(es);
    CutTerminated(AllRecords(es));
  }

  /** An output is accepted exactly if it is the printed form of some entries. */
  lemma AcceptsExactlyPrinted(output: string)
    ensures Parsed(output).Some? <==> exists es :: EntriesOk(es) && Print(es) == output
  {
    if Parsed(output).Some? {
      TerminatedCut(output);
      RecordsOfDecoded(Cut(output).value);
      assert EntriesOk(Parsed(output).value) && Print(Parsed(output).value) == output;
    }
    forall es | EntriesOk(es) && Print(es) == output ensures Parsed(output).Some? {
      ParseInvertsPrint(es);
    }
  }

  function Prepended(done: seq<Entry>, rest: Option<seq<Entry>>): Option<seq<Entry>> {
    if rest.None? then None else Some(done + rest.value)
  }

  lemma PrependedTwice(done: seq<Entry>, e: Entry, rest: Option<seq<Entry>>)
    ensures Prepended(done, Prepended([e], rest)) == Prepended(done + [e], rest)
    ensures Targets(done + [e]) == Targets(done) + [(e.status, e.path)]
  {
    if rest.Some? {
      assert done + ([e] + rest.value) == done + [e] + rest.value;
    }
  }

  lemma DecodeFront(rs: seq<string>)
    requires rs != [] && RecordOk(rs[0]) && Width(rs[0]) <= |rs|
    ensures Decode(rs) == Prepended([FrontEntry(rs)], Decode(rs[Width(rs[0])..]))
  {
  }

  /** Reading one more entry. */
  lemma DecodeStep(rs: seq<string>, index: nat, done: seq<Entry>)
    requires index < |rs| && RecordOk(rs[index]) && index + Width(rs[index]) <= |rs|
    ensures
      var e := FrontEntry(rs[index..]);
      && Prepended(done, Decode(rs[index..])) == Prepended(done + [e], Decode(rs[index + Width(rs[index])..]))
      && Targets(done + [e]) == Targets(done) + [(rs[index][..2], rs[index][3..])]
  {
    var w := Width(rs[index]);
    DecodeFront(rs[index..]);
    assert rs[index..][w..] == rs[index + w..];
    PrependedTwice(done, FrontEntry(rs[index..]), Decode(rs[index + w..]));
  }

  /** What the reader returns for well-formed and malformed output. */
  function Answer(parsed: Option<seq<Entry>>): Result<seq<(string, string)>> {
    if parsed.Some? then Ok(Targets(parsed.value)) else Malformed
  }

  /** The porcelain reader keeps the status and target of each entry. */
  method ParsePorcelainStatus(output: string) returns (r: Result<seq<(string, string)>>)
    ensures r == Answer(Parsed(output))
  {
    if output == "" {
      assert Targets([]) == [];
      return Ok([]);
    }
    if output[|output| - 1] != NUL {
      return Malformed;
    }
    var records := Split(output[..|output| - 1], NUL);
    if "" in records {
      assert !FieldsOk(records);
      return Malformed;
    }
    SplitPure(output[..|output| - 1], NUL);
    r := ReadRecords(records);
  }

  method ReadRecords(records: seq<string>) returns (r: Result<seq<(string, string)>>)
    ensures r == Answer(Decode(records))
  {
    var entries: seq<(string, string)> := [];
    ghost var done: seq<Entry> := [];
    var index := 0;
    assert records[0..] == records;
    assert Decode(records).Some? ==> [] + Decode(records).value == Decode(records).value;
    while index < |records|
      invariant index <= |records|
      invariant Decode(records) == Prepended(done, Decode(records[index..]))
      invariant entries == Targets(done)
    {
      var record := records[index];
      if |record| < 4 || record[2] != ' ' || record[3..] == "" {
        return Malformed;
      }
      var status := record[..2];
      if !KnownStatus(status) {
        return Malformed;
      }
      entries := entries + [(status, record[3..])];
      if Renamed(status) && index + 1 >= |records| {
        return Malformed;
      }
      DecodeStep(records, index, done);
      done := done + [FrontEntry(records[index..])];
      index := index + 1;
      if Renamed(status) {
        index := index + 1;
      }
    }
    assert done + [] == done;
    r := Ok(entries);
  }

  // ---- selection ----

  datatype Selection = Selection(add: seq<string>, update: seq<string>)

  predicate EndsWith(s: string, suffix: string) {
    |suffix| <= |s| && s[|s| - |suffix|..] == suffix
  }

  predicate SecretName(component: string) {
    component in SECRET_NAMES || exists x :: x in SECRET_EXTENSIONS && EndsWith(component, x)
  }

  /** Some component of the path has a secret name. */
  predicate Secret(path: string) {
    exists component :: component in Split(path, '/') && SecretName(component)
  }

  predicate Admitted(entry: (string, string), allowed: Option<set<string>>) {
    (allowed.Some? ==> entry.1 in allowed.value) && !Secret(entry.1)
  }

  predicate Deleted(entry: (string, string)) {
    'D' in entry.0
  }

  /** The paths of the entries that satisfy `keep`, in order. */
  function Paths(entries: seq<(string, string)>, keep: ((string, string)) -> bool): seq<string> {
    if entries == [] then []
    else
      var last := entries[|entries| - 1];
      Paths(entries[..|entries| - 1], keep) + if keep(last) then [last.1] else []
  }

  function Adds(entries: seq<(string, string)>, allowed: Option<set<string>>): seq<string> {
    Paths(entries, e => Admitted(e, allowed) && !Deleted(e))
  }

  function Updates(entries: seq<(string, string)>, allowed: Option<set<string>>): seq<string> {
    Paths(entries, e => Admitted(e, allowed) && Deleted(e))
  }

  predicate Unmerged(entries: seq<(string, string)>) {
    exists i :: 0 <= i < |entries| && entries[i].0 in UNMERGED
  }

  lemma SelectionStep(entries: seq<(string, string)>, i: nat, allowed: Option<set<string>>)
    requires i < |entries|
    ensures
      var e := entries[i];
      && Unmerged(entries[..i + 1]) == (Unmerged(entries[..i]) || e.0 in UNMERGED)
      && (Unmerged(entries[..i + 1]) ==> Unmerged(entries))
      && Adds(entries[..i + 1], allowed)
           == Adds(entries[..i], allowed) + (if Admitted(e, allowed) && !Deleted(e) then [e.1] else [])
      && Updates(entries[..i + 1], allowed)
           == Updates(entries[..i], allowed) + (if Admitted(e, allowed) && Deleted(e) then [e.1] else [])
  {
    var more := entries[..i + 1];
    assert more[..i] == entries[..i] && more[i] == entries[i];
    if Unmerged(entries[..i]) {
      var k :| 0 <= k < i && entries[..i][k].0 in UNMERGED;
      assert more[k] == entries[..i][k];
    }
    if Unmerged(more) {
      var k :| 0 <= k <= i && more[k].0 in UNMERGED;
      assert entries[k] == more[k] && (k < i ==> entries[..i][k] == more[k]);
    }
  }

  method SelectCommitPaths(entries: seq<(string, string)>, allowed: Option<set<string>>)
    returns (r: Result<Selection>)
    ensures Unmerged(entries) ==> r == UnresolvedMerge
    ensures !Unmerged(entries) ==> r == Ok(Selection(Adds(entries, allowed), Updates(entries, allowed)))
  {
    var add: seq<string>, update: seq<string> := [], [];
    for i := 0 to |entries|
      invariant !Unmerged(entries[..i])
      invariant add == Adds(entries[..i], allowed)
      invariant update == Updates(entries[..i], allowed)
    {
      var (status, path) := entries[i];
      SelectionStep(entries, i, allowed);
      if status in UNMERGED {
        return UnresolvedMerge;
      }
      if allowed.Some? && path !in allowed.value {
        continue;
      }
      if Secret(path) {
        continue;
      }
      if 'D' in status {
        update := update + [path];
      } else {
        add := add + [path];
      }
    }
    assert entries[..|entries|] == entries;
    r := Ok(Selection(add, update));
  }

  lemma {:induction false} PathsKept(entries: seq<(string, string)>, keep: ((string, string)) -> bool, p: string)
    ensures p in Paths(entries, keep) <==> exists i :: 0 <= i < |entries| && keep(entries[i]) && entries[i].1 == p
  {
    if entries != [] {
      var n := |entries| - 1;
      PathsKept(entries[..n], keep, p);
      assert forall i :: 0 <= i < n ==> entries[..n][i] == entries[i];
      if p in Paths(entries[..n], keep) {
        var i :| 0 <= i < n && keep(entries[..n][i]) && entries[..n][i].1 == p;
        assert keep(entries[i]) && entries[i].1 == p;
      }
    }
  }

  /** Every admitted entry lands in exactly one of the two lists. */
  lemma {:induction false} SelectionPartitions(entries: seq<(string, string)>, allowed: Option<set<string>>)
    ensures multiset(Adds(entries, allowed)) + multiset(Updates(entries, allowed))
         == multiset(Paths(entries, e => Admitted(e, allowed)))
  {
    if entries != [] {
      SelectionPartitions(entries[..|entries| - 1], allowed);
    }
  }

  /** What is selected, and from which entries. */
  lemma SelectionExact(entries: seq<(string, string)>, allowed: Option<set<string>>, p: string)
    ensures p in Adds(entries, allowed) <==>
              exists i :: 0 <= i < |entries| && entries[i].1 == p && Admitted(entries[i], allowed) && !Deleted(entries[i])
    ensures p in Updates(entries, allowed) <==>
              exists i :: 0 <= i < |entries| && entries[i].1 == p && Admitted(entries[i], allowed) && Deleted(entries[i])
  {
    PathsKept(entries, e => Admitted(e, allowed) && !Deleted(e), p);
    PathsKept(entries, e => Admitted(e, allowed) && Deleted(e), p);
  }

  /** A component with a secret's name, or with a secret's extension at its end. */
  ghost predicate NamesSecret(component: string) {
    || component in {".env", ".secret", "credentials.json", "id_rsa", "id_dsa", "id_ecdsa", "id_ed25519"}
    || exists stem, x :: component == stem + x && (x == ".key" || x == ".pem" || x == ".pfx" || x == ".p12")
  }

  ghost predicate NoSecret(path: string) {
    forall component :: component in Split(path, '/') ==> !NamesSecret(component)
  }

  lemma SecretExactly(path: string)
    ensures Secret(path) <==> !NoSecret(path)
  {
    forall component ensures SecretName(component) <==> NamesSecret(component) {
      SecretNameExactly(component);
    }
  }

  lemma SecretNameExactly(component: string)
    ensures SecretName(component) <==> NamesSecret(component)
  {
    if stem, x :| component == stem + x && (x == ".key" || x == ".pem" || x == ".pfx" || x == ".p12") {
      assert x in SECRET_EXTENSIONS && EndsWith(component, x);
    }
    if x :| x in SECRET_EXTENSIONS && EndsWith(component, x) {
      assert component == component[..|component| - |x|] + x;
    }
  }

  /** One more entry: it is selected if the allowlist has it and nothing in it is secret,
      for an update if it is a deletion and to be added otherwise. */
  lemma SelectionGrows(entries: seq<(string, string)>, allowed: Option<set<string>>, status: string, path: string)
    ensures Adds([], allowed) == [] == Updates([], allowed)
    ensures
      var chosen := (allowed.Some? ==> path in allowed.value) && NoSecret(path);
      var more := entries + [(status, path)];
      && Adds(more, allowed) == Adds(entries, allowed) + (if chosen && 'D' !in status then [path] else [])
      && Updates(more, allowed) == Updates(entries, allowed) + (if chosen && 'D' in status then [path] else [])
  {
    var more := entries + [(status, path)];
    assert more[..|entries|] == entries;
    SecretExactly(path);
  }

  // ---- overlap with filtered paths ----

  function Components(path: string): seq<string> {
    Split(path, '/')
  }

  /** `a` names a directory above `b`. */
  predicate Above(a: string, b: string) {
    Components(a) < Components(b)
  }

  function Selected(s: Selection): set<string> {
    (set p | p in s.add) + (set p | p in s.update)
  }

  function Filtered(entries: seq<(string, string)>, s: Selection): set<string> {
    set e | e in entries && e.1 !in Selected(s) :: e.1
  }

  /** What is filtered: the paths with a status that are in neither list. */
  lemma FilteredExactly(entries: seq<(string, string)>, s: Selection, q: string)
    ensures q in Filtered(entries, s) <==> q !in s.add && q !in s.update && exists i :: 0 <= i < |entries| && entries[i].1 == q
  {
    if i :| 0 <= i < |entries| && entries[i].1 == q {
      assert entries[i] in entries;
    }
  }

  /** Staging `p` can stage `q` with it: an added `p` replaces the directory that
      held `q`, or `p` lies in a directory that replaced `q`. */
  predicate Drags(s: Selection, p: string, q: string) {
    (p in s.add && Above(p, q)) || Above(q, p)
  }

  ghost predicate Overlapping(entries: seq<(string, string)>, s: Selection) {
    exists p, q :: p in Selected(s) && q in Filtered(entries, s) && Drags(s, p, q)
  }

  function Ancestors(paths: set<string>): set<seq<string>> {
    set q, n | q in paths && 1 <= n < |Components(q)| :: Components(q)[..n]
  }

  /** The set lookups of the check find exactly the paths that `p` drags along. */
  lemma LookupsFindDragged(s: Selection, filtered: set<string>, p: string)
    ensures
      var names := set q | q in filtered :: Components(q);
      var here := Components(p);
      ((p in s.add && here in Ancestors(filtered)) || exists n :: 1 <= n < |here| && here[..n] in names)
      <==> exists q :: q in filtered && Drags(s, p, q)
  {
    var names := set q | q in filtered :: Components(q);
    var here := Components(p);
    forall q | q in filtered && Above(p, q) ensures here in Ancestors(filtered) {
      assert Components(q)[..|here|] == here;
    }
    forall q | q in filtered && Above(q, p) ensures exists n :: 1 <= n < |here| && here[..n] in names {
      var n := |Components(q)|;
      assert here[..n] == Components(q);
    }
    if p in s.add && here in Ancestors(filtered) {
      var q, n :| q in filtered && 1 <= n < |Components(q)| && Components(q)[..n] == here;
      assert Drags(s, p, q);
    }
    if n :| 1 <= n < |here| && here[..n] in names {
      var q :| q in filtered && Components(q) == here[..n];
      assert Drags(s, p, q);
    }
  }

  /** The overlap check refuses exactly the selections that drag a filtered path along. */
  method RejectFilteredPathShapeChanges(entries: seq<(string, string)>, s: Selection) returns (r: Result<()>)
    ensures r == if Overlapping(entries, s) then Overlap else Ok(())
  {
    var filtered := Filtered(entries, s);
    var names := set q | q in filtered :: Components(q);
    var ancestors := Ancestors(filtered);
    var left := Selected(s);
    while left != {}
      invariant left <= Selected(s)
      invariant forall p, q :: p in Selected(s) - left && q in filtered ==> !Drags(s, p, q)
      decreases left
    {
      var p :| p in left;
      var here := Components(p);
      LookupsFindDragged(s, filtered, p);
      if (p in s.add && here in ancestors) || exists n :: 1 <= n < |here| && here[..n] in names {
        return Overlap;
      }
      left := left - {p};
    }
    r := Ok(());
  }

  // ---- the whole inspection ----

  lemma SecretBelow(q: string, p: string)
    requires Secret(q) && Above(q, p)
    ensures Secret(p)
  {
    var component :| component in Components(q) && SecretName(component);
    assert component in Components(p);
  }

  /** Every status path with a secret component is left out, and it is the only kind
      left out when there is no allowlist. */
  lemma FilteredIsSecret(entries: seq<(string, string)>, s: Selection, q: string)
    requires s == Selection(Adds(entries, None), Updates(entries, None))
    ensures q in Filtered(entries, s) <==> Secret(q) && exists i :: 0 <= i < |entries| && entries[i].1 == q
  {
    SelectionExact(entries, None, q);
  }

  /** Without an allowlist only an added path above a secret one can overlap. */
  lemma OverlapWithoutAllowlist(entries: seq<(string, string)>, s: Selection)
    requires s == Selection(Adds(entries, None), Updates(entries, None))
    ensures Overlapping(entries, s) <==>
              exists p, i :: p in s.add && 0 <= i < |entries| && Secret(entries[i].1) && Above(p, entries[i].1)
  {
    if Overlapping(entries, s) {
      var p, q :| p in Selected(s) && q in Filtered(entries, s) && Drags(s, p, q);
      FilteredIsSecret(entries, s, q);
      SelectionExact(entries, None, p);
      if Above(q, p) {
        SecretBelow(q, p);
      }
      var i :| 0 <= i < |entries| && entries[i].1 == q;
      assert p in s.add && Above(p, entries[i].1);
    }
    if p, i :| p in s.add && 0 <= i < |entries| && Secret(entries[i].1) && Above(p, entries[i].1) {
      FilteredIsSecret(entries, s, entries[i].1);
      assert Drags(s, p, entries[i].1) && p in Selected(s);
    }
  }

  // ---- bounded manifests ----

  /** A relative path in canonical form. The path `.` has no components at all. */
  predicate Canonical(path: string) {
    && path != "" && NUL !in path
    && (path == "." || forall component :: component in Components(path) ==> component !in {"", ".", ".."})
  }

  /** Canonical paths are components joined by slashes, none of them empty or dots. */
  lemma CanonicalExactly(path: string)
    ensures Canonical(path) <==>
              path == "." || exists parts :: parts != [] && path == Join(parts, '/') && ProperParts(parts)
  {
    var split := Split(path, '/');
    JoinSplit(path, '/');
    SplitPure(path, '/');
    if Canonical(path) && path != "." {
      JoinHolds(split, '/', NUL);
      forall k | 0 <= k < |split| ensures Proper(split[k]) {
        assert split[k] in Components(path);
      }
      assert ProperParts(split);
    }
    forall parts | parts != [] && path == Join(parts, '/') && ProperParts(parts) ensures Canonical(path) {
      SplitJoin(parts, '/');
      JoinHolds(parts, '/', NUL);
      JoinHolds(parts, '/', parts[0][0]);
    }
  }

  ghost predicate Proper(part: string) {
    part !in {"", ".", ".."} && '/' !in part && NUL !in part
  }

  ghost predicate ProperParts(parts: seq<string>) {
    forall k :: 0 <= k < |parts| ==> Proper(parts[k])
  }

  /** The manifest's bytes: each path and its terminator. */
  lemma BytesExactly(paths: seq<string>, path: string, size: string -> nat)
    ensures Bytes([], size) == 0 && Bytes(paths + [path], size) == Bytes(paths, size) + size(path) + 1
  {
    assert (paths + [path])[..|paths|] == paths;
  }

  predicate Distinct(paths: seq<string>) {
    forall i, j :: 0 <= i < j < |paths| ==> paths[i] != paths[j]
  }

  /** Bytes of the paths, each with a terminator; `size` measures the encoded path. */
  function Bytes(paths: seq<string>, size: string -> nat): nat {
    if paths == [] then 0
    else Bytes(paths[..|paths| - 1], size) + size(paths[|paths| - 1]) + 1
  }

  datatype Limits = Limits(paths: nat, bytes: nat, size: string -> nat)

  ghost predicate Bounded(s: Selection, limits: Limits) {
    var all := s.add + s.update;
    && 0 < |all| <= limits.paths && Distinct(s.add) && Distinct(s.update)
    && (forall i :: 0 <= i < |all| ==> Canonical(all[i]))
    && Bytes(all, limits.size) <= limits.bytes
  }

  lemma {:induction false} DistinctBySize(paths: seq<string>)
    ensures |set p | p in paths| <= |paths|
    ensures |set p | p in paths| == |paths| <==> Distinct(paths)
  {
    if paths != [] {
      var n := |paths| - 1;
      var front, last := paths[..n], paths[n];
      DistinctBySize(front);
      var known := set p | p in front;
      assert paths == front + [last];
      assert (set p | p in paths) == known + {last};
      if last in known {
        var i :| 0 <= i < n && front[i] == last;
        assert paths[i] == paths[n];
      }
      assert Distinct(paths) ==> Distinct(front);
    }
  }

  lemma {:induction false} BytesGrow(paths: seq<string>, n: nat, size: string -> nat)
    requires n <= |paths|
    ensures Bytes(paths[..n], size) <= Bytes(paths, size)
    decreases |paths|
  {
    if n < |paths| {
      var front := paths[..|paths| - 1];
      BytesGrow(front, n, size);
      assert front[..n] == paths[..n];
    } else {
      assert paths[..n] == paths;
    }
  }

  lemma BytesStep(paths: seq<string>, i: nat, size: string -> nat)
    requires i < |paths|
    ensures Bytes(paths[..i + 1], size) == Bytes(paths[..i], size) + size(paths[i]) + 1
  {
    assert paths[..i + 1] == paths[..i] + [paths[i]];
    BytesExactly(paths[..i], paths[i], size);
  }

  method IsBounded(s: Selection, limits: Limits) returns (ok: bool)
    ensures ok <==> Bounded(s, limits)
  {
    var all := s.add + s.update;
    DistinctBySize(s.add);
    DistinctBySize(s.update);
    if |all| == 0 || |all| > limits.paths {
      return false;
    }
    if |set p | p in s.add| != |s.add| || |set p | p in s.update| != |s.update| {
      return false;
    }
    var encoded := 0;
    for i := 0 to |all|
      invariant encoded == Bytes(all[..i], limits.size) <= limits.bytes
      invariant forall k :: 0 <= k < i ==> Canonical(all[k])
    {
      if !Canonical(all[i]) {
        return false;
      }
      BytesStep(all, i, limits.size);
      encoded := encoded + limits.size(all[i]) + 1;
      if encoded > limits.bytes {
        BytesGrow(all, i + 1, limits.size);
        return false;
      }
    }
    assert all[..|all|] == all;
    ok := true;
  }

  function Chosen(entries: seq<(string, string)>): Selection {
    Selection(Adds(entries, None), Updates(entries, None))
  }

  /** What may be published: no merge is open, the selection is not empty and within
      its limits, and no added path replaces a directory that holds a secret. */
  ghost predicate Publishable(entries: seq<(string, string)>, limits: Limits) {
    && !Unmerged(entries) && |set e | e in entries :: e.1| <= limits.paths
    && (forall p, i :: p in Chosen(entries).add && 0 <= i < |entries| && Secret(entries[i].1) ==> !Above(p, entries[i].1))
    && Bounded(Chosen(entries), limits)
  }

  /** The inspection before a commit: read the status, select, check. */
  method InspectCandidate(output: string, limits: Limits) returns (r: Result<Selection>)
    ensures r == Malformed <==> forall es :: EntriesOk(es) ==> Print(es) != output
    ensures forall es :: EntriesOk(es) && Print(es) == output ==> (r.Ok? <==> Publishable(Targets(es), limits))
    ensures forall es :: EntriesOk(es) && Print(es) == output && r.Ok? ==> r.value == Chosen(Targets(es))
  {
    AcceptsExactlyPrinted(output);
    forall es | EntriesOk(es) && Print(es) == output ensures Parsed(output) == Some(es) {
      ParseInvertsPrint(es);
    }
    var parsed := ParsePorcelainStatus(output);
    if parsed.Malformed? {
      return Malformed;
    }
    r := InspectEntries(parsed.value, limits);
  }

  method InspectEntries(entries: seq<(string, string)>, limits: Limits) returns (r: Result<Selection>)
    ensures !r.Malformed?
    ensures r.Ok? <==> Publishable(entries, limits)
    ensures r.Ok? ==> r.value == Chosen(entries)
  {
    if |set e | e in entries :: e.1| > limits.paths {
      return OverLimit;
    }
    var selected := SelectCommitPaths(entries, None);
    if selected.UnresolvedMerge? {
      return UnresolvedMerge;
    }
    var s := selected.value;
    if s.add == [] && s.update == [] {
      return NothingToPublish;
    }
    OverlapWithoutAllowlist(entries, s);
    var overlap := RejectFilteredPathShapeChanges(entries, s);
    if overlap.Overlap? {
      return Overlap;
    }
    var bounded := IsBounded(s, limits);
    if !bounded {
      return OverLimit;
    }
    r := Ok(s);
  }
}
