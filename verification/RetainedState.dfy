/** The scan that must find no authentication in what a session leaves behind.

    A directory is an inductive tree. An entry's `stamp` stands for its whole
    stat fingerprint, `xattrs` (or a link's `payload`) for its canonical
    attribute bytes. The scan shares one budget over the worktree and the
    private profile, removes contaminated worktree entries, and rejects
    contaminated profile entries.
 */
module RetainedState {
  import opened Options
  import opened Text
  import opened PatternSearch

  const MAX_FILES: nat := 100_000
  const MAX_BYTES: nat := 2 * 1024 * 1024 * 1024
  const MAX_PATH_BYTES: nat := 32 * 1024 * 1024
  const MAX_NAME: nat := 4096
  const MAX_DEPTH: nat := 128

  datatype Kind = Directory | Regular | Symlink | Special

  datatype Identity = Identity(kind: Kind, stamp: int, payload: Bytes)

  datatype Node =
    | Dir(stamp: int, xattrs: Bytes, entries: seq<Entry>)
    | File(stamp: int, xattrs: Bytes, inode: int, content: Bytes)
    | Link(stamp: int, payload: Bytes)
    | Device(stamp: int)

  datatype Entry = Entry(name: Bytes, node: Node)

  /** The names from the scanned root down to an entry. */
  type Path = seq<Bytes>

  /** `removing`: the worktree mode, where contaminated entries are deleted.
      `baseline`: identities captured before authentication was issued. */
  datatype Scan = Scan(patterns: seq<Bytes>, authInode: int, removing: bool, baseline: Option<map<Path, Identity>>)

  function IdentityOf(n: Node): Identity {
    match n
    case Dir(stamp, xattrs, _) => Identity(Directory, stamp, xattrs)
    case File(stamp, xattrs, _, _) => Identity(Regular, stamp, xattrs)
    case Link(stamp, payload) => Identity(Symlink, stamp, payload)
    case Device(stamp) => Identity(Special, stamp, [])
  }

  predicate Differs(id: Identity, path: Path, baseline: Option<map<Path, Identity>>) {
    baseline.None? || path !in baseline.value || baseline.value[path] != id
  }

  predicate Changed(n: Node, path: Path, s: Scan) {
    Differs(IdentityOf(n), path, s.baseline)
  }

  /** Bytes of the path written with separators. */
  function PathLength(path: Path): nat {
    if path == [] then 0
    else if |path| == 1 then |path[0]|
    else PathLength(path[..|path| - 1]) + 1 + |path[|path| - 1]|
  }

  // ---- what the scan is meant to establish ----

  /** One entry is acceptable where it is. */
  ghost predicate EntryOk(n: Node, path: Path, s: Scan)
    requires path != []
  {
    && PathLength(path) <= MAX_NAME && |path| <= MAX_DEPTH
    && !AnyIn(s.patterns, path[|path| - 1])
    && (Changed(n, path, s) ==> !AnyIn(s.patterns, IdentityOf(n).payload))
    && (n.Link? || n.Device? ==> s.removing && !Changed(n, path, s))
    && (n.File? ==> n.inode != s.authInode && (Changed(n, path, s) ==> !Tainted(s.patterns, n.content)))
  }

  /** The tree below `rel` has node `n` at `path`. */
  ghost predicate Has(es: seq<Entry>, rel: Path, path: Path, n: Node) {
    exists i :: 0 <= i < |es| && EntryHas(es[i], rel, path, n)
  }

  ghost predicate EntryHas(e: Entry, rel: Path, path: Path, n: Node) {
    || (path == rel + [e.name] && n == e.node)
    || (e.node.Dir? && Has(e.node.entries, rel + [e.name], path, n))
  }

  /** Every entry at every depth is acceptable. */
  ghost predicate AllOk(es: seq<Entry>, rel: Path, s: Scan) {
    forall path, n :: Has(es, rel, path, n) ==> path != [] && EntryOk(n, path, s)
  }

  ghost predicate EntryAllOk(e: Entry, rel: Path, s: Scan) {
    forall path, n :: EntryHas(e, rel, path, n) ==> path != [] && EntryOk(n, path, s)
  }

  datatype Cost = Cost(files: nat, bytes: nat, pathBytes: nat)

  function Plus(a: Cost, b: Cost): Cost {
    Cost(a.files + b.files, a.bytes + b.bytes, a.pathBytes + b.pathBytes)
  }

  predicate Within(c: Cost) {
    c.files <= MAX_FILES && c.bytes <= MAX_BYTES && c.pathBytes <= MAX_PATH_BYTES
  }

  /** What an entry costs by itself: one file, its path, its changed attributes. */
  function HeadCost(n: Node, path: Path, s: Scan): Cost {
    Cost(1, if Changed(n, path, s) then |IdentityOf(n).payload| else 0, PathLength(path))
  }

  /** What an accepted entry costs: itself, the content of a file that differs from
      the baseline, and everything below a directory. */
  function EntryCost(e: Entry, rel: Path, s: Scan): Cost
    decreases e
  {
    var path := rel + [e.name];
    var head := HeadCost(e.node, path, s);
    match e.node
    case Dir(_, _, entries) => Plus(head, Total(entries, path, s))
    case File(_, _, _, content) => if Changed(e.node, path, s) then Plus(head, Cost(0, |content|, 0)) else head
    case _ => head
  }

  function Total(es: seq<Entry>, rel: Path, s: Scan): Cost
    decreases es
  {
    if es == [] then Cost(0, 0, 0)
    else Plus(Total(es[..|es| - 1], rel, s), EntryCost(es[|es| - 1], rel, s))
  }

  // ---- the same, said of the node's own fields ----

  /** The baseline records exactly this identity for the path. */
  ghost predicate RecordedAs(baseline: Option<map<Path, Identity>>, path: Path, kind: Kind, stamp: int, payload: Bytes) {
    && baseline.Some? && path in baseline.value
    && baseline.value[path].kind == kind && baseline.value[path].stamp == stamp && baseline.value[path].payload == payload
  }

  ghost predicate NoneOccurs(patterns: seq<Bytes>, hay: Bytes) {
    forall k :: 0 <= k < |patterns| ==> !Contains(hay, patterns[k])
  }

  /** What is not recorded exactly as it is must not hold a pattern anywhere. */
  ghost predicate NodeMeans(n: Node, path: Path, s: Scan) {
    match n
    case Dir(stamp, xattrs, _) => RecordedAs(s.baseline, path, Directory, stamp, xattrs) || NoneOccurs(s.patterns, xattrs)
    case File(stamp, xattrs, inode, content) =>
      && inode != s.authInode
      && (RecordedAs(s.baseline, path, Regular, stamp, xattrs)
          || (NoneOccurs(s.patterns, xattrs) && (content == [] || NoneOccurs(s.patterns, content))))
    case Link(stamp, payload) => s.removing && RecordedAs(s.baseline, path, Symlink, stamp, payload)
    case Device(stamp) => s.removing && RecordedAs(s.baseline, path, Special, stamp, [])
  }

  /** An entry is acceptable exactly if its path is within bounds, its name holds no
      pattern, and neither does what changed of the node. */
  lemma EntryOkExactly(n: Node, path: Path, s: Scan)
    requires path != []
    ensures EntryOk(n, path, s) <==>
              PathLength(path) <= 4096 && |path| <= 128 && NoneOccurs(s.patterns, path[|path| - 1]) && NodeMeans(n, path, s)
  {
  }

  /** The length of a path is that of its names and one separator between any two. */
  lemma {:induction false} PathLengthGrows(path: Path, name: Bytes)
    ensures PathLength([]) == 0 && PathLength([name]) == |name|
    ensures path != [] ==> PathLength(path + [name]) == PathLength(path) + 1 + |name|
  {
    assert (path + [name])[..|path|] == path;
  }

  // ---- the recursive form that the scan follows ----

  ghost predicate EntryClean(e: Entry, rel: Path, s: Scan)
    decreases e
  {
    && EntryOk(e.node, rel + [e.name], s)
    && (e.node.Dir? ==> Clean(e.node.entries, rel + [e.name], s))
  }

  ghost predicate Clean(es: seq<Entry>, rel: Path, s: Scan)
    decreases es
  {
    es == [] || (Clean(es[..|es| - 1], rel, s) && EntryClean(es[|es| - 1], rel, s))
  }

  lemma {:induction false} CleanIsAllOk(es: seq<Entry>, rel: Path, s: Scan)
    ensures Clean(es, rel, s) <==> AllOk(es, rel, s)
    decreases es
  {
    if es != [] {
      var front, last := es[..|es| - 1], es[|es| - 1];
      CleanIsAllOk(front, rel, s);
      EntryCleanIsOk(last, rel, s);
      forall path, n
        ensures Has(es, rel, path, n) <==> Has(front, rel, path, n) || EntryHas(last, rel, path, n)
      {
        if Has(es, rel, path, n) {
          var i :| 0 <= i < |es| && EntryHas(es[i], rel, path, n);
          assert i < |front| ==> front[i] == es[i];
        }
        if Has(front, rel, path, n) {
          var i :| 0 <= i < |front| && EntryHas(front[i], rel, path, n);
          assert es[i] == front[i];
        }
        if EntryHas(last, rel, path, n) {
          assert EntryHas(es[|es| - 1], rel, path, n);
        }
      }
    }
  }

  lemma {:induction false} EntryCleanIsOk(e: Entry, rel: Path, s: Scan)
    ensures EntryClean(e, rel, s) <==> EntryAllOk(e, rel, s)
    decreases e
  {
    var here := rel + [e.name];
    assert EntryHas(e, rel, here, e.node);
    if e.node.Dir? {
      CleanIsAllOk(e.node.entries, here, s);
      if EntryAllOk(e, rel, s) {
        forall path, n | Has(e.node.entries, here, path, n)
          ensures path != [] && EntryOk(n, path, s)
        {
          assert EntryHas(e, rel, path, n);
        }
      }
      if EntryClean(e, rel, s) {
        forall path, n | EntryHas(e, rel, path, n)
          ensures path != [] && EntryOk(n, path, s)
        {
          assert path == here || Has(e.node.entries, here, path, n);
        }
      }
    }
  }

  lemma {:induction false} CleanPrefix(es: seq<Entry>, rel: Path, s: Scan, i: nat)
    requires i <= |es| && Clean(es, rel, s)
    ensures Clean(es[..i], rel, s)
  {
    if i < |es| {
      CleanPrefix(es[..|es| - 1], rel, s, i);
      assert es[..|es| - 1][..i] == es[..i];
    } else {
      assert es[..i] == es;
    }
  }

  predicate AtMost(a: Cost, b: Cost) {
    a.files <= b.files && a.bytes <= b.bytes && a.pathBytes <= b.pathBytes
  }

  lemma {:induction false} TotalPrefix(es: seq<Entry>, rel: Path, s: Scan, i: nat)
    requires i <= |es|
    ensures AtMost(Total(es[..i], rel, s), Total(es, rel, s))
    ensures Total(es, rel, s).files >= |es|
  {
    if i < |es| {
      TotalPrefix(es[..|es| - 1], rel, s, i);
      assert es[..|es| - 1][..i] == es[..i];
    } else {
      assert es[..i] == es;
      if es != [] {
        TotalPrefix(es[..|es| - 1], rel, s, |es| - 1);
      }
    }
  }

  lemma StepOfPrefix(es: seq<Entry>, rel: Path, s: Scan, i: nat)
    requires i < |es|
    ensures Total(es[..i + 1], rel, s) == Plus(Total(es[..i], rel, s), EntryCost(es[i], rel, s))
    ensures Clean(es[..i + 1], rel, s) <==> Clean(es[..i], rel, s) && EntryClean(es[i], rel, s)
  {
    assert es[..i + 1][..i] == es[..i];
  }

  lemma CleanSnoc(es: seq<Entry>, e: Entry, rel: Path, s: Scan)
    requires Clean(es, rel, s) && EntryClean(e, rel, s)
    ensures Clean(es + [e], rel, s)
  {
    assert (es + [e])[..|es|] == es;
  }

  ghost predicate Passes(es: seq<Entry>, rel: Path, s: Scan, start: Cost) {
    Clean(es, rel, s) && Within(Plus(start, Total(es, rel, s)))
  }

  /** A directory passes only if all its beginnings do. */
  lemma PassesPrefix(es: seq<Entry>, rel: Path, s: Scan, start: Cost, i: nat)
    requires i <= |es| && Passes(es, rel, s, start)
    ensures Passes(es[..i], rel, s, start)
  {
    CleanPrefix(es, rel, s, i);
    TotalPrefix(es, rel, s, i);
  }

  lemma PassesStep(es: seq<Entry>, rel: Path, s: Scan, start: Cost, i: nat)
    requires i < |es|
    ensures Passes(es[..i + 1], rel, s, start) <==>
              && Clean(es[..i], rel, s) && EntryClean(es[i], rel, s)
              && Within(Plus(Plus(start, Total(es[..i], rel, s)), EntryCost(es[i], rel, s)))
    ensures Plus(start, Total(es[..i + 1], rel, s)) ==
              Plus(Plus(start, Total(es[..i], rel, s)), EntryCost(es[i], rel, s))
    ensures Clean(es[..i + 1], rel, s) ==> Clean(es[..i], rel, s) && EntryClean(es[i], rel, s)
  {
    StepOfPrefix(es, rel, s, i);
  }

  // ---- the scan ----

  class Budget {
    var files: nat
    var bytes: nat
    var pathBytes: nat

    constructor ()
      ensures Value() == Cost(0, 0, 0)
    {
      files, bytes, pathBytes := 0, 0, 0;
    }

    function Value(): Cost reads this {
      Cost(files, bytes, pathBytes)
    }
  }

  datatype EntryResult = EntryRejected | EntryRemoved | EntryKept(node: Node, removedInside: bool)

  datatype DirResult = DirRejected | DirScanned(removed: bool, survivors: seq<Entry>)

  /** The directory listing stops one entry past the remaining budget. */
  predicate ListingFits(es: seq<Entry>, files: nat) {
    |es| <= MAX_FILES - files
  }

  /** Charges an entry itself: one file, its path, and its attributes if they changed. */
  method ChargeEntry(n: Node, path: Path, s: Scan, budget: Budget) returns (fits: bool)
    requires Within(budget.Value())
    modifies budget
    ensures fits <==>
              && PathLength(path) <= MAX_NAME && |path| <= MAX_DEPTH
              && Within(Plus(old(budget.Value()), HeadCost(n, path, s)))
    ensures fits ==> budget.Value() == Plus(old(budget.Value()), HeadCost(n, path, s))
  {
    budget.files := budget.files + 1;
    if budget.files > MAX_FILES { return false; }
    budget.pathBytes := budget.pathBytes + PathLength(path);
    if PathLength(path) > MAX_NAME || budget.pathBytes > MAX_PATH_BYTES || |path| > MAX_DEPTH { return false; }
    if Changed(n, path, s) {
      budget.bytes := budget.bytes + |IdentityOf(n).payload|;
      if budget.bytes > MAX_BYTES { return false; }
    }
    fits := true;
  }

  method ScanEntry(e: Entry, rel: Path, s: Scan, budget: Budget) returns (r: EntryResult)
    requires Within(budget.Value())
    modifies budget
    ensures !r.EntryRejected? ==> Within(budget.Value())
    ensures r.EntryKept? && !r.removedInside <==>
              EntryClean(e, rel, s) && Within(Plus(old(budget.Value()), EntryCost(e, rel, s)))
    ensures r.EntryKept? && !r.removedInside ==>
              r.node == e.node && budget.Value() == Plus(old(budget.Value()), EntryCost(e, rel, s))
    ensures r.EntryRemoved? || (r.EntryKept? && r.removedInside) ==> s.removing && !EntryClean(e, rel, s)
    ensures r.EntryKept? ==> EntryClean(Entry(e.name, r.node), rel, s)
    decreases e, 1
  {
    var path := rel + [e.name];
    var payload := IdentityOf(e.node).payload;
    var changed := Changed(e.node, path, s);
    var charged := ChargeEntry(e.node, path, s, budget);
    if !charged { return EntryRejected; }
    if HasPattern(s.patterns, e.name) {
      return if s.removing then EntryRemoved else EntryRejected;
    }
    var metadata := changed && HasPattern(s.patterns, payload);
    match e.node
    case Dir(stamp, xattrs, entries) =>
      if metadata {
        return if s.removing then EntryRemoved else EntryRejected;
      }
      var below := ScanDirectory(entries, path, s, budget);
      if below.DirRejected? { return EntryRejected; }
      return EntryKept(Dir(stamp, xattrs, below.survivors), below.removed);
    case Link(_, _) =>
      if !s.removing { return EntryRejected; }
      return if changed then EntryRemoved else EntryKept(e.node, false);
    case Device(_) =>
      return if changed || !s.removing then EntryRejected else EntryKept(e.node, false);
    case File(_, _, inode, content) =>
      var fits, tainted := ScanFile(content, changed, inode == s.authInode || metadata, s.patterns, budget);
      if !fits { return EntryRejected; }
      if !tainted { return EntryKept(e.node, false); }
      return if s.removing then EntryRemoved else EntryRejected;
  }

  /** Reads a file only when it differs from the baseline or is suspect already. */
  method ScanFile(content: Bytes, changed: bool, suspect: bool, patterns: seq<Bytes>, budget: Budget)
    returns (fits: bool, tainted: bool)
    modifies budget
    ensures budget.files == old(budget.files) && budget.pathBytes == old(budget.pathBytes)
    ensures budget.bytes == old(budget.bytes) + (if changed || suspect then |content| else 0)
    ensures fits <==> (changed || suspect ==> budget.bytes <= MAX_BYTES)
    ensures fits ==> (tainted <==> suspect || (changed && Tainted(patterns, content)))
  {
    if !changed && !suspect { return true, false; }
    budget.bytes := budget.bytes + |content|;
    if budget.bytes > MAX_BYTES { return false, false; }
    fits := true;
    tainted := SearchInChunks(content, patterns, suspect);
  }

  /** Where the scan of a directory stands after `i` entries. */
  ghost predicate Progress(es: seq<Entry>, i: nat, rel: Path, s: Scan, start: Cost,
                           removed: bool, survivors: seq<Entry>, now: Cost)
    requires i <= |es|
  {
    && Clean(survivors, rel, s) && Within(now)
    && (!removed ==> survivors == es[..i] && now == Plus(start, Total(es[..i], rel, s)))
    && (removed ==> s.removing && !Clean(es[..i], rel, s))
  }

  lemma ProgressStep(es: seq<Entry>, i: nat, rel: Path, s: Scan, start: Cost,
                     removed: bool, survivors: seq<Entry>, before: Cost, one: EntryResult, now: Cost)
    requires i < |es| && Progress(es, i, rel, s, start, removed, survivors, before)
    requires !one.EntryRejected? && Within(now)
    requires one.EntryKept? && !one.removedInside ==> one.node == es[i].node && now == Plus(before, EntryCost(es[i], rel, s))
    requires one.EntryRemoved? || one.removedInside ==> s.removing && !EntryClean(es[i], rel, s)
    requires one.EntryKept? ==> EntryClean(Entry(es[i].name, one.node), rel, s)
    ensures
      var more := if one.EntryKept? then survivors + [Entry(es[i].name, one.node)] else survivors;
      Progress(es, i + 1, rel, s, start, removed || one.EntryRemoved? || one.removedInside, more, now)
  {
    StepOfPrefix(es, rel, s, i);
    if one.EntryKept? {
      CleanSnoc(survivors, Entry(es[i].name, one.node), rel, s);
    }
  }

  /** An entry that is rejected for itself or for its cost means that the directory
      does not pass. */
  lemma RejectedStep(es: seq<Entry>, rel: Path, s: Scan, start: Cost, i: nat,
                     removed: bool, survivors: seq<Entry>, before: Cost)
    requires i < |es| && Progress(es, i, rel, s, start, removed, survivors, before)
    requires !(EntryClean(es[i], rel, s) && Within(Plus(before, EntryCost(es[i], rel, s))))
    ensures !Passes(es, rel, s, start)
  {
    PassesStep(es, rel, s, start, i);
    if Passes(es, rel, s, start) {
      PassesPrefix(es, rel, s, start, i + 1);
    }
  }

  /** The scan keeps everything and stays silent exactly when every entry below is
      acceptable and the shared budget covers it; what it keeps is clean anyway. */
  method ScanDirectory(es: seq<Entry>, rel: Path, s: Scan, budget: Budget) returns (r: DirResult)
    requires Within(budget.Value())
    modifies budget
    ensures !r.DirRejected? ==> Within(budget.Value())
    ensures r.DirScanned? && !r.removed <==> Passes(es, rel, s, old(budget.Value()))
    ensures r.DirScanned? && !r.removed ==>
              r.survivors == es && budget.Value() == Plus(old(budget.Value()), Total(es, rel, s))
    ensures r.DirScanned? && r.removed ==> s.removing && !Clean(es, rel, s)
    ensures r.DirScanned? ==> Clean(r.survivors, rel, s)
    decreases es, 0
  {
    TotalPrefix(es, rel, s, 0);
    if !ListingFits(es, budget.files) { return DirRejected; }
    var removed := false;
    var survivors: seq<Entry> := [];
    ghost var start := budget.Value();
    for i := 0 to |es|
      invariant Progress(es, i, rel, s, start, removed, survivors, budget.Value())
    {
      ghost var before, kept := budget.Value(), survivors;
      var one := ScanEntry(es[i], rel, s, budget);
      if one.EntryRejected? {
        RejectedStep(es, rel, s, start, i, removed, kept, before);
        return DirRejected;
      }
      ProgressStep(es, i, rel, s, start, removed, kept, before, one, budget.Value());
      if one.EntryKept? {
        survivors := survivors + [Entry(es[i].name, one.node)];
      }
      removed := removed || one.EntryRemoved? || one.removedInside;
    }
    assert es[..|es|] == es;
    return DirScanned(removed, survivors);
  }
}
