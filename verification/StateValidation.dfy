/** Validation of everything a session leaves: worktree and private profile. */
module StateValidation {
  import opened Options
  import opened Text
  import opened PatternSearch
  import opened RetainedState

  type Attribute = (Bytes, Bytes)

  /** `owned`: a directory of the current user; `sealed`: mode 0700. */
  datatype Root = Root(owned: bool, sealed: bool, stamp: int, attributes: seq<Attribute>, entries: seq<Entry>)

  /** Each attribute as name, NUL, value, NUL. */
  function Canonical(items: seq<Attribute>): Bytes {
    if items == [] then [] else items[0].0 + [0] + items[0].1 + [0] + Canonical(items[1..])
  }

  predicate ItemTainted(item: Attribute, patterns: seq<Bytes>) {
    HasPattern(patterns, item.0) || HasPattern(patterns, item.1)
  }

  /** The attributes left after deleting every one that holds a pattern. */
  function Stripped(items: seq<Attribute>, patterns: seq<Bytes>): (kept: seq<Attribute>)
    ensures |kept| <= |items|
    ensures |kept| == |items| ==> kept == items
    ensures |kept| == |items| <==> forall k :: 0 <= k < |items| ==> !ItemTainted(items[k], patterns)
    ensures forall k :: 0 <= k < |kept| ==> !ItemTainted(kept[k], patterns)
  {
    if items == [] then []
    else
      var rest := Stripped(items[1..], patterns);
      assert forall k :: 1 <= k < |items| ==> items[k] == items[1..][k - 1];
      if ItemTainted(items[0], patterns) then rest else [items[0]] + rest
  }

  function RootIdentity(r: Root): Identity {
    Identity(Directory, r.stamp, Canonical(r.attributes))
  }

  function RootCost(r: Root, s: Scan): Cost {
    Cost(0, if Differs(RootIdentity(r), [], s.baseline) then |Canonical(r.attributes)| else 0, 0)
  }

  /** The attributes of a changed root hold no pattern: one by one in the worktree,
      as one canonical text in the profile. */
  ghost predicate RootClean(r: Root, s: Scan) {
    Differs(RootIdentity(r), [], s.baseline) ==>
      if s.removing then forall k :: 0 <= k < |r.attributes| ==> !ItemTainted(r.attributes[k], s.patterns)
      else !AnyIn(s.patterns, Canonical(r.attributes))
  }

  ghost predicate RootPasses(r: Root, s: Scan, start: Cost) {
    && r.owned && (s.removing || r.sealed)
    && RootClean(r, s)
    && Passes(r.entries, [], s, Plus(start, RootCost(r, s)))
  }

  /** `left`: the root as the scan left it. */
  datatype RootResult = RootRejected | RootScanned(removed: bool, left: Root)

  method ScanRoot(r: Root, s: Scan, budget: Budget) returns (result: RootResult)
    requires Within(budget.Value())
    modifies budget
    ensures result.RootScanned? && !result.removed <==> RootPasses(r, s, old(budget.Value()))
    ensures result.RootScanned? && !result.removed ==>
              && result.left == r
              && budget.Value() == Plus(Plus(old(budget.Value()), RootCost(r, s)), Total(r.entries, [], s))
    ensures result.RootScanned? ==> Within(budget.Value())
    ensures result.RootScanned? && result.removed ==> s.removing
    ensures result.RootScanned? ==> Clean(result.left.entries, [], s)
  {
    if !r.owned || (!s.removing && !r.sealed) { return RootRejected; }
    var removed := false;
    var attributes := Canonical(r.attributes);
    var kept := r.attributes;
    ghost var start := budget.Value();
    if Differs(RootIdentity(r), [], s.baseline) {
      budget.bytes := budget.bytes + |attributes|;
      if budget.bytes > MAX_BYTES {
        TotalPrefix(r.entries, [], s, 0);
        return RootRejected;
      }
      if HasPattern(s.patterns, attributes) {
        if !s.removing { return RootRejected; }
        kept := Stripped(r.attributes, s.patterns);
        removed := |kept| < |r.attributes|;
        if removed && HasPattern(s.patterns, Canonical(kept)) { return RootRejected; }
      } else {
        ItemsInCanonical(r.attributes, s.patterns);
      }
    }
    assert budget.Value() == Plus(start, RootCost(r, s));
    var below := ScanDirectory(r.entries, [], s, budget);
    if below.DirRejected? { return RootRejected; }
    return RootScanned(removed || below.removed, r.(attributes := kept, entries := below.survivors));
  }

  /** A pattern inside one attribute is inside the canonical text. */
  lemma {:induction false} ItemsInCanonical(items: seq<Attribute>, patterns: seq<Bytes>)
    requires !AnyIn(patterns, Canonical(items))
    ensures forall k :: 0 <= k < |items| ==> !ItemTainted(items[k], patterns)
  {
    if items != [] {
      var name, value, rest := items[0].0, items[0].1, Canonical(items[1..]);
      assert Canonical(items) == name + ([0] + value + [0] + rest);
      assert Canonical(items) == (name + [0]) + (value + ([0] + rest));
      assert Canonical(items) == (name + [0] + value + [0]) + rest;
      forall k | 0 <= k < |patterns|
        ensures !Contains(name, patterns[k]) && !Contains(value, patterns[k]) && !Contains(rest, patterns[k])
      {
        if Contains(name, patterns[k]) {
          ContainsExtended(name, [0] + value + [0] + rest, patterns[k]);
        }
        if Contains(value, patterns[k]) {
          ContainsExtended(value, [0] + rest, patterns[k]);
          ContainsExtended(name + [0], value + ([0] + rest), patterns[k]);
        }
        if Contains(rest, patterns[k]) {
          ContainsExtended(name + [0] + value + [0], rest, patterns[k]);
        }
      }
      assert !AnyIn(patterns, rest);
      ItemsInCanonical(items[1..], patterns);
      assert forall k :: 1 <= k < |items| ==> items[k] == items[1..][k - 1];
    }
  }

  // ---- the whole validation ----

  /** `snapshotKept`: the protected profile files are exactly as recorded. */
  datatype State = State(worktree: Root, profile: Root, snapshotKept: bool)

  /** The baselines per root; `None` when nothing was captured. */
  datatype Secrets = Secrets(patterns: seq<Bytes>, authInode: int,
                             worktree: Option<map<Path, Identity>>, profile: Option<map<Path, Identity>>)

  function WorktreeScan(x: Secrets): Scan {
    Scan(x.patterns, x.authInode, true, x.worktree)
  }

  function ProfileScan(x: Secrets): Scan {
    Scan(x.patterns, x.authInode, false, x.profile)
  }

  function Spent(r: Root, s: Scan): Cost {
    Plus(RootCost(r, s), Total(r.entries, [], s))
  }

  ghost predicate StateOk(state: State, x: Secrets) {
    && state.worktree.owned && RootClean(state.worktree, WorktreeScan(x))
    && AllOk(state.worktree.entries, [], WorktreeScan(x))
    && state.profile.owned && state.profile.sealed && RootClean(state.profile, ProfileScan(x))
    && AllOk(state.profile.entries, [], ProfileScan(x))
    && state.snapshotKept
    && Within(Plus(Spent(state.worktree, WorktreeScan(x)), Spent(state.profile, ProfileScan(x))))
  }

  /** A root that is not recorded as it is holds no pattern in its attributes. */
  ghost predicate RootMeans(r: Root, s: Scan) {
    || RecordedAs(s.baseline, [], Directory, r.stamp, Canonical(r.attributes))
    || (if s.removing then
          forall k :: 0 <= k < |r.attributes| ==>
            NoneOccurs(s.patterns, r.attributes[k].0) && NoneOccurs(s.patterns, r.attributes[k].1)
        else NoneOccurs(s.patterns, Canonical(r.attributes)))
  }

  lemma RootCleanExactly(r: Root, s: Scan)
    ensures RootClean(r, s) <==> RootMeans(r, s)
  {
  }

  /** The canonical text is each name and each value, in order, each followed by a NUL. */
  lemma {:induction false} CanonicalWritten(items: seq<Attribute>, item: Attribute)
    ensures Canonical([]) == [] && Canonical(items + [item]) == Canonical(items) + item.0 + [0] + item.1 + [0]
  {
    if items == [] {
      assert [item][1..] == [] && items + [item] == [item];
    } else {
      CanonicalWritten(items[1..], item);
      assert (items + [item])[1..] == items[1..] + [item];
    }
  }

  /** In a tree that passes, every node is as it was recorded or holds no pattern. */
  ghost predicate TreeMeans(es: seq<Entry>, s: Scan) {
    forall path, n :: Has(es, [], path, n) ==> path != [] && NoneOccurs(s.patterns, path[|path| - 1]) && NodeMeans(n, path, s)
  }

  /** A file that is not recorded with its own kind, stamp and attributes holds no
      nonempty pattern, and a link is recorded with its own. */
  lemma TreeHolds(es: seq<Entry>, s: Scan, path: Path, n: Node, k: nat)
    requires TreeMeans(es, s) && Has(es, [], path, n) && k < |s.patterns| && s.patterns[k] != []
    ensures n.File? && !RecordedAs(s.baseline, path, Regular, n.stamp, n.xattrs) ==>
              !Contains(n.content, s.patterns[k]) && !Contains(n.xattrs, s.patterns[k])
    ensures n.Link? ==> s.removing && RecordedAs(s.baseline, path, Symlink, n.stamp, n.payload)
  {
    assert NodeMeans(n, path, s);
    ContainsFits([], s.patterns[k]);
  }

  /** What acceptance says of one tree, entry by entry. */
  lemma AllOkMeans(es: seq<Entry>, s: Scan)
    requires AllOk(es, [], s)
    ensures TreeMeans(es, s)
  {
    forall path, n | Has(es, [], path, n)
      ensures path != [] && NoneOccurs(s.patterns, path[|path| - 1]) && NodeMeans(n, path, s)
    {
      EntryOkExactly(n, path, s);
    }
  }

  /** What acceptance says of both roots and their trees. */
  ghost predicate StateMeans(state: State, x: Secrets) {
    var w, p := Scan(x.patterns, x.authInode, true, x.worktree), Scan(x.patterns, x.authInode, false, x.profile);
    && RootMeans(state.worktree, w) && TreeMeans(state.worktree.entries, w)
    && RootMeans(state.profile, p) && TreeMeans(state.profile.entries, p)
  }

  lemma AcceptedMeans(state: State, x: Secrets)
    requires StateOk(state, x)
    ensures StateMeans(state, x)
  {
    var w, p := Scan(x.patterns, x.authInode, true, x.worktree), Scan(x.patterns, x.authInode, false, x.profile);
    AllOkMeans(state.worktree.entries, w);
    AllOkMeans(state.profile.entries, p);
    RootCleanExactly(state.worktree, w);
    RootCleanExactly(state.profile, p);
  }

  /** The two scans on one budget establish `StateOk`. */
  lemma ScansDecide(state: State, x: Secrets)
    ensures StateOk(state, x) <==>
              && RootPasses(state.worktree, WorktreeScan(x), Cost(0, 0, 0))
              && RootPasses(state.profile, ProfileScan(x), Spent(state.worktree, WorktreeScan(x)))
              && state.snapshotKept
  {
    var w, p := WorktreeScan(x), ProfileScan(x);
    CleanIsAllOk(state.worktree.entries, [], w);
    CleanIsAllOk(state.profile.entries, [], p);
    PlusAll(RootCost(state.worktree, w), Total(state.worktree.entries, [], w),
            RootCost(state.profile, p), Total(state.profile.entries, [], p));
  }

  lemma PlusAll(a: Cost, b: Cost, c: Cost, d: Cost)
    ensures Plus(Plus(Plus(a, b), c), d) == Plus(Plus(a, b), Plus(c, d))
    ensures Plus(Plus(Cost(0, 0, 0), a), b) == Plus(a, b)
    ensures Within(Plus(Plus(a, b), Plus(c, d))) ==> Within(Plus(a, b))
  {
  }

  /** Validation returns normally exactly for the states described by `StateOk`, and
      then it left both roots as they were, attributes and entries alike. A root whose
      scan did complete holds only acceptable entries, whatever the verdict, and the
      profile is never changed. */
  method Validate(state: State, x: Secrets) returns (accepted: bool, worktree: Option<Root>, profile: Option<Root>)
    ensures accepted <==> StateOk(state, x)
    ensures accepted ==> StateMeans(state, x)
    ensures accepted ==> worktree == Some(state.worktree) && profile == Some(state.profile)
    ensures worktree.Some? ==> AllOk(worktree.value.entries, [], WorktreeScan(x))
    ensures profile.Some? ==> profile.value == state.profile && AllOk(state.profile.entries, [], ProfileScan(x))
  {
    ScansDecide(state, x);
    if StateOk(state, x) {
      AcceptedMeans(state, x);
    }
    accepted, worktree, profile := ScanBoth(state.worktree, WorktreeScan(x), state.profile, ProfileScan(x), state.snapshotKept);
    if worktree.Some? {
      CleanIsAllOk(worktree.value.entries, [], WorktreeScan(x));
    }
    if profile.Some? {
      CleanIsAllOk(profile.value.entries, [], ProfileScan(x));
    }
  }

  /** Scans the worktree and then the profile, on one budget. */
  method ScanBoth(w: Root, ws: Scan, p: Root, ps: Scan, snapshotKept: bool)
    returns (accepted: bool, worktree: Option<Root>, profile: Option<Root>)
    requires !ps.removing
    ensures accepted <==> RootPasses(w, ws, Cost(0, 0, 0)) && RootPasses(p, ps, Spent(w, ws)) && snapshotKept
    ensures accepted ==> worktree == Some(w) && profile == Some(p)
    ensures worktree.Some? ==> Clean(worktree.value.entries, [], ws)
    ensures profile.Some? ==> profile.value == p && Clean(p.entries, [], ps)
  {
    worktree, profile := None, None;
    var budget, first := ScanWorktree(w, ws);
    if first.RootRejected? { return false, worktree, profile; }
    worktree := Some(first.left);
    var second := ScanRoot(p, ps, budget);
    if second.RootScanned? { profile := Some(second.left); }
    accepted := second.RootScanned? && snapshotKept && !first.removed && !second.removed;
  }

  /** The first scan, on a new budget. */
  method ScanWorktree(r: Root, s: Scan) returns (budget: Budget, result: RootResult)
    ensures fresh(budget)
    ensures result.RootScanned? ==> Within(budget.Value())
    ensures result.RootScanned? && !result.removed <==> RootPasses(r, s, Cost(0, 0, 0))
    ensures result.RootScanned? && !result.removed ==> result.left == r && budget.Value() == Spent(r, s)
    ensures result.RootScanned? ==> Clean(result.left.entries, [], s)
  {
    budget := new Budget();
    result := ScanRoot(r, s, budget);
    PlusAll(RootCost(r, s), Total(r.entries, [], s), Cost(0, 0, 0), Cost(0, 0, 0));
  }

  // ---- the one gap: worktree root attributes ----

  lemma SliceHolds(whole: Bytes, from: nat, to: nat, at: nat)
    requires from <= to <= |whole|
    ensures from <= at < to ==> whole[at] in whole[from..to]
  {
    if from <= at < to {
      assert whole[from..to][at - from] == whole[at];
    }
  }

  /** A text split by NULs holds a NUL-free needle only within one part. */
  lemma NulFreeSplits(a: Bytes, b: Bytes, needle: Bytes)
    requires needle != [] && 0 !in needle && Contains(a + [0] + b, needle)
    ensures Contains(a, needle) || Contains(b, needle)
  {
    var whole := a + [0] + b;
    var i :| OccursAt(needle, whole, i);
    var n := |needle|;
    SliceHolds(whole, i, i + n, |a|);
    if i + n <= |a| {
      assert a[i..i + n] == whole[i..i + n];
      assert OccursAt(needle, a, i);
    } else {
      SliceOfRight(a + [0], b, i - |a| - 1, i - |a| - 1 + n);
      assert OccursAt(needle, b, i - |a| - 1);
    }
  }

  /** The worktree's check of each attribute says what the profile's check of the
      canonical text says. */
  ghost predicate ChecksAgree(items: seq<Attribute>, patterns: seq<Bytes>) {
    (forall k :: 0 <= k < |items| ==> !ItemTainted(items[k], patterns)) <==> !AnyIn(patterns, Canonical(items))
  }

  /** Bytes of the attributes that one listing may hold. */
  const LISTING: nat := 64 * 1024

  /** Attributes as a listing returns them: names are nonempty, hold no NUL and do
      not repeat, and everything fits the bound. */
  predicate WellFormed(items: seq<Attribute>) {
    && (forall k :: 0 <= k < |items| ==> items[k].0 != [] && 0 !in items[k].0)
    && (forall i, j :: 0 <= i < j < |items| ==> items[i].0 != items[j].0)
    && |Canonical(items)| <= LISTING
  }

  /** The patterns are a whole JSON object and secret values of at least eight bytes. */
  predicate LongPatterns(patterns: seq<Bytes>) {
    forall k :: 0 <= k < |patterns| ==> |patterns[k]| >= 2
  }

  /** The text ends in a NUL that is not its first. */
  predicate EndsPair(p: Bytes) {
    p != [] && p[|p| - 1] == 0 && FirstNul(p) < |p| - 1
  }

  /** The least canonical text that holds `p`: before a NUL there is a name, and behind
      the last value there is a NUL. */
  function Room(p: Bytes): nat {
    |p| + (if p != [] && p[0] == 0 then 1 else 0) + (if EndsPair(p) then 0 else 1)
  }

  /** Every pattern with a NUL that fits a listing holds one without. */
  ghost predicate NulRedundant(patterns: seq<Bytes>) {
    forall k :: 0 <= k < |patterns| && 0 in patterns[k] && Room(patterns[k]) <= LISTING ==>
      HoldsNulFree(patterns[k], patterns)
  }

  ghost predicate HoldsNulFree(hay: Bytes, patterns: seq<Bytes>) {
    exists j :: 0 <= j < |patterns| && 0 !in patterns[j] && Contains(hay, patterns[j])
  }

  lemma ContainsFits(hay: Bytes, needle: Bytes)
    ensures Contains(hay, needle) ==> |needle| <= |hay| && (0 !in hay ==> 0 !in needle)
  {
    if i :| OccursAt(needle, hay, i) {
      assert forall k :: 0 <= k < |needle| ==> needle[k] == hay[i..i + |needle|][k] == hay[i + k];
    }
  }

  /** A NUL-free needle in the canonical text is in some attribute. */
  lemma {:induction false} NeedleInItem(items: seq<Attribute>, needle: Bytes) returns (k: nat)
    requires needle != [] && 0 !in needle && Contains(Canonical(items), needle)
    ensures k < |items| && (Contains(items[k].0, needle) || Contains(items[k].1, needle))
  {
    ContainsFits(Canonical(items), needle);
    var name, value, rest := items[0].0, items[0].1, Canonical(items[1..]);
    assert Canonical(items) == name + [0] + (value + [0] + rest);
    NulFreeSplits(name, value + [0] + rest, needle);
    k := 0;
    if !Contains(name, needle) {
      NulFreeSplits(value, rest, needle);
      if !Contains(value, needle) {
        var j := NeedleInItem(items[1..], needle);
        k := j + 1;
      }
    }
  }

  lemma SliceOfSlice(a: Bytes, i: nat, to: nat, j: nat, m: nat)
    requires i <= to <= |a| && j <= m <= to - i
    ensures a[i..to][j..m] == a[i + j..i + m]
  {
    var s := a[i..to];
    assert forall k :: 0 <= k < |s| ==> s[k] == a[i + k];
    assert forall k :: 0 <= k < m - j ==> s[j..m][k] == s[j + k];
  }

  lemma ContainsThrough(a: Bytes, b: Bytes, c: Bytes)
    ensures Contains(a, b) && Contains(b, c) ==> Contains(a, c)
  {
    if Contains(a, b) && Contains(b, c) {
      var i :| OccursAt(b, a, i);
      var j :| OccursAt(c, b, j);
      SliceOfSlice(a, i, i + |b|, j, j + |c|);
      assert OccursAt(c, a, i + j);
    }
  }

  lemma {:induction false} CanonicalEnds(items: seq<Attribute>)
    requires items != []
    ensures |Canonical(items)| >= |items[0].0| + 2 && Canonical(items)[|Canonical(items)| - 1] == 0
    ensures Canonical(items)[..|items[0].0|] == items[0].0 && Canonical(items)[|items[0].0|] == 0
  {
    if |items| > 1 {
      CanonicalEnds(items[1..]);
    } else {
      assert Canonical(items[1..]) == [];
    }
  }

  /** No listing with less room holds the text. */
  lemma RoomNeeded(items: seq<Attribute>, p: Bytes)
    requires WellFormed(items) && |p| >= 2 && Contains(Canonical(items), p)
    ensures Room(p) <= |Canonical(items)|
  {
    var text := Canonical(items);
    var i :| OccursAt(p, text, i);
    assert items != [];
    CanonicalEnds(items);
    var n := |items[0].0|;
    assert text[0] == text[..n][0] != 0;
    assert p[0] == text[i] && p[|p| - 1] == text[i + |p| - 1];
    if |text| == |p| {
      assert p == text && p[n] == 0;
    }
  }

  function FirstNul(p: Bytes): (i: nat)
    ensures i <= |p| && (i < |p| ==> p[i] == 0) && forall k :: 0 <= k < i ==> p[k] != 0
  {
    if p == [] || p[0] == 0 then 0 else 1 + FirstNul(p[1..])
  }

  /** If NULs are redundant, a tainted canonical text has a tainted attribute. */
  lemma RedundantAgrees(items: seq<Attribute>, patterns: seq<Bytes>)
    requires LongPatterns(patterns) && NulRedundant(patterns) && WellFormed(items)
    ensures ChecksAgree(items, patterns)
  {
    if AnyIn(patterns, Canonical(items)) {
      var k :| 0 <= k < |patterns| && Contains(Canonical(items), patterns[k]);
      var j := k;
      if 0 in patterns[k] {
        RoomNeeded(items, patterns[k]);
        j :| 0 <= j < |patterns| && 0 !in patterns[j] && Contains(patterns[k], patterns[j]);
        ContainsThrough(Canonical(items), patterns[k], patterns[j]);
      }
      var i := NeedleInItem(items, patterns[j]);
      assert ItemTainted(items[i], patterns);
    } else {
      ItemsInCanonical(items, patterns);
    }
  }

  lemma Cut(p: Bytes, i: nat)
    requires i < |p|
    ensures p == p[..i] + [p[i]] + p[i + 1..]
  {
  }

  /** Pattern `k` has a NUL and holds no pattern without one. */
  ghost predicate Spanning(patterns: seq<Bytes>, k: nat) {
    k < |patterns| && 0 in patterns[k] && !HoldsNulFree(patterns[k], patterns)
  }

  /** And it fits a listing. */
  ghost predicate Fitting(patterns: seq<Bytes>, k: nat) {
    Spanning(patterns, k) && Room(patterns[k]) <= LISTING
  }

  ghost predicate Shortest(patterns: seq<Bytes>, k: nat) {
    Fitting(patterns, k) && forall j: nat :: Fitting(patterns, j) ==> |patterns[k]| <= |patterns[j]|
  }

  lemma ShortestSpanning(patterns: seq<Bytes>, k: nat) returns (m: nat)
    requires Fitting(patterns, k)
    ensures Shortest(patterns, m)
    decreases |patterns[k]|
  {
    if j: nat :| Fitting(patterns, j) && |patterns[j]| < |patterns[k]| {
      m := ShortestSpanning(patterns, j);
    } else {
      m := k;
    }
  }

  lemma HoldsThrough(a: Bytes, b: Bytes, patterns: seq<Bytes>)
    ensures Contains(a, b) && HoldsNulFree(b, patterns) ==> HoldsNulFree(a, patterns)
  {
    if Contains(a, b) && HoldsNulFree(b, patterns) {
      var j :| 0 <= j < |patterns| && 0 !in patterns[j] && Contains(b, patterns[j]);
      ContainsThrough(a, b, patterns[j]);
    }
  }

  /** No pattern is in a proper part of a shortest spanning one. */
  lemma PartUntainted(patterns: seq<Bytes>, m: nat, x: Bytes)
    requires Shortest(patterns, m) && Contains(patterns[m], x) && |x| < |patterns[m]| && |x| <= LISTING - 2
    ensures !AnyIn(patterns, x)
  {
    var p := patterns[m];
    forall j: nat | j < |patterns| ensures !Contains(x, patterns[j]) {
      ContainsFits(x, patterns[j]);
      ContainsThrough(p, x, patterns[j]);
      HoldsThrough(p, patterns[j], patterns);
      assert Fitting(patterns, j) ==> |p| <= |patterns[j]|;
    }
  }

  lemma ShortUntainted(patterns: seq<Bytes>, x: Bytes)
    requires LongPatterns(patterns) && |x| <= 1
    ensures !AnyIn(patterns, x)
  {
    forall j | 0 <= j < |patterns| ensures !Contains(x, patterns[j]) {
      ContainsFits(x, patterns[j]);
    }
  }

  /** A name that ends in what precedes the NUL, and what follows it as the value. */
  lemma SpansCanonical(x: Bytes, front: Bytes, value: Bytes, p: Bytes)
    requires p == front + [0] + value || p == front + [0] + value + [0]
    ensures Contains(Canonical([(x + front, value)]), p)
    ensures |Canonical([(x + front, value)])| == |x| + |front| + |value| + 2
  {
    var text := Canonical([(x + front, value)]);
    assert [(x + front, value)][1..] == [] && Canonical([]) == [];
    assert text == x + (front + [0] + value + [0]);
    assert p == (front + [0] + value + [0])[..|p|];
    assert text[|x|..|x| + |p|] == p;
    assert OccursAt(p, text, |x|);
  }

  /** The value behind the first NUL, without the NUL that ends a value anyway. */
  function ValueOf(p: Bytes): Bytes
    requires 0 in p
  {
    var after := p[FirstNul(p) + 1..];
    if EndsPair(p) then after[..|after| - 1] else after
  }

  lemma LastSplit(front: Bytes, after: Bytes)
    requires after != [] && after[|after| - 1] == 0
    ensures front + [0] + after == front + [0] + after[..|after| - 1] + [0]
  {
    assert after == after[..|after| - 1] + [0];
  }

  lemma ValueJoins(p: Bytes)
    requires 0 in p
    ensures
      var front, value := p[..FirstNul(p)], ValueOf(p);
      p == (if EndsPair(p) then front + [0] + value + [0] else front + [0] + value)
  {
    var i := FirstNul(p);
    Cut(p, i);
    if EndsPair(p) {
      LastSplit(p[..i], p[i + 1..]);
    }
  }

  lemma ValueFits(p: Bytes)
    requires 0 in p
    ensures
      var front, value := p[..FirstNul(p)], ValueOf(p);
      && Contains(p, front) && Contains(p, value) && |front| < |p| && |value| < |p|
      && |front| + |value| + 2 + (if front == [] then 1 else 0) == Room(p)
  {
    var i := FirstNul(p);
    var after := p[i + 1..];
    assert OccursAt(p[..i], p, 0);
    assert p[i + 1..|p|] == after;
    assert OccursAt(after, p, i + 1) && OccursAt(ValueOf(p), after, 0);
    ContainsThrough(p, after, ValueOf(p));
  }

  /** One attribute, cut at the first NUL of a shortest spanning pattern, holds the
      pattern in its canonical text and no pattern in its name or value. */
  lemma SpanningAttribute(patterns: seq<Bytes>, m: nat) returns (item: Attribute)
    requires LongPatterns(patterns) && Shortest(patterns, m)
    ensures WellFormed([item]) && !ItemTainted(item, patterns) && AnyIn(patterns, Canonical([item]))
  {
    var p := patterns[m];
    var front, value := p[..FirstNul(p)], ValueOf(p);
    ValueFits(p);
    ValueJoins(p);
    PartUntainted(patterns, m, front);
    PartUntainted(patterns, m, value);
    item := NamedValue(patterns, front, value, p);
  }

  lemma NamedValue(patterns: seq<Bytes>, front: Bytes, value: Bytes, p: Bytes) returns (item: Attribute)
    requires LongPatterns(patterns) && p in patterns && 0 !in front
    requires p == front + [0] + value || p == front + [0] + value + [0]
    requires !AnyIn(patterns, front) && !AnyIn(patterns, value)
    requires |front| + |value| + 2 + (if front == [] then 1 else 0) <= LISTING
    ensures WellFormed([item]) && !ItemTainted(item, patterns) && AnyIn(patterns, Canonical([item]))
  {
    var x: Bytes := if front == [] then [65] else [];
    item := (x + front, value);
    SpansCanonical(x, front, value, p);
    ShortUntainted(patterns, x);
    assert x + front == (if front == [] then x else front);
  }

  /** The two root checks agree on all attributes a listing can return exactly if
      every pattern with a NUL that fits a listing holds one without. */
  lemma ChecksAgreeExactly(patterns: seq<Bytes>)
    requires LongPatterns(patterns)
    ensures (forall items | WellFormed(items) :: ChecksAgree(items, patterns)) <==> NulRedundant(patterns)
  {
    if NulRedundant(patterns) {
      forall items | WellFormed(items) ensures ChecksAgree(items, patterns) {
        RedundantAgrees(items, patterns);
      }
    } else {
      var item := SpanningListing(patterns);
      assert !ChecksAgree([item], patterns);
    }
  }

  lemma SpanningListing(patterns: seq<Bytes>) returns (item: Attribute)
    requires LongPatterns(patterns) && !NulRedundant(patterns)
    ensures WellFormed([item]) && !ItemTainted(item, patterns) && AnyIn(patterns, Canonical([item]))
  {
    var k :| 0 <= k < |patterns| && 0 in patterns[k] && Room(patterns[k]) <= LISTING && !HoldsNulFree(patterns[k], patterns);
    var m := ShortestSpanning(patterns, k);
    item := SpanningAttribute(patterns, m);
  }

  /** A state that passes, with a worktree root that is not the one of the baseline. */
  ghost predicate PassesChanged(state: State, x: Secrets, patterns: seq<Bytes>) {
    && x.patterns == patterns && StateOk(state, x)
    && WellFormed(state.worktree.attributes) && Differs(RootIdentity(state.worktree), [], x.worktree)
  }

  /** A changed worktree root that passes never holds a pattern in its canonical
      attributes, exactly for the same patterns. */
  lemma PassingRootsExactly(patterns: seq<Bytes>)
    requires LongPatterns(patterns)
    ensures
      (forall state, x | PassesChanged(state, x, patterns) :: !AnyIn(patterns, Canonical(state.worktree.attributes)))
      <==> NulRedundant(patterns)
  {
    if NulRedundant(patterns) {
      forall state, x | PassesChanged(state, x, patterns)
        ensures !AnyIn(patterns, Canonical(state.worktree.attributes))
      {
        RedundantAgrees(state.worktree.attributes, patterns);
      }
    } else {
      var item := SpanningListing(patterns);
      var state, x := OneAttributeAccepted(item, patterns);
      assert PassesChanged(state, x, patterns);
    }
  }

  function Ascii(s: string): (b: Bytes)
    requires forall i :: 0 <= i < |s| ==> s[i] < 256 as char
    ensures |b| == |s| && forall i :: 0 <= i < |s| ==> b[i] == s[i] as int
  {
    seq(|s|, i requires 0 <= i < |s| => s[i] as int)
  }

  /** So a secret with a NUL can span the name and value of a changed root attribute,
      and validation still accepts: here the token of the authentication object
      `{"token":"AAAA\u0000BBBB"}`, and the attribute `user.AAAA` with value `BBBB`. */
  lemma SpanningPatternAccepted() returns (state: State, x: Secrets)
    ensures x.patterns == [Ascii("{\"token\":\"AAAA\\u0000BBBB\"}"), Ascii("AAAA") + [0] + Ascii("BBBB")]
    ensures StateOk(state, x)
    ensures WellFormed(state.worktree.attributes) && Differs(RootIdentity(state.worktree), [], x.worktree)
    ensures AnyIn(x.patterns, Canonical(state.worktree.attributes))
  {
    var payload := Ascii("{\"token\":\"AAAA\\u0000BBBB\"}");
    var secret := Ascii("AAAA") + [0] + Ascii("BBBB");
    var item: Attribute := (Ascii("user.AAAA"), Ascii("BBBB"));
    SpanningItem(item, payload, secret);
    state, x := OneAttributeAccepted(item, [payload, secret]);
  }

  /** A worktree root whose one attribute was added, and nothing else. */
  lemma OneAttributeAccepted(item: Attribute, patterns: seq<Bytes>) returns (state: State, x: Secrets)
    requires !ItemTainted(item, patterns) && |Canonical([item])| <= 64 * 1024
    ensures StateOk(state, x) && x.patterns == patterns && state.worktree.attributes == [item]
    ensures Differs(RootIdentity(state.worktree), [], x.worktree)
  {
    var empty := Root(true, true, 1, [], []);
    x := Secrets(patterns, 7, None, Some(map[[] := RootIdentity(empty)]));
    state := State(Root(true, true, 1, [item], []), empty, true);
    OneItemClean(state.worktree, WorktreeScan(x), item);
    EmptyRootPasses(state.worktree, WorktreeScan(x), Cost(0, 0, 0));
    EmptyRootPasses(state.profile, ProfileScan(x), Spent(state.worktree, WorktreeScan(x)));
    ScansDecide(state, x);
  }

  lemma OneItemClean(r: Root, s: Scan, item: Attribute)
    requires r.attributes == [item] && s.removing && !ItemTainted(item, s.patterns)
    ensures RootClean(r, s)
  {
  }

  lemma EmptyRootPasses(r: Root, s: Scan, start: Cost)
    requires r.entries == [] && r.owned && r.sealed && RootClean(r, s) && |Canonical(r.attributes)| <= 64 * 1024
    requires start.files == 0 && start.pathBytes == 0 && start.bytes <= 64 * 1024
    ensures RootPasses(r, s, start) && Spent(r, s) == RootCost(r, s)
  {
    assert Total([], [], s) == Cost(0, 0, 0) && Clean([], [], s);
  }

  lemma SpanningItem(item: Attribute, payload: Bytes, secret: Bytes)
    requires item == (Ascii("user.AAAA"), Ascii("BBBB")) && |payload| == 26
    requires secret == Ascii("AAAA") + [0] + Ascii("BBBB")
    ensures AnyIn([payload, secret], Canonical([item])) && !ItemTainted(item, [payload, secret])
    ensures |Canonical([item])| == 15 && WellFormed([item])
  {
    assert item.0 == Ascii("user.") + Ascii("AAAA");
    SpansCanonical(Ascii("user."), Ascii("AAAA"), Ascii("BBBB"), secret);
    assert [payload, secret][1] == secret && [item][1..] == [];
    assert secret[4] == 0;
    forall k | 0 <= k < 2 ensures !Contains(item.0, [payload, secret][k]) && !Contains(item.1, [payload, secret][k]) {
      ContainsFits(item.0, [payload, secret][k]);
      ContainsFits(item.1, [payload, secret][k]);
    }
  }
}
