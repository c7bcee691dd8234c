/** Backup, verify and restore of tier-3 state.

    Verify and restore are separate procedures over the same archive; both are
    proved against one description of valid archives. */
module BackupRestore {
  import opened Options
  import opened Text
  import opened Archive

  // ---- which archives are valid ----

  /** Paths are present and pairwise distinct. */
  ghost predicate Keyed(paths: seq<Option<Path>>) {
    && (forall i :: 0 <= i < |paths| ==> paths[i].Some?)
    && (forall i, j :: 0 <= i < j < |paths| ==> paths[i] != paths[j])
  }

  function ItemPaths(items: seq<Item>): seq<Option<Path>> {
    seq(|items|, i requires 0 <= i < |items| => items[i].path)
  }

  function RecordPaths(records: seq<Record>): seq<Option<Path>> {
    seq(|records|, i requires 0 <= i < |records| => records[i].path)
  }

  /** Positions by path. */
  ghost predicate Indexes(index: map<Path, nat>, paths: seq<Option<Path>>) {
    && (forall p :: p in index ==> index[p] < |paths| && paths[index[p]] == Some(p))
    && (forall i :: 0 <= i < |paths| && paths[i].Some? ==> paths[i].value in index && index[paths[i].value] == i)
  }

  /** Structure and authorization, checked before any payload is looked at: safe
      distinct regular members, one readable manifest, and the same set of names. */
  ghost predicate Bound(items: seq<Item>, records: seq<Record>, m: nat, env: Reader) {
    && Keyed(ItemPaths(items)) && m < |items| && items[m].path == Some(MANIFEST)
    && env.manifest(items[m].data) == Some(records)
    && Keyed(RecordPaths(records))
    && (forall p :: p != MANIFEST ==> (Some(p) in ItemPaths(items) <==> Some(p) in RecordPaths(records)))
    && Some(MANIFEST) !in RecordPaths(records)
  }

  predicate PayloadOk(item: Item, meta: Meta, env: Reader) {
    && item.data.Some?
    && item.size == meta.size && |item.data.value| == meta.size && env.sha(item.data.value) == meta.digest
  }

  /** Every recorded size and digest is that of its member. */
  ghost predicate PayloadsOk(items: seq<Item>, records: seq<Record>, env: Reader) {
    forall i, k :: 0 <= i < |records| && 0 <= k < |items| && items[k].path == records[i].path ==>
      PayloadOk(items[k], records[i].meta, env)
  }

  ghost predicate Valid(items: seq<Item>, env: Reader) {
    exists records, m :: Bound(items, records, m, env) && PayloadsOk(items, records, env)
  }

  /** Every member has the size and the digest that its record says. */
  ghost predicate Intact(items: seq<Item>, records: seq<Record>, env: Reader) {
    forall i, k :: 0 <= i < |records| && 0 <= k < |items| && items[k].path == records[i].path ==>
      && items[k].data.Some?
      && items[k].size == records[i].meta.size
      && |items[k].data.value| == records[i].meta.size
      && env.sha(items[k].data.value) == records[i].meta.digest
  }

  lemma IntactExactly(items: seq<Item>, records: seq<Record>, env: Reader)
    ensures PayloadsOk(items, records, env) <==> Intact(items, records, env)
  {
    if Intact(items, records, env) {
      forall i, k | 0 <= i < |records| && 0 <= k < |items| && items[k].path == records[i].path
        ensures PayloadOk(items[k], records[i].meta, env)
      {
      }
    }
  }

  lemma BoundIsUnique(items: seq<Item>, r1: seq<Record>, m1: nat, r2: seq<Record>, m2: nat, env: Reader)
    requires Bound(items, r1, m1, env) && Bound(items, r2, m2, env)
    ensures r1 == r2 && m1 == m2
  {
    assert ItemPaths(items)[m1] == ItemPaths(items)[m2];
  }

  // ---- reading ----

  /** Fills a dictionary by path, refusing a bad or repeated path. */
  method IndexPaths(paths: seq<Option<Path>>) returns (ok: bool, index: map<Path, nat>)
    ensures ok <==> Keyed(paths)
    ensures ok ==> Indexes(index, paths)
  {
    index := map[];
    for i := 0 to |paths|
      invariant Keyed(paths[..i]) && Indexes(index, paths[..i])
    {
      if paths[i].None? || paths[i].value in index {
        return false, index;
      }
      index := index[paths[i].value := i];
    }
    assert paths[..|paths|] == paths;
    ok := true;
  }

  datatype Reading = Unreadable | Readable(records: seq<Record>, index: map<Path, nat>)

  /** Validates and binds the manifest and the data members. */
  method ReadArchive(items: seq<Item>, env: Reader) returns (r: Reading, ghost m: nat)
    ensures r.Unreadable? ==> forall records, k :: !Bound(items, records, k, env)
    ensures r.Readable? ==> Bound(items, r.records, m, env) && Indexes(r.index, ItemPaths(items))
  {
    m := 0;
    var ok, index := IndexPaths(ItemPaths(items));
    if !ok { return Unreadable, m; }
    if MANIFEST !in index {
      NoManifest(items, index);
      return Unreadable, m;
    }
    m := index[MANIFEST];
    var records := env.manifest(items[index[MANIFEST]].data);
    if records.None? {
      NoRecords(items, index, env);
      return Unreadable, m;
    }
    var distinct, names := IndexPaths(RecordPaths(records.value));
    if !distinct || names.Keys != index.Keys - {MANIFEST} {
      if distinct {
        NamesDiffer(items, index, records.value, names, env);
      } else {
        NotKeyed(items, index, records.value, env);
      }
      return Unreadable, m;
    }
    NamesAgree(items, index, records.value, names);
    r := Readable(records.value, index);
  }

  lemma NoManifest(items: seq<Item>, index: map<Path, nat>)
    requires Indexes(index, ItemPaths(items)) && MANIFEST !in index
    ensures forall k :: 0 <= k < |items| ==> items[k].path != Some(MANIFEST)
  {
    forall k | 0 <= k < |items| ensures items[k].path != Some(MANIFEST) {
      assert ItemPaths(items)[k] == items[k].path;
    }
  }

  /** With an index, the manifest member and so the records are determined. */
  lemma ManifestFixed(items: seq<Item>, index: map<Path, nat>, records: seq<Record>, k: nat, env: Reader)
    requires Indexes(index, ItemPaths(items)) && MANIFEST in index && Bound(items, records, k, env)
    ensures k == index[MANIFEST] && env.manifest(items[index[MANIFEST]].data) == Some(records)
  {
    assert ItemPaths(items)[k] == Some(MANIFEST);
  }

  lemma NoRecords(items: seq<Item>, index: map<Path, nat>, env: Reader)
    requires Indexes(index, ItemPaths(items)) && MANIFEST in index
    requires env.manifest(items[index[MANIFEST]].data).None?
    ensures forall records, k :: !Bound(items, records, k, env)
  {
    forall records, k ensures !Bound(items, records, k, env) {
      if Bound(items, records, k, env) {
        ManifestFixed(items, index, records, k, env);
      }
    }
  }

  lemma NotKeyed(items: seq<Item>, index: map<Path, nat>, read: seq<Record>, env: Reader)
    requires Indexes(index, ItemPaths(items)) && MANIFEST in index
    requires env.manifest(items[index[MANIFEST]].data) == Some(read)
    requires !Keyed(RecordPaths(read))
    ensures forall records, k :: !Bound(items, records, k, env)
  {
    forall records, k ensures !Bound(items, records, k, env) {
      if Bound(items, records, k, env) {
        ManifestFixed(items, index, records, k, env);
      }
    }
  }

  lemma NamesDiffer(items: seq<Item>, index: map<Path, nat>, read: seq<Record>, names: map<Path, nat>, env: Reader)
    requires Indexes(index, ItemPaths(items)) && MANIFEST in index
    requires env.manifest(items[index[MANIFEST]].data) == Some(read)
    requires Indexes(names, RecordPaths(read))
    requires names.Keys != index.Keys - {MANIFEST}
    ensures forall records, k :: !Bound(items, records, k, env)
  {
    forall records, k ensures !Bound(items, records, k, env) {
      if Bound(items, records, k, env) {
        ManifestFixed(items, index, records, k, env);
        forall p ensures p in names <==> p in index && p != MANIFEST {
          IndexMember(index, ItemPaths(items), p);
          IndexMember(names, RecordPaths(read), p);
        }
      }
    }
  }

  lemma NamesAgree(items: seq<Item>, index: map<Path, nat>, read: seq<Record>, names: map<Path, nat>)
    requires Indexes(index, ItemPaths(items)) && Indexes(names, RecordPaths(read))
    requires names.Keys == index.Keys - {MANIFEST}
    ensures forall p :: p != MANIFEST ==> (Some(p) in ItemPaths(items) <==> Some(p) in RecordPaths(read))
    ensures Some(MANIFEST) !in RecordPaths(read)
  {
    forall p ensures p != MANIFEST ==> (Some(p) in ItemPaths(items) <==> Some(p) in RecordPaths(read)) {
      IndexMember(index, ItemPaths(items), p);
      IndexMember(names, RecordPaths(read), p);
      assert p in names.Keys <==> p in index.Keys && p != MANIFEST;
    }
    IndexMember(names, RecordPaths(read), MANIFEST);
    assert MANIFEST !in names.Keys;
  }

  lemma IndexMember(index: map<Path, nat>, paths: seq<Option<Path>>, p: Path)
    requires Indexes(index, paths)
    ensures p in index <==> Some(p) in paths
  {
    if Some(p) in paths {
      var i :| 0 <= i < |paths| && paths[i] == Some(p);
    }
  }

  /** The index leads from each record to its member, and to no other. */
  ghost predicate Located(items: seq<Item>, records: seq<Record>, index: map<Path, nat>) {
    forall i :: 0 <= i < |records| ==> LocatedOne(items, records[i], index)
  }

  ghost predicate LocatedOne(items: seq<Item>, record: Record, index: map<Path, nat>) {
    && record.path.Some? && record.path.value in index && index[record.path.value] < |items|
    && items[index[record.path.value]].path == record.path
    && forall k :: 0 <= k < |items| && items[k].path == record.path ==> k == index[record.path.value]
  }

  function MemberOf(items: seq<Item>, record: Record, index: map<Path, nat>): Item
    requires LocatedOne(items, record, index)
  {
    items[index[record.path.value]]
  }

  lemma IndexLocates(items: seq<Item>, records: seq<Record>, m: nat, index: map<Path, nat>, env: Reader)
    requires Bound(items, records, m, env) && Indexes(index, ItemPaths(items))
    ensures Located(items, records, index)
  {
    forall i | 0 <= i < |records| ensures LocatedOne(items, records[i], index) {
      assert RecordPaths(records)[i] == records[i].path;
      var p := records[i].path.value;
      assert Some(p) in RecordPaths(records);
      IndexMember(index, ItemPaths(items), p);
      forall k | 0 <= k < |items| && items[k].path == records[i].path
        ensures k == index[p]
      {
        assert ItemPaths(items)[k] == Some(p);
      }
    }
  }

  lemma PayloadsByIndex(items: seq<Item>, records: seq<Record>, index: map<Path, nat>, env: Reader)
    requires Located(items, records, index)
    ensures PayloadsOk(items, records, env) <==>
              forall i :: 0 <= i < |records| ==> PayloadOk(MemberOf(items, records[i], index), records[i].meta, env)
  {
    if PayloadsOk(items, records, env) {
      forall i | 0 <= i < |records|
        ensures PayloadOk(MemberOf(items, records[i], index), records[i].meta, env)
      {
        assert LocatedOne(items, records[i], index);
      }
    }
    if forall i :: 0 <= i < |records| ==> PayloadOk(MemberOf(items, records[i], index), records[i].meta, env) {
      forall i, k | 0 <= i < |records| && 0 <= k < |items| && items[k].path == records[i].path
        ensures PayloadOk(items[k], records[i].meta, env)
      {
        assert LocatedOne(items, records[i], index);
      }
    }
  }

  lemma ValidByReading(items: seq<Item>, records: seq<Record>, m: nat, env: Reader)
    requires Bound(items, records, m, env)
    ensures Valid(items, env) <==> PayloadsOk(items, records, env)
  {
    if Valid(items, env) {
      var r2, m2 :| Bound(items, r2, m2, env) && PayloadsOk(items, r2, env);
      BoundIsUnique(items, records, m, r2, m2, env);
    }
  }

  // ---- verify ----

  method CheckPayloads(items: seq<Item>, records: seq<Record>, index: map<Path, nat>, env: Reader) returns (ok: bool)
    requires Located(items, records, index)
    ensures ok <==> forall i :: 0 <= i < |records| ==> PayloadOk(MemberOf(items, records[i], index), records[i].meta, env)
  {
    ok := true;
    for i := 0 to |records|
      invariant ok <==> forall j :: 0 <= j < i ==> PayloadOk(MemberOf(items, records[j], index), records[j].meta, env)
    {
      var item, meta := MemberOf(items, records[i], index), records[i].meta;
      if item.data.None? || item.size != meta.size || |item.data.value| != meta.size || env.sha(item.data.value) != meta.digest {
        ok := false;
      }
    }
  }

  /** The read-only drill: exit code 0 exactly for valid archives. */
  method Verify(items: seq<Item>, env: Reader) returns (code: int)
    ensures code == 0 || code == 1
    ensures code == 0 <==> Valid(items, env)
    ensures code == 0 ==> exists records, m :: Bound(items, records, m, env) && Intact(items, records, env)
  {
    var reading, m := ReadArchive(items, env);
    if reading.Unreadable? { return 1; }
    IndexLocates(items, reading.records, m, reading.index, env);
    PayloadsByIndex(items, reading.records, reading.index, env);
    ValidByReading(items, reading.records, m, env);
    var ok := CheckPayloads(items, reading.records, reading.index, env);
    IntactExactly(items, reading.records, env);
    code := if ok then 0 else 1;
  }

  // ---- restore: everything before the first write ----

  datatype Node = Folder | Content(data: Bytes)

  type Files = map<Path, Node>

  /** Where symbolic links take a repository path: `None` leads out of the repository. */
  type Resolver = Path -> Option<Path>

  predicate Occupied(fs: Files) {
    exists p :: p in fs && INVENTORY[0] < p
  }

  /** The inventory has one prefix, so it owns every inventory path. */
  predicate OwnedDestination(dest: Path) {
    INVENTORY[0] <= dest
  }

  type Staged = seq<(Path, Bytes)>

  function Destination(record: Record, resolve: Resolver): Option<Path> {
    if record.path.None? then None
    else
      var dest := resolve(record.path.value);
      if dest.Some? && OwnedDestination(dest.value) then dest else None
  }

  /** Each record lands inside the inventory, and no two in the same place. */
  ghost predicate Lands(records: seq<Record>, resolve: Resolver) {
    && (forall i :: 0 <= i < |records| ==> Destination(records[i], resolve).Some?)
    && (forall i, j :: 0 <= i < j < |records| ==> Destination(records[i], resolve) != Destination(records[j], resolve))
  }

  /** The archive is valid, its destinations are in order, and nothing would be
      overwritten unless forced. */
  ghost predicate ReachesWrites(items: seq<Item>, fs: Files, resolve: Resolver, force: bool, env: Reader) {
    && (force || !Occupied(fs))
    && exists records, m ::
         Bound(items, records, m, env) && PayloadsOk(items, records, env) && Lands(records, resolve)
  }

  /** `staged` is each record's payload at its destination. */
  ghost predicate StagedFrom(items: seq<Item>, resolve: Resolver, staged: Staged, env: Reader) {
    exists records, m ::
      && Bound(items, records, m, env) && |staged| == |records|
      && forall i :: 0 <= i < |records| ==> StagedOne(items, records[i], resolve, staged[i])
  }

  ghost predicate StagedOne(items: seq<Item>, record: Record, resolve: Resolver, one: (Path, Bytes)) {
    && Destination(record, resolve) == Some(one.0)
    && exists k :: 0 <= k < |items| && items[k].path == record.path && items[k].data == Some(one.1)
  }

  method ResolveAll(items: seq<Item>, records: seq<Record>, index: map<Path, nat>, resolve: Resolver)
    returns (ok: bool, destinations: seq<Path>)
    requires Located(items, records, index)
    ensures ok <==> Lands(records, resolve) && forall i :: 0 <= i < |records| ==>
                      MemberOf(items, records[i], index).size == records[i].meta.size
    ensures ok ==> |destinations| == |records| && forall i :: 0 <= i < |records| ==>
                      Destination(records[i], resolve) == Some(destinations[i])
  {
    destinations := [];
    for i := 0 to |records|
      invariant |destinations| == i
      invariant forall j :: 0 <= j < i ==> Destination(records[j], resolve) == Some(destinations[j])
      invariant forall j, l :: 0 <= j < l < i ==> destinations[j] != destinations[l]
      invariant forall j :: 0 <= j < i ==> MemberOf(items, records[j], index).size == records[j].meta.size
    {
      var dest := Destination(records[i], resolve);
      if dest.None? || dest.value in destinations
         || MemberOf(items, records[i], index).size != records[i].meta.size
      {
        return false, destinations;
      }
      destinations := destinations + [dest.value];
    }
    ok := true;
  }

  method CollectPayloads(items: seq<Item>, records: seq<Record>, index: map<Path, nat>,
                         destinations: seq<Path>, env: Reader)
    returns (ok: bool, staged: Staged)
    requires Located(items, records, index) && |destinations| == |records|
    ensures ok <==> forall i :: 0 <= i < |records| ==> PayloadOk(MemberOf(items, records[i], index), records[i].meta, env)
    ensures ok ==> |staged| == |records| && forall i :: 0 <= i < |records| ==>
              staged[i].0 == destinations[i] && MemberOf(items, records[i], index).data == Some(staged[i].1)
  {
    staged := [];
    for i := 0 to |records|
      invariant |staged| == i
      invariant forall j :: 0 <= j < i ==> PayloadOk(MemberOf(items, records[j], index), records[j].meta, env)
      invariant forall j :: 0 <= j < i ==>
                  staged[j].0 == destinations[j] && MemberOf(items, records[j], index).data == Some(staged[j].1)
    {
      var item := MemberOf(items, records[i], index);
      var meta := records[i].meta;
      if item.data.None? || item.size != meta.size || |item.data.value| != meta.size { return false, staged; }
      if env.sha(item.data.value) != meta.digest { return false, staged; }
      staged := staged + [(destinations[i], item.data.value)];
    }
    ok := true;
  }

  predicate DistinctTargets(staged: Staged) {
    forall i, j :: 0 <= i < j < |staged| ==> staged[i].0 != staged[j].0
  }

  /** All checks, and the staging of every payload, before anything is written. */
  method Stage(items: seq<Item>, fs: Files, resolve: Resolver, force: bool, env: Reader)
    returns (ok: bool, staged: Staged)
    ensures ok <==> ReachesWrites(items, fs, resolve, force, env)
    ensures ok ==> StagedFrom(items, resolve, staged, env) && DistinctTargets(staged)
    ensures ok ==> forall i :: 0 <= i < |staged| ==> OwnedDestination(staged[i].0)
  {
    staged := [];
    var reading, m := ReadArchive(items, env);
    if reading.Unreadable? { return false, staged; }
    if !force && Occupied(fs) { return false, staged; }
    var records, index := reading.records, reading.index;
    IndexLocates(items, records, m, index, env);
    PayloadsByIndex(items, records, index, env);
    WritesByReading(items, records, m, fs, resolve, force, env);
    var placed, destinations := ResolveAll(items, records, index, resolve);
    if !placed { return false, staged; }
    ok, staged := CollectPayloads(items, records, index, destinations, env);
    if ok {
      StagingSound(items, records, m, index, resolve, destinations, staged, env);
    }
  }

  lemma StagingSound(items: seq<Item>, records: seq<Record>, m: nat, index: map<Path, nat>, resolve: Resolver,
                     destinations: seq<Path>, staged: Staged, env: Reader)
    requires Bound(items, records, m, env) && Located(items, records, index) && Lands(records, resolve)
    requires |destinations| == |staged| == |records|
    requires forall i :: 0 <= i < |records| ==> Destination(records[i], resolve) == Some(destinations[i])
    requires forall i :: 0 <= i < |records| ==>
               staged[i].0 == destinations[i] && MemberOf(items, records[i], index).data == Some(staged[i].1)
    ensures StagedFrom(items, resolve, staged, env) && DistinctTargets(staged)
    ensures forall i :: 0 <= i < |staged| ==> OwnedDestination(staged[i].0)
  {
    forall i | 0 <= i < |records| ensures StagedOne(items, records[i], resolve, staged[i]) {
      assert LocatedOne(items, records[i], index);
    }
    forall i, j | 0 <= i < j < |staged| ensures staged[i].0 != staged[j].0 {
      assert Destination(records[i], resolve) != Destination(records[j], resolve);
    }
  }

  lemma WritesByReading(items: seq<Item>, records: seq<Record>, m: nat, fs: Files, resolve: Resolver, force: bool, env: Reader)
    requires Bound(items, records, m, env) && (force || !Occupied(fs))
    ensures ReachesWrites(items, fs, resolve, force, env) <==>
              PayloadsOk(items, records, env) && Lands(records, resolve)
  {
    if ReachesWrites(items, fs, resolve, force, env) {
      var r2, m2 :| Bound(items, r2, m2, env) && PayloadsOk(items, r2, env) && Lands(r2, resolve);
      BoundIsUnique(items, records, m, r2, m2, env);
    }
  }

  /** The conditions of a restore, over what is read and where links lead. */
  lemma ReachesWritesExactly(items: seq<Item>, fs: Files, resolve: Resolver, force: bool, env: Reader)
    ensures ReachesWrites(items, fs, resolve, force, env) <==>
              && (force || forall p :: p in fs ==> !InPrefix(p))
              && exists records, m :: Bound(items, records, m, env) && Intact(items, records, env) && Placed(records, resolve)
  {
    forall records ensures Lands(records, resolve) <==> Placed(records, resolve) {
      PlacedExactly(records, resolve);
    }
    forall records ensures PayloadsOk(items, records, env) <==> Intact(items, records, env) {
      IntactExactly(items, records, env);
    }
    forall p | p in fs ensures INVENTORY[0] < p <==> InPrefix(p) {
    }
  }

  /** Every record leads to a place inside the inventory, and no two to the same. */
  ghost predicate Placed(records: seq<Record>, resolve: Resolver) {
    && (forall i :: 0 <= i < |records| ==>
          && records[i].path.Some? && resolve(records[i].path.value).Some?
          && ["build", ".issue_implementer"] <= resolve(records[i].path.value).value)
    && (forall i, j :: 0 <= i < j < |records| ==> resolve(records[i].path.value) != resolve(records[j].path.value))
  }

  lemma PlacedExactly(records: seq<Record>, resolve: Resolver)
    ensures Lands(records, resolve) <==> Placed(records, resolve)
  {
    if Lands(records, resolve) {
      forall i | 0 <= i < |records|
        ensures records[i].path.Some? && Destination(records[i], resolve) == resolve(records[i].path.value)
      {
        assert Destination(records[i], resolve).Some?;
      }
    }
    if Placed(records, resolve) {
      forall i | 0 <= i < |records| ensures Destination(records[i], resolve) == resolve(records[i].path.value) {
        assert records[i].path.Some?;
      }
    }
  }

  /** Manifest readers only yield records inside the inventory. */
  ghost predicate Authorizing(env: Reader) {
    forall data, i :: env.manifest(data).Some? && 0 <= i < |env.manifest(data).value| ==>
      var path := env.manifest(data).value[i].path;
      path.Some? ==> OwnedDestination(path.value)
  }

  /** Two independently written checkers agree: verify passes exactly when a forced
      restore into a repository without symbolic links reaches its write loop. */
  lemma VerifyAgreesWithRestore(items: seq<Item>, fs: Files, resolve: Resolver, env: Reader)
    requires Authorizing(env) && forall p :: resolve(p) == Some(p)
    ensures Valid(items, env) <==> ReachesWrites(items, fs, resolve, true, env)
  {
    if Valid(items, env) {
      var records: seq<Record>, m: nat :| Bound(items, records, m, env) && PayloadsOk(items, records, env);
      forall i | 0 <= i < |records| ensures records[i].path.Some? && Destination(records[i], resolve) == records[i].path {
        assert RecordPaths(records)[i] == records[i].path;
        assert env.manifest(items[m].data).value[i] == records[i];
      }
      assert Lands(records, resolve) by {
        forall i, j | 0 <= i < j < |records|
          ensures Destination(records[i], resolve) != Destination(records[j], resolve)
        {
          assert RecordPaths(records)[i] != RecordPaths(records)[j];
        }
      }
    }
  }
}
