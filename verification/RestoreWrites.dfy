/** The write loop of restore, and the round trip from backup to restored files. */
module RestoreWrites {
  import opened Options
  import opened Text
  import opened Archive
  import opened BackupRestore

  /** `p` is a directory above `q`. */
  predicate Above(p: Path, q: Path) {
    p != [] && p < q
  }

  function Parents(dest: Path): (ps: set<Path>)
    ensures forall p :: p in ps <==> Above(p, dest)
  {
    var ps := set j | 0 < j < |dest| :: dest[..j];
    assert forall p :: Above(p, dest) ==> p == dest[..|p|];
    ps
  }

  // ---- which writes succeed ----

  /** Creating the parents and the file at `dest` meets no obstacle in `fs`. */
  predicate CanWrite(fs: Files, dest: Path) {
    && (forall p :: p in fs && fs[p].Content? ==> !Above(p, dest))
    && (dest in fs ==> fs[dest].Content?)
  }

  /** What a caller can check before the loop: the old files leave room for every
      target, and no target is a directory above another. */
  predicate NoConflict(fs: Files, staged: Staged) {
    && (forall i :: 0 <= i < |staged| ==> CanWrite(fs, staged[i].0))
    && (forall i, j :: 0 <= i < |staged| && 0 <= j < |staged| ==> !Above(staged[i].0, staged[j].0))
  }

  /** The obstacles, one by one: a file where a directory must be, a directory where a
      file must be, and one target above another. */
  lemma NoConflictExactly(fs: Files, staged: Staged)
    ensures NoConflict(fs, staged) <==>
              && (forall i, p :: 0 <= i < |staged| && p in fs && p != [] && p < staged[i].0 ==> fs[p].Folder?)
              && (forall i :: 0 <= i < |staged| && staged[i].0 in fs ==> fs[staged[i].0].Content?)
              && (forall i, j :: 0 <= i < |staged| && 0 <= j < |staged| && staged[i].0 != [] ==> !(staged[i].0 < staged[j].0))
  {
    if NoConflict(fs, staged) {
      forall i, p | 0 <= i < |staged| && p in fs && p != [] && p < staged[i].0 ensures fs[p].Folder? {
        assert CanWrite(fs, staged[i].0);
      }
      forall i, j | 0 <= i < |staged| && 0 <= j < |staged| && staged[i].0 != [] ensures !(staged[i].0 < staged[j].0) {
        assert !Above(staged[i].0, staged[j].0);
      }
    }
    if (forall i, p :: 0 <= i < |staged| && p in fs && p != [] && p < staged[i].0 ==> fs[p].Folder?)
       && (forall i :: 0 <= i < |staged| && staged[i].0 in fs ==> fs[staged[i].0].Content?)
    {
      forall i | 0 <= i < |staged| ensures CanWrite(fs, staged[i].0) {
      }
    }
  }

  /** `after` is `before` overlaid with the staged files and their directories. */
  ghost predicate Overlaid(before: Files, staged: Staged, after: Files) {
    && (forall i :: 0 <= i < |staged| ==> staged[i].0 in after && after[staged[i].0] == Content(staged[i].1))
    && (forall p :: p in after <==>
          p in before || exists i :: 0 <= i < |staged| && (p == staged[i].0 || Above(p, staged[i].0)))
    && (forall p :: p in after && (forall i :: 0 <= i < |staged| ==> p != staged[i].0) ==>
          after[p] == if p in before then before[p] else Folder)
  }

  /** One file written into a place where it fits. */
  function Written(fs: Files, dest: Path, data: Bytes): Files {
    ((map p | p in Parents(dest) :: Folder) + fs)[dest := Content(data)]
  }

  lemma TargetsOfMore(staged: Staged, dest: Path, data: Bytes, p: Path)
    ensures
      var more := staged + [(dest, data)];
      (exists i :: 0 <= i < |more| && (p == more[i].0 || Above(p, more[i].0))) <==>
      p == dest || Above(p, dest) || exists i :: 0 <= i < |staged| && (p == staged[i].0 || Above(p, staged[i].0))
  {
    var more := staged + [(dest, data)];
    assert more[|staged|] == (dest, data);
    assert forall i :: 0 <= i < |staged| ==> more[i] == staged[i];
  }

  /** The paths after one more write. */
  lemma PathsAfter(before: Files, staged: Staged, fs: Files, dest: Path, data: Bytes, p: Path)
    requires Overlaid(before, staged, fs)
    ensures
      var more := staged + [(dest, data)];
      p in Written(fs, dest, data) <==>
        p in before || exists i :: 0 <= i < |more| && (p == more[i].0 || Above(p, more[i].0))
  {
    TargetsOfMore(staged, dest, data, p);
  }

  lemma OverlayStep(before: Files, staged: Staged, fs: Files, dest: Path, data: Bytes)
    requires Overlaid(before, staged, fs)
    requires forall i :: 0 <= i < |staged| ==> staged[i].0 != dest
    ensures Overlaid(before, staged + [(dest, data)], Written(fs, dest, data))
  {
    var after, more := Written(fs, dest, data), staged + [(dest, data)];
    forall i | 0 <= i < |more| ensures more[i].0 in after && after[more[i].0] == Content(more[i].1) {
      assert more[i] == if i < |staged| then staged[i] else (dest, data);
    }
    forall p ensures p in after <==> p in before || exists i :: 0 <= i < |more| && (p == more[i].0 || Above(p, more[i].0)) {
      PathsAfter(before, staged, fs, dest, data, p);
    }
    OthersKept(before, staged, fs, dest, data);
  }

  /** What is no target keeps its node. */
  lemma OthersKept(before: Files, staged: Staged, fs: Files, dest: Path, data: Bytes)
    requires Overlaid(before, staged, fs)
    ensures
      var after, more := Written(fs, dest, data), staged + [(dest, data)];
      forall p :: p in after && (forall i :: 0 <= i < |more| ==> p != more[i].0) ==>
        after[p] == if p in before then before[p] else Folder
  {
    var after, more := Written(fs, dest, data), staged + [(dest, data)];
    assert more[|staged|] == (dest, data);
    forall p | p in after && (forall i :: 0 <= i < |more| ==> p != more[i].0)
      ensures after[p] == if p in before then before[p] else Folder
    {
      assert forall i :: 0 <= i < |staged| ==> more[i] == staged[i] && p != more[i].0;
    }
  }

  /** In the middle of the loop, the next write fits exactly when the longer list
      of targets is still free of conflicts. */
  lemma NextWrite(before: Files, staged: Staged, fs: Files, dest: Path, data: Bytes)
    requires Overlaid(before, staged, fs) && NoConflict(before, staged)
    requires forall i :: 0 <= i < |staged| ==> staged[i].0 != dest
    ensures CanWrite(fs, dest) <==> NoConflict(before, staged + [(dest, data)])
  {
    var more := staged + [(dest, data)];
    assert more[|staged|] == (dest, data);
    assert forall i :: 0 <= i < |staged| ==> more[i] == staged[i];
    if CanWrite(fs, dest) {
      forall i | 0 <= i < |staged| ensures !Above(staged[i].0, dest) && !Above(dest, staged[i].0) {
        assert fs[staged[i].0].Content? && CanWrite(before, staged[i].0);
      }
      forall p | p in before && before[p].Content? ensures !Above(p, dest) {
        assert p in fs && fs[p].Content?;
      }
      assert CanWrite(before, dest);
    }
    if NoConflict(before, more) {
      assert CanWrite(before, more[|staged|].0);
      forall p | p in fs && fs[p].Content? ensures !Above(p, dest) {
        if i :| 0 <= i < |staged| && p == staged[i].0 {
          assert !Above(more[i].0, more[|staged|].0);
        }
      }
      forall i | 0 <= i < |staged| ensures !Above(dest, staged[i].0) {
        assert !Above(more[|staged|].0, more[i].0);
      }
    }
  }

  lemma ConflictStays(fs: Files, staged: Staged, n: nat)
    requires n <= |staged| && NoConflict(fs, staged)
    ensures NoConflict(fs, staged[..n])
  {
  }

  /** `after` is what the write loop left when it stopped at target `n`. */
  ghost predicate StoppedAt(before: Files, staged: Staged, n: nat, after: Files) {
    && n < |staged| && NoConflict(before, staged[..n]) && !NoConflict(before, staged[..n + 1])
    && Overlaid(before, staged[..n], after)
  }

  datatype Result = Done | Refused | Crashed

  class Repository {
    var fs: Files

    constructor (fs: Files)
      ensures this.fs == fs
    {
      this.fs := fs;
    }

    /** Writes the staged files one after the other; not atomic. It completes
        exactly when no target is in the way of another or of the old files. If it
        stops, it has written every file before the first conflict and no other. */
    method WriteAll(staged: Staged) returns (completed: bool)
      requires DistinctTargets(staged)
      modifies this
      ensures completed <==> NoConflict(old(fs), staged)
      ensures completed ==> Overlaid(old(fs), staged, fs)
      ensures !completed ==> exists n: nat :: StoppedAt(old(fs), staged, n, fs)
    {
      for i := 0 to |staged|
        invariant NoConflict(old(fs), staged[..i]) && Overlaid(old(fs), staged[..i], fs)
      {
        var (dest, data) := staged[i];
        assert staged[..i + 1] == staged[..i] + [(dest, data)];
        NextWrite(old(fs), staged[..i], fs, dest, data);
        if !CanWrite(fs, dest) {
          if NoConflict(old(fs), staged) {
            ConflictStays(old(fs), staged, i + 1);
          }
          assert StoppedAt(old(fs), staged, i, fs);
          return false;
        }
        OverlayStep(old(fs), staged[..i], fs, dest, data);
        fs := Written(fs, dest, data);
      }
      assert staged[..|staged|] == staged;
      completed := true;
    }

    /** Restore refuses with the repository untouched, or writes every payload at
        its place inside the inventory and nothing else. */
    method Restore(items: seq<Item>, resolve: Resolver, force: bool, env: Reader) returns (r: Result, ghost staged: Staged)
      modifies this
      ensures r.Refused? <==> !ReachesWrites(items, old(fs), resolve, force, env)
      ensures r.Refused? ==> fs == old(fs)
      ensures !r.Refused? ==> exists records, m ::
                Bound(items, records, m, env) && Intact(items, records, env) && Placed(records, resolve)
      ensures !r.Refused? && !force ==> forall p :: p in old(fs) ==> !InPrefix(p)
      ensures !r.Refused? ==> StagedFrom(items, resolve, staged, env)
      ensures !r.Refused? ==> forall i :: 0 <= i < |staged| ==> OwnedDestination(staged[i].0)
      ensures r.Done? ==> Overlaid(old(fs), staged, fs)
      ensures !r.Refused? ==> (r.Done? <==> NoConflict(old(fs), staged))
      ensures r.Crashed? ==> exists n: nat :: StoppedAt(old(fs), staged, n, fs)
    {
      ReachesWritesExactly(items, fs, resolve, force, env);
      var ok, files := Stage(items, fs, resolve, force, env);
      staged := files;
      if !ok { return Refused, staged; }
      var completed := WriteAll(files);
      r := if completed then Done else Crashed;
    }
  }

  // ---- backup, and the round trip ----

  /** Files to archive: each in the inventory, with a path the file system can hold,
      and once. */
  ghost predicate Listing(files: Staged) {
    (forall i :: 0 <= i < |files| ==> ProperPath(files[i].0) && InInventory(files[i].0)) && DistinctTargets(files)
  }

  /** No file is where a directory above another one must be. */
  ghost predicate Unnested(files: Staged) {
    forall i, j :: 0 <= i < |files| && 0 <= j < |files| ==> !Above(files[i].0, files[j].0)
  }

  function EntryFor(path: Path, data: Bytes, env: Env): (string, Json) {
    (Join(path, '/'), Obj([("sha256", Str(env.sha(data))), ("size", Num(|data|))]))
  }

  function EntriesFor(files: Staged, env: Env): seq<(string, Json)> {
    seq(|files|, i requires 0 <= i < |files| => EntryFor(files[i].0, files[i].1, env))
  }

  function Manifest(files: Staged, env: Env): Bytes {
    env.render(Obj([("members", Obj(EntriesFor(files, env)))]))
  }

  function MemberFor(path: Path, data: Bytes): Member {
    Member(Join(path, '/'), true, |data|, Some(data))
  }

  /** `tar` holds every file in order, and then a manifest of exactly these files. */
  ghost predicate BackupOf(tar: Tar, files: Staged, env: Env) {
    && |tar| == |files| + 1
    && (forall i :: 0 <= i < |files| ==> tar[i] == MemberFor(files[i].0, files[i].1))
    && tar[|files|] == Member("manifest.json", true, |Manifest(files, env)|, Some(Manifest(files, env)))
  }

  method Backup(files: Staged, env: Env) returns (tar: Tar)
    ensures BackupOf(tar, files, env)
  {
    tar := [];
    var entries: seq<(string, Json)> := [];
    for i := 0 to |files|
      invariant |tar| == i && entries == EntriesFor(files, env)[..i]
      invariant forall j :: 0 <= j < i ==> tar[j] == MemberFor(files[j].0, files[j].1)
    {
      entries := entries + [EntryFor(files[i].0, files[i].1, env)];
      tar := tar + [MemberFor(files[i].0, files[i].1)];
    }
    assert entries == EntriesFor(files, env);
    var manifest := env.render(Obj([("members", Obj(entries))]));
    tar := tar + [Member("manifest.json", true, |manifest|, Some(manifest))];
  }

  lemma SingleName(name: string)
    requires Proper(name) && '\\' !in name
    ensures CanonicalName(name) == Some([name])
  {
    WrittenName([name]);
  }

  lemma ManifestName()
    ensures CanonicalName("manifest.json") == Some(MANIFEST)
  {
    SingleName("manifest.json");
  }

  lemma EntryRecord(path: Path, data: Bytes, env: Env)
    requires Faithful(env) && ProperPath(path) && InInventory(path)
    ensures RecordOf(EntryFor(path, data, env), env) ==
              if NoBackslash(path) then Record(Some(path), Meta(env.sha(data), |data|)) else Record(None, Meta("", 0))
    ensures ItemOf(MemberFor(path, data)) ==
              Item(if NoBackslash(path) then Some(path) else None, |data|, Some(data))
  {
    WrittenName(path);
    assert |env.sha(data)| == 64 && env.hex(env.sha(data));
  }

  lemma {:induction false} NamesDistinct(files: Staged, env: Env)
    requires Listing(files)
    ensures UniqueKeys(EntriesFor(files, env))
  {
    forall i, j | 0 <= i < j < |files| ensures EntriesFor(files, env)[i].0 != EntriesFor(files, env)[j].0 {
      SplitJoin(files[i].0, '/');
      SplitJoin(files[j].0, '/');
    }
  }

  lemma ReaderAuthorizes(env: Env)
    ensures Authorizing(ReaderOf(env))
  {
    var rd := ReaderOf(env);
    forall data, i | rd.manifest(data).Some? && 0 <= i < |rd.manifest(data).value|
      ensures
        var path := rd.manifest(data).value[i].path;
        path.Some? ==> OwnedDestination(path.value)
    {
      var entries := EntriesOf(env.parse(data.value)).value;
      assert rd.manifest(data).value[i] == RecordOf(entries[i], env);
    }
  }

  /** Members and records say exactly what was archived. */
  ghost predicate ReadsBack(items: seq<Item>, records: seq<Record>, files: Staged, rd: Reader) {
    && |items| == |files| + 1 && |records| == |files|
    && items[|files|].path == Some(MANIFEST) && rd.manifest(items[|files|].data) == Some(records)
    && forall i :: 0 <= i < |files| ==>
         && items[i] == Item(Some(files[i].0), |files[i].1|, Some(files[i].1))
         && records[i] == Record(Some(files[i].0), Meta(rd.sha(files[i].1), |files[i].1|))
  }

  lemma ManifestReadsBack(files: Staged, env: Env)
    requires Faithful(env) && Listing(files)
    ensures ReaderOf(env).manifest(Some(Manifest(files, env))) == Some(Records(EntriesFor(files, env), env))
  {
    NamesDistinct(files, env);
    var doc := Obj([("members", Obj(EntriesFor(files, env)))]);
    assert env.parse(env.render(doc)) == Some(doc);
  }

  lemma ArchiveReadsBack(tar: Tar, files: Staged, env: Env)
    requires Faithful(env) && Listing(files) && BackupOf(tar, files, env)
    requires forall i :: 0 <= i < |files| ==> NoBackslash(files[i].0)
    ensures ReadsBack(Items(tar), Records(EntriesFor(files, env), env), files, ReaderOf(env))
  {
    var items, records := Items(tar), Records(EntriesFor(files, env), env);
    ManifestName();
    ManifestReadsBack(files, env);
    assert items[|files|] == ItemOf(tar[|files|]);
    forall i | 0 <= i < |files|
      ensures items[i] == Item(Some(files[i].0), |files[i].1|, Some(files[i].1))
      ensures records[i] == Record(Some(files[i].0), Meta(env.sha(files[i].1), |files[i].1|))
    {
      EntryRecord(files[i].0, files[i].1, env);
      assert EntriesFor(files, env)[i] == EntryFor(files[i].0, files[i].1, env);
    }
  }

  /** Targets as a listing has them, without looking into the names. */
  ghost predicate Targets(files: Staged) {
    DistinctTargets(files) && forall i :: 0 <= i < |files| ==> files[i].0 != MANIFEST && OwnedDestination(files[i].0)
  }

  lemma ListingTargets(files: Staged)
    requires Listing(files)
    ensures Targets(files)
  {
    forall i | 0 <= i < |files| ensures files[i].0 != MANIFEST && OwnedDestination(files[i].0) {
      assert InInventory(files[i].0);
    }
  }

  lemma ReadsBackValid(items: seq<Item>, records: seq<Record>, files: Staged, rd: Reader)
    requires Targets(files) && ReadsBack(items, records, files, rd)
    ensures Bound(items, records, |files|, rd) && PayloadsOk(items, records, rd)
  {
    var paths, named := ItemPaths(items), RecordPaths(records);
    assert forall i :: 0 <= i < |files| ==> paths[i] == named[i] == Some(files[i].0);
    assert paths[|files|] == Some(MANIFEST);
    assert paths == named + [Some(MANIFEST)];
    forall i, k | 0 <= i < |records| && 0 <= k < |items| && items[k].path == records[i].path
      ensures PayloadOk(items[k], records[i].meta, rd)
    {
      assert paths[k] == paths[i];
      assert k == i;
    }
  }

  /** Verify accepts a backup exactly when no archived name holds a backslash:
      backup writes such names, and the reader refuses them. */
  lemma BackupVerifies(tar: Tar, files: Staged, env: Env)
    requires Faithful(env) && Listing(files) && BackupOf(tar, files, env)
    ensures Valid(Items(tar), ReaderOf(env)) <==> forall i :: 0 <= i < |files| ==> NoBackslash(files[i].0)
  {
    var items := Items(tar);
    if Valid(items, ReaderOf(env)) {
      forall i | 0 <= i < |files| ensures NoBackslash(files[i].0) {
        assert ItemPaths(items)[i] == ItemOf(tar[i]).path;
        EntryRecord(files[i].0, files[i].1, env);
      }
    }
    if forall i :: 0 <= i < |files| ==> NoBackslash(files[i].0) {
      ArchiveReadsBack(tar, files, env);
      ListingTargets(files);
      ReadsBackValid(items, Records(EntriesFor(files, env), env), files, ReaderOf(env));
    }
  }

  /** So the backup of one file named `a\b` is refused by its own reader. */
  lemma BackslashNotVerified(tar: Tar, data: Bytes, env: Env)
    requires Faithful(env) && BackupOf(tar, [(INVENTORY[0] + ["a\\b"], data)], env)
    ensures !Valid(Items(tar), ReaderOf(env))
  {
    var path := INVENTORY[0] + ["a\\b"];
    BackslashPath();
    assert Listing([(path, data)]);
    BackupVerifies(tar, [(path, data)], env);
    assert !NoBackslash([(path, data)][0].0);
  }

  lemma BackslashPath()
    ensures
      var path := INVENTORY[0] + ["a\\b"];
      ProperPath(path) && InInventory(path) && !NoBackslash(path)
  {
    var path := INVENTORY[0] + ["a\\b"];
    assert path == ["build", ".issue_implementer", "a\\b"];
    assert path[2][1] == '\\' && INVENTORY[0] < path;
  }

  lemma StagedIsListing(items: seq<Item>, records: seq<Record>, files: Staged, rd: Reader, resolve: Resolver, staged: Staged)
    requires Targets(files) && ReadsBack(items, records, files, rd)
    requires (forall p :: resolve(p) == Some(p)) && StagedFrom(items, resolve, staged, rd)
    ensures staged == files
  {
    ReadsBackValid(items, records, files, rd);
    var r: seq<Record>, m: nat :| Bound(items, r, m, rd) && |staged| == |r|
                  && forall i :: 0 <= i < |r| ==> StagedOne(items, r[i], resolve, staged[i]);
    BoundIsUnique(items, records, |files|, r, m, rd);
    forall i | 0 <= i < |files| ensures staged[i] == files[i] {
      assert StagedOne(items, records[i], resolve, staged[i]);
      StagedIsFile(items, records, files, rd, resolve, staged[i], i);
    }
  }

  lemma StagedIsFile(items: seq<Item>, records: seq<Record>, files: Staged, rd: Reader, resolve: Resolver,
                     one: (Path, Bytes), i: nat)
    requires i < |files| && ReadsBack(items, records, files, rd) && Keyed(ItemPaths(items))
    requires resolve(files[i].0) == Some(files[i].0) && StagedOne(items, records[i], resolve, one)
    ensures one == files[i]
  {
    var k :| 0 <= k < |items| && items[k].path == records[i].path && items[k].data == Some(one.1);
    assert ItemPaths(items)[k] == ItemPaths(items)[i];
    assert k == i;
  }

  /** Files that exist, with their bytes. */
  ghost predicate Holds(fs: Files, files: Staged) {
    forall p, data :: (p in fs && fs[p] == Content(data)) <==> (p, data) in files
  }

  lemma OverlayOfNothing(files: Staged, after: Files)
    requires Overlaid(map[], files, after)
    ensures Holds(after, files)
  {
    forall p, data ensures (p in after && after[p] == Content(data)) <==> (p, data) in files {
      if (p, data) in files {
        var i :| 0 <= i < |files| && files[i] == (p, data);
        assert after[files[i].0] == Content(files[i].1);
      }
      if p in after && after[p] == Content(data) {
        var i :| 0 <= i < |files| && p == files[i].0;
        assert files[i] == (p, data);
      }
    }
  }

  /** Backing up files and restoring them into an empty repository without links: the
      archive verifies, and restore completes exactly if no file is nested in another.
      Then the repository holds exactly the same paths with the same bytes. */
  method BackupThenRestore(files: Staged, env: Env, resolve: Resolver)
    returns (tar: Tar, repository: Repository, r: Result)
    requires Faithful(env) && Listing(files)
    requires forall i :: 0 <= i < |files| ==> NoBackslash(files[i].0)
    requires forall p :: resolve(p) == Some(p)
    ensures Valid(Items(tar), ReaderOf(env))
    ensures r.Done? || r.Crashed?
    ensures r.Done? <==> Unnested(files)
    ensures r.Done? ==> Holds(repository.fs, files)
    ensures r.Crashed? ==> exists n: nat :: StoppedAt(map[], files, n, repository.fs)
  {
    tar := Backup(files, env);
    var rd := ReaderOf(env);
    repository := new Repository(map[]);
    BackupReachesWrites(tar, files, env, resolve);
    ghost var staged;
    r, staged := repository.Restore(Items(tar), resolve, false, rd);
    ArchiveReadsBack(tar, files, env);
    ListingTargets(files);
    StagedIsListing(Items(tar), Records(EntriesFor(files, env), env), files, rd, resolve, staged);
    if r.Done? {
      OverlayOfNothing(files, repository.fs);
    }
  }

  lemma BackupReachesWrites(tar: Tar, files: Staged, env: Env, resolve: Resolver)
    requires Faithful(env) && Listing(files) && BackupOf(tar, files, env)
    requires forall i :: 0 <= i < |files| ==> NoBackslash(files[i].0)
    requires forall p :: resolve(p) == Some(p)
    ensures Valid(Items(tar), ReaderOf(env)) && ReachesWrites(Items(tar), map[], resolve, false, ReaderOf(env))
    ensures NoConflict(map[], files) <==> Unnested(files)
  {
    BackupVerifies(tar, files, env);
    ReaderAuthorizes(env);
    VerifyAgreesWithRestore(Items(tar), map[], resolve, ReaderOf(env));
  }

  /** `tampered` is `tar` with other bytes, of another digest, in member `i`. */
  ghost predicate Tampered(tar: Tar, tampered: Tar, i: nat, bytes: Bytes, env: Env) {
    && |tampered| == |tar| && i < |tar| - 1
    && tampered[i].name == tar[i].name && tampered[i].data == Some(bytes)
    && tar[i].data.Some? && env.sha(bytes) != env.sha(tar[i].data.value)
    && forall k :: 0 <= k < |tar| && k != i ==> tampered[k] == tar[k]
  }

  /** The records are those of the one manifest member. */
  lemma ManifestAt(items: seq<Item>, records: seq<Record>, m: nat, n: nat, expected: seq<Record>, rd: Reader)
    requires Bound(items, records, m, rd) && n < |items|
    requires items[n].path == Some(MANIFEST) && rd.manifest(items[n].data) == Some(expected)
    ensures records == expected
  {
    assert ItemPaths(items)[n] == ItemPaths(items)[m];
  }

  /** A member under an archived name is told by its record, if its name can be read. */
  lemma MemberTold(m: Member, path: Path, data: Bytes, env: Env)
    requires Faithful(env) && ProperPath(path) && InInventory(path) && m.name == Join(path, '/')
    ensures ItemOf(m).path.Some? ==>
              && ItemOf(m).path == Some(path)
              && RecordOf(EntryFor(path, data, env), env) == Record(Some(path), Meta(env.sha(data), |data|))
  {
    WrittenName(path);
    EntryRecord(path, data, env);
  }

  /** One member that is not what its record says. */
  lemma OneNotIntact(items: seq<Item>, records: seq<Record>, i: nat, bytes: Bytes, rd: Reader)
    requires i < |items| && i < |records| && items[i].path == records[i].path
    requires items[i].data == Some(bytes) && rd.sha(bytes) != records[i].meta.digest
    ensures !Intact(items, records, rd)
  {
  }

  /** What is bound in a tampered backup is not intact: its manifest is the old one. */
  lemma TamperedNotIntact(
    tar: Tar, tampered: Tar, i: nat, bytes: Bytes, files: Staged, env: Env, records: seq<Record>, m: nat)
    requires Faithful(env) && Listing(files) && BackupOf(tar, files, env) && Tampered(tar, tampered, i, bytes, env)
    requires Bound(Items(tampered), records, m, ReaderOf(env))
    ensures !Intact(Items(tampered), records, ReaderOf(env))
  {
    var items := Items(tampered);
    ManifestReadsBack(files, env);
    ManifestName();
    assert items[|files|] == ItemOf(tar[|files|]);
    ManifestAt(items, records, m, |files|, Records(EntriesFor(files, env), env), ReaderOf(env));
    assert records[i] == RecordOf(EntryFor(files[i].0, files[i].1, env), env);
    assert ItemPaths(items)[i] == ItemOf(tampered[i]).path;
    MemberTold(tampered[i], files[i].0, files[i].1, env);
    OneNotIntact(items, records, i, bytes, ReaderOf(env));
  }

  /** Bytes of another digest in any archived file are found out: verify fails, and
      restore refuses with the files untouched, forced or not. */
  method TamperedIsRefused(
    tar: Tar, tampered: Tar, i: nat, bytes: Bytes, files: Staged, env: Env,
    repository: Repository, resolve: Resolver, force: bool) returns (code: int, r: Result)
    requires Faithful(env) && Listing(files) && BackupOf(tar, files, env) && Tampered(tar, tampered, i, bytes, env)
    modifies repository
    ensures code == 1 && r.Refused? && repository.fs == old(repository.fs)
  {
    var rd := ReaderOf(env);
    forall records, m | Bound(Items(tampered), records, m, rd) ensures !Intact(Items(tampered), records, rd) {
      TamperedNotIntact(tar, tampered, i, bytes, files, env, records, m);
    }
    code := Verify(Items(tampered), rd);
    var restored, _ := repository.Restore(Items(tampered), resolve, force, rd);
    r := restored;
  }

  /** The write loop is not atomic: an archive of `x` and `x/y` passes every check, and
      its restore crashes after it has written `x`. */
  method NestedMembersCrash(env: Env, resolve: Resolver) returns (tar: Tar, repository: Repository, r: Result)
    requires Faithful(env) && forall p :: resolve(p) == Some(p)
    ensures Valid(Items(tar), ReaderOf(env)) && r.Crashed?
    ensures
      var x := INVENTORY[0] + ["x"];
      x in repository.fs && repository.fs[x] == Content([]) && x + ["y"] !in repository.fs
  {
    var x := INVENTORY[0] + ["x"];
    var y := x + ["y"];
    var files: Staged := [(x, []), (y, [])];
    NestedPaths();
    tar, repository, r := BackupThenRestore(files, env, resolve);
    assert Above(files[0].0, files[1].0);
    CrashAfterFirst(x, y, repository.fs);
  }

  lemma CrashAfterFirst(x: Path, y: Path, fs: Files)
    requires x != y && !Above(y, x) && exists n: nat :: StoppedAt(map[], [(x, []), (y, [])], n, fs)
    ensures x in fs && fs[x] == Content([]) && y !in fs
  {
    var files: Staged := [(x, []), (y, [])];
    var n: nat :| StoppedAt(map[], files, n, fs);
    OneFits(files[..1]);
    assert files[..n] == [(x, [])];
    OnlyOne(x, y, files[..n], fs);
  }

  lemma OneFits(files: Staged)
    requires |files| <= 1
    ensures NoConflict(map[], files)
  {
  }

  lemma OnlyOne(x: Path, y: Path, files: Staged, fs: Files)
    requires x != y && !Above(y, x) && files == [(x, [])] && Overlaid(map[], files, fs)
    ensures x in fs && fs[x] == Content([]) && y !in fs
  {
    assert files[0] == (x, []);
  }

  lemma NestedPaths()
    ensures
      var x := INVENTORY[0] + ["x"];
      var y := x + ["y"];
      x < y && ProperPath(x) && InInventory(x) && NoBackslash(x) && ProperPath(y) && InInventory(y) && NoBackslash(y)
  {
    var x := INVENTORY[0] + ["x"];
    assert x == ["build", ".issue_implementer", "x"];
    assert x + ["y"] == ["build", ".issue_implementer", "x", "y"];
    assert INVENTORY[0] < x && INVENTORY[0] < x + ["y"];
  }
}
