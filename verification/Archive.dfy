/** Archives of tier-3 state: member names, the manifest, and what a valid archive is. */
module Archive {
  import opened Options
  import opened Text

  /** A normalized relative POSIX path, as its components. */
  type Path = seq<string>

  const INVENTORY: seq<Path> := [["build", ".issue_implementer"]]

  const MANIFEST: Path := ["manifest.json"]

  // ---- member names ----

  function Components(parts: seq<string>): (kept: Path)
    ensures forall k :: 0 <= k < |kept| ==> kept[k] in parts && kept[k] != "" && kept[k] != "."
  {
    if parts == [] then []
    else
      var rest := Components(parts[1..]);
      if parts[0] == "" || parts[0] == "." then rest else [parts[0]] + rest
  }

  /** The safe canonical form of a member name, if it has one. */
  function CanonicalName(name: string): (r: Option<Path>)
    ensures r.Some? ==> r.value != [] && ".." !in r.value
    ensures r.Some? ==> forall k :: 0 <= k < |r.value| ==> r.value[k] != "" && r.value[k] != "." && '/' !in r.value[k]
  {
    if name == "" || '\0' in name || '\\' in name || name[0] == '/' then None
    else
      SplitPure(name, '/');
      var path := Components(Split(name, '/'));
      if ".." in path || path == [] then None else Some(path)
  }

  /** Components are the parts in order, without the empty ones and the dots. */
  lemma {:induction false} ComponentsKept(parts: seq<string>, part: string)
    ensures Components([]) == []
    ensures Components(parts + [part]) == Components(parts) + if part == "" || part == "." then [] else [part]
  {
    if parts == [] {
      assert [part][1..] == [] && parts + [part] == [part];
    } else {
      ComponentsKept(parts[1..], part);
      assert (parts + [part])[1..] == parts[1..] + [part];
    }
  }

  /** Which names are safe, and what becomes of them. */
  lemma CanonicalExactly(name: string)
    ensures CanonicalName(name).Some? <==>
              && name != "" && name[0] != '/' && '\0' !in name && '\\' !in name
              && ".." !in Split(name, '/') && exists part :: part in Split(name, '/') && part != "" && part != "."
    ensures CanonicalName(name).Some? ==> CanonicalName(name).value == Components(Split(name, '/'))
  {
    var parts := Split(name, '/');
    ComponentsHold(parts);
    assert ".." in Components(parts) <==> ".." in parts;
    if Components(parts) != [] {
      var first := Components(parts)[0];
      assert first in Components(parts);
      assert first in parts && first != "" && first != ".";
    }
    if part :| part in parts && part != "" && part != "." {
      assert part in Components(parts);
    }
  }

  lemma {:induction false} ComponentsHold(parts: seq<string>)
    ensures forall part :: part in Components(parts) <==> part in parts && part != "" && part != "."
  {
    if parts != [] {
      ComponentsHold(parts[1..]);
      assert parts == [parts[0]] + parts[1..];
    }
  }

  /** A component a file system can hold and the reader takes literally. */
  predicate Proper(part: string) {
    part != "" && part != "." && part != ".." && '/' !in part && '\0' !in part
  }

  predicate ProperPath(path: Path) {
    path != [] && forall k :: 0 <= k < |path| ==> Proper(path[k])
  }

  predicate NoBackslash(path: Path) {
    forall k :: 0 <= k < |path| ==> '\\' !in path[k]
  }

  lemma {:induction false} ComponentsOfProper(path: Path)
    requires forall k :: 0 <= k < |path| ==> Proper(path[k])
    ensures Components(path) == path
  {
    if path != [] {
      ComponentsOfProper(path[1..]);
      assert path == [path[0]] + path[1..];
    }
  }

  /** Reading a written path gives it back exactly when it has no backslash. */
  lemma WrittenName(path: Path)
    requires ProperPath(path)
    ensures CanonicalName(Join(path, '/')) == if NoBackslash(path) then Some(path) else None
  {
    var name := Join(path, '/');
    JoinHolds(path, '/', '\\');
    JoinHolds(path, '/', '\0');
    SplitJoin(path, '/');
    ComponentsOfProper(path);
    assert name[0] == path[0][0];
    assert path[0][0] in path[0];
    assert ".." !in path;
  }

  predicate InInventory(path: Path) {
    exists i :: 0 <= i < |INVENTORY| && INVENTORY[i] < path
  }

  // ---- the manifest ----

  datatype Json = Obj(pairs: seq<(string, Json)>) | Str(text: string) | Num(value: int) | Unsupported

  datatype Meta = Meta(digest: string, size: nat)

  /** SHA-256, the base-16 parser and the JSON codec, as opaque functions. */
  datatype Env = Env(sha: Bytes -> string, hex: string -> bool, parse: Bytes -> Option<Json>, render: Json -> Bytes)

  ghost predicate Faithful(env: Env) {
    && (forall b :: |env.sha(b)| == 64 && env.hex(env.sha(b)))
    && (forall j :: env.parse(env.render(j)) == Some(j))
  }

  predicate UniqueKeys(pairs: seq<(string, Json)>) {
    forall i, j :: 0 <= i < j < |pairs| ==> pairs[i].0 != pairs[j].0
  }

  /** The metadata of one manifest entry, if it is an object of exactly a 64-digit
      hexadecimal digest and a nonnegative integer size. */
  function MetaOf(j: Json, env: Env): Option<Meta> {
    if !j.Obj? || |j.pairs| != 2 then None
    else
      var first := j.pairs[0].0 == "sha256";
      var d := j.pairs[if first then 0 else 1];
      var s := j.pairs[if first then 1 else 0];
      if d.0 == "sha256" && s.0 == "size" && d.1.Str? && |d.1.text| == 64 && env.hex(d.1.text)
         && s.1.Num? && s.1.value >= 0
      then Some(Meta(d.1.text, s.1.value)) else None
  }

  /** The raw entries of a manifest document. */
  function EntriesOf(doc: Option<Json>): Option<seq<(string, Json)>> {
    if doc.None? || !doc.value.Obj? || |doc.value.pairs| != 1 || doc.value.pairs[0].0 != "members"
       || !doc.value.pairs[0].1.Obj? || !UniqueKeys(doc.value.pairs[0].1.pairs)
    then None
    else Some(doc.value.pairs[0].1.pairs)
  }

  // ---- archives ----

  /** `data` is what reading the member yields, if it can be read. */
  datatype Member = Member(name: string, regular: bool, size: int, data: Option<Bytes>)

  type Tar = seq<Member>

  /** A member as the reader sees it. Without `path` it is unsafe, not a regular
      file, or outside the inventory. */
  datatype Item = Item(path: Option<Path>, size: int, data: Option<Bytes>)

  /** A manifest entry as the reader sees it. Without `path` its name or its
      metadata is invalid. */
  datatype Record = Record(path: Option<Path>, meta: Meta)

  function ItemOf(m: Member): Item {
    var name := CanonicalName(m.name);
    Item(if name.Some? && m.regular && (name.value == MANIFEST || InInventory(name.value)) then name else None,
         m.size, m.data)
  }

  function RecordOf(entry: (string, Json), env: Env): Record {
    var name, meta := CanonicalName(entry.0), MetaOf(entry.1, env);
    if meta.Some? && name.Some? && InInventory(name.value) then Record(name, meta.value) else Record(None, Meta("", 0))
  }

  function Items(tar: Tar): seq<Item> {
    seq(|tar|, i requires 0 <= i < |tar| => ItemOf(tar[i]))
  }

  function Records(entries: seq<(string, Json)>, env: Env): seq<Record> {
    seq(|entries|, i requires 0 <= i < |entries| => RecordOf(entries[i], env))
  }

  /** The manifest read from the bytes of its member. */
  function ReadManifest(data: Option<Bytes>, env: Env): Option<seq<Record>> {
    if data.None? then None
    else
      var entries := EntriesOf(env.parse(data.value));
      if entries.None? then None else Some(Records(entries.value, env))
  }

  /** What verify and restore need: a digest and a way to read the manifest. */
  datatype Reader = Reader(sha: Bytes -> string, manifest: Option<Bytes> -> Option<seq<Record>>)

  function ReaderOf(env: Env): Reader {
    Reader(env.sha, data => ReadManifest(data, env))
  }

  // ---- what the reader accepts, piece by piece ----

  ghost predicate InPrefix(path: Path) {
    ["build", ".issue_implementer"] < path
  }

  /** The two ways to write an object of a digest and a size. */
  ghost predicate WritesMeta(j: Json, digest: string, size: int) {
    || j == Obj([("sha256", Str(digest)), ("size", Num(size))])
    || j == Obj([("size", Num(size)), ("sha256", Str(digest))])
  }

  lemma MetaExactly(j: Json, env: Env, digest: string, size: nat)
    ensures MetaOf(j, env) == Some(Meta(digest, size)) <==>
              WritesMeta(j, digest, size) && |digest| == 64 && env.hex(digest)
  {
    if j.Obj? && |j.pairs| == 2 {
      assert j.pairs == [j.pairs[0], j.pairs[1]];
    }
  }

  lemma EntriesExactly(doc: Option<Json>, entries: seq<(string, Json)>)
    ensures EntriesOf(doc) == Some(entries) <==>
              && doc == Some(Obj([("members", Obj(entries))]))
              && forall i, j :: 0 <= i < j < |entries| ==> entries[i].0 != entries[j].0
  {
    if doc.Some? && doc.value.Obj? && |doc.value.pairs| == 1 {
      assert doc.value.pairs == [doc.value.pairs[0]];
    }
  }

  /** A member counts under a path exactly if that is its safe name, it is a regular
      file, and the path is the manifest's or in the inventory. */
  lemma ItemExactly(m: Member, path: Path)
    ensures ItemOf(m).path == Some(path) <==>
              CanonicalName(m.name) == Some(path) && m.regular && (path == ["manifest.json"] || InPrefix(path))
    ensures ItemOf(m).size == m.size && ItemOf(m).data == m.data
  {
    InventoryExactly(path);
  }

  lemma InventoryExactly(path: Path)
    ensures InInventory(path) <==> InPrefix(path)
  {
    assert INVENTORY[0] == ["build", ".issue_implementer"];
  }

  lemma RecordExactly(entry: (string, Json), env: Env, path: Path, digest: string, size: nat)
    ensures RecordOf(entry, env) == Record(Some(path), Meta(digest, size)) <==>
              && CanonicalName(entry.0) == Some(path) && InPrefix(path)
              && WritesMeta(entry.1, digest, size) && |digest| == 64 && env.hex(digest)
  {
    InventoryExactly(path);
    MetaExactly(entry.1, env, digest, size);
  }

  lemma ManifestExactly(data: Option<Bytes>, env: Env, records: seq<Record>)
    ensures ReadManifest(data, env) == Some(records) <==>
              data.Some? && exists entries :: EntriesOf(env.parse(data.value)) == Some(entries) && RecordsOf(entries, records, env)
  {
    if ReadManifest(data, env) == Some(records) {
      var entries := EntriesOf(env.parse(data.value)).value;
      assert RecordsOf(entries, records, env);
    }
    if data.Some? {
      forall entries | EntriesOf(env.parse(data.value)) == Some(entries) && RecordsOf(entries, records, env)
        ensures records == Records(entries, env)
      {
      }
    }
  }

  ghost predicate RecordsOf(entries: seq<(string, Json)>, records: seq<Record>, env: Env) {
    |records| == |entries| && forall i :: 0 <= i < |entries| ==> records[i] == RecordOf(entries[i], env)
  }
}
