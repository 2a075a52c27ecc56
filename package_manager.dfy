/** The package manifest of PackageManager.h/.cpp: `pkg.json` lists the
    containers (`kxrlist`, whose position is the container's index) and a tree
    of folders and files (`entries`), each file naming its container and entry
    id. Loading flattens the tree into one record list per container; lookup
    maps a container name and an entry id to the record's path, or to the
    fallback `<container>/<id>.bin`. */
module ManifestResolver {

  import opened Wrappers
  import opened Strings
  import opened Paths

  // ---- The parsed manifest ----

  /** One element of an `entries` or `list` array. A node carrying a `list`
      key is a folder; any other is a file. A field is None when its key is
      missing or does not hold a value of the type read from it (either way
      `at` and the conversion throw). */
  datatype Node =
    | Folder(name: Option<string>, list: seq<Node>)
    | File(name: Option<string>, kxr: Option<uint32>, eid: Option<uint32>)

  /** The document root: the `kxrname` of each `kxrlist` element (None when
      `kxrlist` is missing), and the `entries` array (a missing key reads as
      null, which iterates as empty). */
  datatype Manifest = Manifest(kxrlist: Option<seq<Option<string>>>, entries: seq<Node>)

  /** What opening and parsing the file produced. */
  datatype Source = NotOpened | Malformed | Document(root: Manifest)

  /** `KXRJsonEntry`. */
  datatype Record = Record(kxr: uint32, eid: uint32, name: Path)

  /** The manager's fields: `_packageReady`, `_currentPath`, `_kxrList` and
      `_kxrFileList`. */
  datatype State = State(
    ready: bool,
    path: Path,
    names: map<string, uint32>,
    files: map<uint32, seq<Record>>)

  /** A state an operation reached, and whether it completed (false: it
      threw, leaving what it had done so far). */
  datatype Outcome<T> = Outcome(ok: bool, value: T)

  const Cleared := State(false, Empty, map[], map[])

  /** `_kxrFileList[k]` read through `operator[]`: empty when absent. */
  function ListOf(files: map<uint32, seq<Record>>, k: uint32): (r: seq<Record>)
    ensures k in files ==> r == files[k]
    ensures k !in files ==> r == []
  {
    if k in files then files[k] else []
  }

  /** `_kxrList[name]` read through `operator[]`: 0 when absent. */
  function IndexOf(names: map<string, uint32>, name: string): (r: uint32)
    ensures name in names ==> r == names[name]
    ensures name !in names ==> r == 0
  {
    if name in names then names[name] else 0
  }

  // ---- Loading ----

  /** The `kxrlist` loop: the element at position `i` maps its name to index
      `i` (a `uint32_t` counter), a later duplicate overwriting an earlier
      one; it stops at the first element without a name. */
  function IndexNames(list: seq<Option<string>>, names: map<string, uint32>): (r: Outcome<map<string, uint32>>)
    ensures r.ok <==> forall i :: 0 <= i < |list| ==> list[i].Some?
    decreases |list|
  {
    if |list| == 0 then Outcome(true, names)
    else
      var prev := IndexNames(list[..|list| - 1], names);
      if !prev.ok then prev
      else match list[|list| - 1]
        case None => Outcome(false, prev.value)
        case Some(k) => Outcome(true, prev.value[k := ToUint32(|list| - 1)])
  }

  /** `RecursiveParseJson(list)`: the entries in order; it stops at the first
      one that throws. */
  function ParseList(list: seq<Node>, st: State): (r: Outcome<State>)
    ensures r.value.ready == st.ready && r.value.names == st.names
    decreases list
  {
    if |list| == 0 then Outcome(true, st)
    else
      var prev := ParseList(list[..|list| - 1], st);
      if !prev.ok then prev else ParseNode(list[|list| - 1], prev.value)
  }

  /** One entry: a folder appends its name to the current path, parses its
      list and (only when that returns) goes back to the parent path; a file
      appends a record to its container's list. */
  function ParseNode(n: Node, st: State): (r: Outcome<State>)
    ensures r.value.ready == st.ready && r.value.names == st.names
    decreases n
  {
    match n
    case Folder(Some(name), list) =>
      var inner := ParseList(list, st.(path := Append(st.path, name)));
      if inner.ok then Outcome(true, inner.value.(path := Parent(inner.value.path))) else inner
    case File(Some(name), Some(kxr), Some(eid)) =>
      Outcome(true, st.(files := st.files[kxr := ListOf(st.files, kxr) + [Record(kxr, eid, Append(st.path, name))]]))
    case _ => Outcome(false, st)
  }

  /** `BeginParseJson(root)`: no `kxrlist` throws; otherwise the names are
      indexed, the entries parsed, and the package marked ready only when
      both complete. */
  function Begin(root: Manifest, st: State): (r: Outcome<State>)
    ensures r.ok ==> r.value.ready
    ensures !r.ok ==> r.value.ready == st.ready
    ensures root.kxrlist.None? ==> r == Outcome(false, st)
  {
    match root.kxrlist
    case None => Outcome(false, st)
    case Some(kl) =>
      var indexed := IndexNames(kl, st.names);
      if !indexed.ok then Outcome(false, st.(names := indexed.value))
      else
        var parsed := ParseList(root.entries, st.(names := indexed.value));
        if !parsed.ok then parsed else Outcome(true, parsed.value.(ready := true))
  }

  /** `ReadPKGJson`: a file that does not open or parse changes nothing;
      otherwise everything is cleared before parsing begins. */
  function Load(src: Source, st: State): (r: Outcome<State>)
    ensures src.Document? ==> r == Begin(src.root, Cleared)
    ensures !src.Document? ==> r == Outcome(false, st)
  {
    match src
    case Document(root) => Begin(root, Cleared)
    case _ => Outcome(false, st)
  }

  /** Once a name is missing the loop has thrown: later elements change
      nothing. */
  lemma {:induction false} IndexNamesStops(list: seq<Option<string>>, i: nat, names: map<string, uint32>)
    requires i <= |list| && !IndexNames(list[..i], names).ok
    ensures IndexNames(list, names) == IndexNames(list[..i], names)
    decreases |list|
  {
    if i < |list| {
      assert list[..|list| - 1][..i] == list[..i];
      IndexNamesStops(list[..|list| - 1], i, names);
    } else {
      assert list[..i] == list;
    }
  }

  /** One more element after a prefix that completed: a name is indexed by
      its position, a missing one stops the loop. */
  lemma IndexNamesNext(list: seq<Option<string>>, i: nat, names: map<string, uint32>, m: map<string, uint32>)
    requires i < |list| && IndexNames(list[..i], names) == Outcome(true, m)
    ensures list[i].Some? ==> IndexNames(list[..i + 1], names) == Outcome(true, m[list[i].value := ToUint32(i)])
    ensures list[i].None? ==> IndexNames(list[..i + 1], names) == Outcome(false, m)
  {
    assert list[..i + 1][..i] == list[..i];
  }

  /** Once an entry has thrown, later entries change nothing. */
  lemma {:induction false} ParseListStops(list: seq<Node>, i: nat, st: State)
    requires i <= |list| && !ParseList(list[..i], st).ok
    ensures ParseList(list, st) == ParseList(list[..i], st)
    decreases |list|
  {
    if i < |list| {
      assert list[..|list| - 1][..i] == list[..i];
      ParseListStops(list[..|list| - 1], i, st);
    } else {
      assert list[..i] == list;
    }
  }

  // ---- The reference reading of a manifest ----

  /** A tree every node of which has the keys its kind needs. */
  predicate WellFormedList(list: seq<Node>)
    decreases list
  {
    forall i :: 0 <= i < |list| ==> WellFormedNode(list[i])
  }

  predicate WellFormedNode(n: Node)
    decreases n
  {
    match n
    case Folder(name, list) => name.Some? && WellFormedList(list)
    case File(name, kxr, eid) => name.Some? && kxr.Some? && eid.Some?
  }

  /** The file records of a tree in document order, each named by the folder
      path above it. */
  function Flatten(list: seq<Node>, p: Path): seq<Record>
    decreases list
  {
    if |list| == 0 then [] else Flatten(list[..|list| - 1], p) + FlattenNode(list[|list| - 1], p)
  }

  function FlattenNode(n: Node, p: Path): seq<Record>
    decreases n
  {
    match n
    case Folder(Some(name), list) => Flatten(list, Append(p, name))
    case File(Some(name), Some(kxr), Some(eid)) => [Record(kxr, eid, Append(p, name))]
    case _ => []
  }

  /** Appends each record to its container's list, in order. */
  function AppendAll(files: map<uint32, seq<Record>>, recs: seq<Record>): map<uint32, seq<Record>>
    decreases |recs|
  {
    if |recs| == 0 then files
    else
      var f := AppendAll(files, recs[..|recs| - 1]);
      var r := recs[|recs| - 1];
      f[r.kxr := ListOf(f, r.kxr) + [r]]
  }

  /** The records that belong to container `k`, in order. */
  function Select(recs: seq<Record>, k: uint32): (r: seq<Record>)
    ensures forall i :: 0 <= i < |r| ==> r[i].kxr == k
    decreases |recs|
  {
    if |recs| == 0 then []
    else Select(recs[..|recs| - 1], k) + (if recs[|recs| - 1].kxr == k then [recs[|recs| - 1]] else [])
  }

  lemma {:induction false} AppendAllConcat(files: map<uint32, seq<Record>>, a: seq<Record>, b: seq<Record>)
    ensures AppendAll(files, a + b) == AppendAll(AppendAll(files, a), b)
    decreases |b|
  {
    if |b| > 0 {
      assert (a + b)[..|a + b| - 1] == a + b[..|b| - 1];
      AppendAllConcat(files, a, b[..|b| - 1]);
    } else {
      assert a + b == a;
    }
  }

  /** After appending records, container `k` holds what it held before
      followed by the records that belong to it. */
  lemma {:induction false} ListOfAppendAll(files: map<uint32, seq<Record>>, recs: seq<Record>, k: uint32)
    ensures ListOf(AppendAll(files, recs), k) == ListOf(files, k) + Select(recs, k)
    decreases |recs|
  {
    if |recs| > 0 {
      ListOfAppendAll(files, recs[..|recs| - 1], k);
    }
  }

  /** Parsing a list completes exactly when the list is well formed, and then
      it adds the flattened records and leaves the current path where it was;
      one malformed node anywhere makes it throw. */
  lemma {:induction false} ParseListFlattens(list: seq<Node>, st: State)
    ensures ParseList(list, st).ok <==> WellFormedList(list)
    ensures WellFormedList(list) ==>
              ParseList(list, st).value == st.(files := AppendAll(st.files, Flatten(list, st.path)))
    decreases list
  {
    if |list| > 0 {
      var init := list[..|list| - 1];
      var last := list[|list| - 1];
      ParseListFlattens(init, st);
      assert WellFormedList(list) <==> WellFormedList(init) && WellFormedNode(last) by {
        if WellFormedList(init) && WellFormedNode(last) {
          forall i | 0 <= i < |list| ensures WellFormedNode(list[i]) {
            if i < |list| - 1 {
              assert list[i] == init[i];
            }
          }
        }
      }
      if WellFormedList(init) {
        var mid := st.(files := AppendAll(st.files, Flatten(init, st.path)));
        ParseNodeFlattens(last, mid);
        AppendAllConcat(st.files, Flatten(init, st.path), FlattenNode(last, st.path));
      }
    }
  }

  lemma {:induction false} ParseNodeFlattens(n: Node, st: State)
    ensures ParseNode(n, st).ok <==> WellFormedNode(n)
    ensures WellFormedNode(n) ==>
              ParseNode(n, st).value == st.(files := AppendAll(st.files, FlattenNode(n, st.path)))
    decreases n
  {
    match n
    case Folder(Some(name), list) =>
      var inner := st.(path := Append(st.path, name));
      ParseListFlattens(list, inner);
      ParentOfAppend(st.path, name);
    case File(Some(name), Some(kxr), Some(eid)) =>
      var r := Record(kxr, eid, Append(st.path, name));
      assert [r][..0] == [];
    case _ =>
  }

  /** Indexing names adds exactly the names of the list. */
  lemma {:induction false} IndexNamesKeys(list: seq<Option<string>>, names: map<string, uint32>)
    requires forall i :: 0 <= i < |list| ==> list[i].Some?
    ensures forall k :: k in IndexNames(list, names).value <==> k in names || Some(k) in list
    decreases |list|
  {
    if |list| > 0 {
      var init := list[..|list| - 1];
      IndexNamesKeys(init, names);
      forall k ensures Some(k) in list <==> Some(k) in init || list[|list| - 1] == Some(k) {
        assert list == init + [list[|list| - 1]];
      }
    }
  }

  /** Names the list does not mention keep their index. */
  lemma {:induction false} IndexNamesKeeps(list: seq<Option<string>>, names: map<string, uint32>, k: string)
    requires forall i :: 0 <= i < |list| ==> list[i].Some?
    requires k in names && Some(k) !in list
    ensures k in IndexNames(list, names).value && IndexNames(list, names).value[k] == names[k]
    decreases |list|
  {
    if |list| > 0 {
      var init := list[..|list| - 1];
      assert list == init + [list[|list| - 1]];
      IndexNamesKeeps(init, names, k);
    }
  }

  /** A name maps to the position of its last occurrence. */
  lemma {:induction false} IndexNamesLast(list: seq<Option<string>>, names: map<string, uint32>, i: nat)
    requires forall j :: 0 <= j < |list| ==> list[j].Some?
    requires i < |list| && list[i] !in list[i + 1..]
    ensures list[i].value in IndexNames(list, names).value
    ensures IndexNames(list, names).value[list[i].value] == ToUint32(i)
    decreases |list|
  {
    var n := |list| - 1;
    if i < n {
      var init := list[..n];
      assert list[n] in list[i + 1..];
      assert init[i + 1..] == list[i + 1..n];
      IndexNamesLast(init, names, i);
    }
  }

  /** A manifest loads exactly when it has a `kxrlist`, every container
      has a name and every node is well formed; it then holds the containers
      indexed from a fresh table and each file under its folder path, the
      current path back at the root. A failed load is never ready. */
  lemma LoadDocument(root: Manifest, st: State)
    ensures Load(Document(root), st).ok <==>
              root.kxrlist.Some? && IndexNames(root.kxrlist.value, map[]).ok && WellFormedList(root.entries)
    ensures Load(Document(root), st).ok ==>
              Load(Document(root), st).value ==
                State(true, Empty, IndexNames(root.kxrlist.value, map[]).value, AppendAll(map[], Flatten(root.entries, Empty)))
    ensures !Load(Document(root), st).value.ready <==> !Load(Document(root), st).ok
  {
    if root.kxrlist.Some? && IndexNames(root.kxrlist.value, map[]).ok {
      ParseListFlattens(root.entries, Cleared.(names := IndexNames(root.kxrlist.value, map[]).value));
    }
  }

  // ---- Lookup ----

  /** The first position in `list` whose record has entry id `eid`. */
  function FirstMatch(list: seq<Record>, eid: uint32): (r: Option<nat>)
    ensures r.Some? ==> r.value < |list| && list[r.value].eid == eid
    ensures r.Some? ==> forall j :: 0 <= j < r.value ==> list[j].eid != eid
    ensures r.None? <==> forall j :: 0 <= j < |list| ==> list[j].eid != eid
    decreases |list|
  {
    if |list| == 0 then None
    else match FirstMatch(list[..|list| - 1], eid)
      case Some(i) => Some(i)
      case None => if list[|list| - 1].eid == eid then Some(|list| - 1) else None
  }

  /** The path built from the container name and the id when lookup fails:
      the string `kxrName + "/" + to_string(eid) + ".bin"` as a path. With an
      empty container name the string starts with `/` and is rooted. */
  function Fallback(kxrName: string, eid: uint32): (r: Path)
    ensures |r.parts| > 0 && FileName(r.parts[|r.parts| - 1]) == Decimal(eid) + ".bin"
    ensures r.rooted <==> kxrName == ""
    ensures kxrName != "" ==> r.parts == [kxrName, Decimal(eid) + ".bin"]
    ensures kxrName == "" ==> r.parts == [Decimal(eid) + ".bin"]
  {
    var file := Decimal(eid) + ".bin";
    assert '/' !in file by {
      assert forall i :: 0 <= i < |Decimal(eid)| ==> IsDigit(file[i]);
    }
    if kxrName == "" then Path(true, [file]) else Path(false, [kxrName, file])
  }

  /** `FindFileName(kxrName, eid)` as a function of the state: before a
      package is ready, the fallback; otherwise in the list of the named
      container (index 0 for an unknown name) the record at position `eid`
      when it carries that id, else the first record with that id, else the
      fallback. */
  function Resolve(st: State, kxrName: string, eid: uint32): (r: Path)
    ensures !st.ready ==> r == Fallback(kxrName, eid)
  {
    if !st.ready then Fallback(kxrName, eid)
    else
      var list := ListOf(st.files, IndexOf(st.names, kxrName));
      if eid < |list| && list[eid].eid == eid then list[eid].name
      else match FirstMatch(list, eid)
        case Some(i) => list[i].name
        case None => Fallback(kxrName, eid)
  }

  /** What `FindFileName` does to the tables: when ready, `operator[]`
      inserts the name (index 0) and the container (an empty list) if they
      are absent. */
  function LookupEffect(st: State, kxrName: string): (r: State)
    ensures !st.ready ==> r == st
    ensures st.ready ==> kxrName in r.names && IndexOf(r.names, kxrName) == IndexOf(st.names, kxrName)
    ensures st.ready ==> IndexOf(st.names, kxrName) in r.files
    ensures r.ready == st.ready && r.path == st.path
    ensures forall n :: n in st.names ==> n in r.names && r.names[n] == st.names[n]
    ensures forall k :: k in st.files ==> k in r.files && r.files[k] == st.files[k]
    ensures r.names.Keys <= st.names.Keys + {kxrName}
    ensures r.files.Keys <= st.files.Keys + {IndexOf(st.names, kxrName)}
  {
    if !st.ready then st
    else
      var k := IndexOf(st.names, kxrName);
      st.(names := st.names[kxrName := k], files := st.files[k := ListOf(st.files, k)])
  }

  /** A lookup finds a record of the named container with the requested id
      whenever one exists, and otherwise falls back; when the record at
      position `eid` does not carry the id, it is the first record that does. */
  lemma ResolveFindsRecord(st: State, kxrName: string, eid: uint32)
    requires st.ready
    ensures var list := ListOf(st.files, IndexOf(st.names, kxrName));
            (exists i :: 0 <= i < |list| && list[i].eid == eid) ==>
              exists i :: 0 <= i < |list| && list[i].eid == eid && Resolve(st, kxrName, eid) == list[i].name
    ensures var list := ListOf(st.files, IndexOf(st.names, kxrName));
            (forall i :: 0 <= i < |list| ==> list[i].eid != eid) ==> Resolve(st, kxrName, eid) == Fallback(kxrName, eid)
    ensures var list := ListOf(st.files, IndexOf(st.names, kxrName));
            !(eid < |list| && list[eid].eid == eid) ==>
              forall i :: 0 <= i < |list| && list[i].eid == eid && (forall j :: 0 <= j < i ==> list[j].eid != eid) ==>
                Resolve(st, kxrName, eid) == list[i].name
  {
    var list := ListOf(st.files, IndexOf(st.names, kxrName));
    if eid < |list| && list[eid].eid == eid {
      assert list[eid as int].eid == eid;
    } else if FirstMatch(list, eid).Some? {
      var k := FirstMatch(list, eid).value;
      assert list[k].eid == eid;
      forall i | 0 <= i < |list| && list[i].eid == eid && (forall j :: 0 <= j < i ==> list[j].eid != eid)
        ensures Resolve(st, kxrName, eid) == list[i].name
      {
        assert !(k < i) && !(i < k);
      }
    }
  }

  /** When a container's ids run 0, 1, 2, … in order, an id below the list's
      length resolves to the record at that position. */
  lemma ResolveSequential(st: State, kxrName: string, eid: uint32)
    requires st.ready
    requires var list := ListOf(st.files, IndexOf(st.names, kxrName));
             eid < |list| && forall i :: 0 <= i < |list| ==> list[i].eid == i
    ensures Resolve(st, kxrName, eid) == ListOf(st.files, IndexOf(st.names, kxrName))[eid].name
  {
  }

  /** The position check comes first: a record at position `eid` carrying
      id `eid` is the answer, even when the scan would have found an earlier
      record with the same id. */
  lemma ResolveDuplicatePrefersPosition(st: State, kxrName: string, eid: uint32)
    requires st.ready
    ensures var list := ListOf(st.files, IndexOf(st.names, kxrName));
            eid < |list| && list[eid].eid == eid ==>
              Resolve(st, kxrName, eid) == list[eid].name && FirstMatch(list, eid).Some? && FirstMatch(list, eid).value <= eid as nat
  {
    var list := ListOf(st.files, IndexOf(st.names, kxrName));
    if eid < |list| && list[eid].eid == eid {
      assert list[eid as int].eid == eid;
    }
  }

  /** An instance: two records with id 1, the second at position 1, resolve
      to the second although the scan finds the first. */
  lemma DuplicateIdsExample(a: Path, b: Path)
    requires a != b
    ensures var st := State(true, Empty, map["c" := 0], map[0 := [Record(0, 1, a), Record(0, 1, b)]]);
            Resolve(st, "c", 1) == b && FirstMatch(st.files[0], 1) == Some(0)
  {
  }

  /** The entries a lookup inserts are the defaults it would read anyway:
      no later lookup resolves differently. */
  lemma LookupEffectInvisible(st: State, kxrName: string, other: string, eid: uint32)
    ensures Resolve(LookupEffect(st, kxrName), other, eid) == Resolve(st, other, eid)
  {
    if st.ready {
      var r := LookupEffect(st, kxrName);
      assert IndexOf(r.names, other) == IndexOf(st.names, other);
      assert ListOf(r.files, IndexOf(r.names, other)) == ListOf(st.files, IndexOf(st.names, other));
    }
  }

  /** A container name not in `kxrlist` is looked up in container 0. */
  lemma UnknownNameUsesFirstContainer(st: State, kxrName: string, known: string, eid: uint32)
    requires st.ready && kxrName !in st.names && known in st.names && st.names[known] == 0
    requires FirstMatch(ListOf(st.files, 0), eid).Some?
    ensures Resolve(st, kxrName, eid) == Resolve(st, known, eid)
  {
    assert IndexOf(st.names, kxrName) == 0 && IndexOf(st.names, known) == 0;
  }

  // ---- The manager ----

  class PackageManager {
    var packageReady: bool
    var currentPath: Path
    var kxrList: map<string, uint32>
    var kxrFileList: map<uint32, seq<Record>>

    function Snapshot(): State
      reads this
    {
      State(packageReady, currentPath, kxrList, kxrFileList)
    }

    /** `PackageManager()`: not ready, nothing loaded. */
    constructor ()
      ensures Snapshot() == Cleared
    {
      packageReady := false;
      currentPath := Empty;
      kxrList := map[];
      kxrFileList := map[];
    }

    /** `ReadPKGJson(filename)`, given what opening and parsing the file
        produced. */
    method ReadPKGJson(src: Source) returns (ok: bool)
      modifies this
      ensures Outcome(ok, Snapshot()) == Load(src, old(Snapshot()))
    {
      match src
      case NotOpened => return false;
      case Malformed => return false;
      case Document(root) =>
        kxrList := map[];
        kxrFileList := map[];
        currentPath := Empty;
        packageReady := false;
        ok := BeginParseJson(root);
    }

    /** `BeginParseJson(root)`; false where the source throws. */
    method BeginParseJson(root: Manifest) returns (ok: bool)
      modifies this
      ensures Outcome(ok, Snapshot()) == Begin(root, old(Snapshot()))
    {
      if root.kxrlist.None? {
        return false;
      }
      ok := IndexKxrList(root.kxrlist.value);
      if !ok {
        return false;
      }
      ok := RecursiveParseJson(root.entries);
      if !ok {
        return false;
      }
      packageReady := true;
    }

    /** The first loop of `BeginParseJson`: each name of `kxrlist` gets its
        position as its id, counted in a `uint32_t`; it stops at the first
        entry that is not a string. */
    method IndexKxrList(kl: seq<Option<string>>) returns (ok: bool)
      modifies this`kxrList
      ensures Outcome(ok, kxrList) == IndexNames(kl, old(kxrList))
    {
      var kxrId: uint32 := 0;
      for i := 0 to |kl|
        invariant kxrId == ToUint32(i)
        invariant IndexNames(kl[..i], old(kxrList)) == Outcome(true, kxrList)
      {
        IndexNamesNext(kl, i, old(kxrList), kxrList);
        match kl[i]
        case None =>
          IndexNamesStops(kl, i + 1, old(kxrList));
          return false;
        case Some(name) =>
          kxrList := kxrList[name := kxrId];
          ToUint32Next(i);
          kxrId := if kxrId == 0xFFFF_FFFF then 0 else kxrId + 1;
      }
      assert kl[..|kl|] == kl;
      return true;
    }

    /** `RecursiveParseJson(list)`; false where the source throws. */
    method RecursiveParseJson(list: seq<Node>) returns (ok: bool)
      modifies this
      ensures Outcome(ok, Snapshot()) == ParseList(list, old(Snapshot()))
      decreases list
    {
      for i := 0 to |list|
        invariant ParseList(list[..i], old(Snapshot())) == Outcome(true, Snapshot())
      {
        assert list[..i + 1][..i] == list[..i];
        var entry := list[i];
        if entry.name.None? {
          ParseListStops(list, i + 1, old(Snapshot()));
          return false;
        }
        var name := entry.name.value;
        if entry.Folder? {
          currentPath := Append(currentPath, name);
          ok := RecursiveParseJson(entry.list);
          if !ok {
            ParseListStops(list, i + 1, old(Snapshot()));
            return false;
          }
          currentPath := Parent(currentPath);
        } else {
          if entry.kxr.None? || entry.eid.None? {
            ParseListStops(list, i + 1, old(Snapshot()));
            return false;
          }
          var kxr := entry.kxr.value;
          kxrFileList := kxrFileList[kxr := ListOf(kxrFileList, kxr) + [Record(kxr, entry.eid.value, Append(currentPath, name))]];
        }
      }
      assert list[..|list|] == list;
      return true;
    }

    /** `FindFileName(kxrName, eid)`. */
    method FindFileName(kxrName: string, eid: uint32) returns (p: Path)
      modifies this
      ensures p == Resolve(old(Snapshot()), kxrName, eid)
      ensures Snapshot() == LookupEffect(old(Snapshot()), kxrName)
    {
      if packageReady {
        var kxr := IndexOf(kxrList, kxrName);
        kxrList := kxrList[kxrName := kxr];
        var list := ListOf(kxrFileList, kxr);
        kxrFileList := kxrFileList[kxr := list];
        if eid < |list| && list[eid].eid == eid {
          return list[eid].name;
        }
        for i := 0 to |list|
          invariant forall j :: 0 <= j < i ==> list[j].eid != eid
        {
          if list[i].eid == eid {
            return list[i].name;
          }
        }
      }
      return Fallback(kxrName, eid);
    }
  }
}
