/** The container extractor of KXRUnpacker.h/.cpp. A `.kxr` container starts
    with the identifier "kxrf", an unused word, and the offset and size of an
    encrypted table of contents (TOC). The TOC holds one entry, read
    recursively: a directory (a count, then that many entries) or a file (the
    offset and size of its bytes in the container, encrypted or DEFLATE
    compressed). Files named by a bare number are renamed through the package
    manifest; every file is handed to the disk writer, which is modelled as a
    log of write requests. */
module ContainerExtractor {

  import opened Wrappers
  import opened Strings
  import opened Paths
  import opened ByteCursor
  import opened ManifestResolver

  /** `KXRF_Identifier`: 'k' << 24 | 'x' << 16 | 'r' << 8 | 'f'. */
  const KXRF_IDENTIFIER: bv32 := 0x6B78_7266

  /** Read with `u32()`, the identifier is the first four bytes of the file
      spelling "kxrf". */
  lemma IdentifierSpellsKxrf()
    ensures EncodeBE32(KXRF_IDENTIFIER) == [('k' as int) as bv8, ('x' as int) as bv8, ('r' as int) as bv8, ('f' as int) as bv8]
  {
  }

  /** `KType`: the entry kinds and their tags. */
  datatype KType = FileEncrypted | Directory | FileCompressed

  function Tag(k: KType): (t: bv32)
    ensures KindOf(t) == Some(k)
  {
    match k
    case FileEncrypted => 0
    case Directory => 1
    case FileCompressed => 4
  }

  /** The `switch` on an entry's type word: other values match no case. */
  function KindOf(tag: bv32): (r: Option<KType>)
    ensures r.Some? <==> tag == 0 || tag == 1 || tag == 4
    ensures r.Some? ==> r.value.FileEncrypted? == (tag == 0) && r.value.Directory? == (tag == 1)
  {
    if tag == 0 then Some(FileEncrypted)
    else if tag == 1 then Some(Directory)
    else if tag == 4 then Some(FileCompressed)
    else None
  }

  /** What the extractor asks of the disk: write `data` at `path`; or, where
      the source copies a slice of the container without a bounds check
      (undefined behaviour when it reaches past the end), the out-of-range
      request instead. */
  datatype Emit = Saved(path: Path, data: seq<bv8>) | OutOfRange(offset: bv32, size: bv32)

  // ---- Walking the table of contents ----

  /** What a walk reads but never changes: the decrypted TOC, the container
      bytes, the container's base name, the output directory and zlib. */
  datatype Context = Context(toc: seq<bv8>, content: seq<bv8>, base: string, out: Path, inflate: Inflater)

  /** What a walk changes: the TOC position, `_currentDirectory`, the writes
      requested so far and the package manager's tables. */
  datatype Walk = Walk(pos: nat, dir: Path, log: seq<Emit>, pkg: State)

  /** The head of a TOC entry: its name, an unused byte and word, and its
      type word. */
  datatype Header = Header(name: string, tag: bv32, next: nat)

  function ReadHeader(toc: seq<bv8>, pos: nat): (r: Header)
    requires pos <= |toc|
    ensures pos <= r.next <= |toc|
    ensures r.tag != 0 ==> pos + 11 <= r.next
  {
    var name := ReadString(toc, pos);
    var unknownA := ReadU8(toc, name.next);
    var unknownB := ReadU32(toc, unknownA.next);
    var kind := ReadU32(toc, unknownB.next);
    ReadsStayInBounds(toc, pos);
    ReadsStayInBounds(toc, name.next);
    ReadsStayInBounds(toc, unknownA.next);
    ReadsStayInBounds(toc, unknownB.next);
    Header(name.value, kind.value, kind.next)
  }

  /** The byte and the two words after an entry's name. */
  lemma ReadHeaderTail(toc: seq<bv8>, p0: seq<bv8>, a: bv8, b: bv32, tag: bv32, suffix: seq<bv8>)
    requires toc == p0 + ([a] + EncodeBE32(b) + EncodeBE32(tag) + suffix)
    ensures ReadU8(toc, |p0|) == Parsed(a, |p0| + 1)
    ensures ReadU32(toc, |p0| + 1) == Parsed(b, |p0| + 5) && ReadU32(toc, |p0| + 5) == Parsed(tag, |p0| + 9)
  {
    assert toc[|p0|] == a;
    assert toc == (p0 + [a]) + EncodeBE32(b) + (EncodeBE32(tag) + suffix);
    ReadU32OfEncoded(p0 + [a], b, EncodeBE32(tag) + suffix);
    assert toc == (p0 + [a] + EncodeBE32(b)) + EncodeBE32(tag) + suffix;
    ReadU32OfEncoded(p0 + [a] + EncodeBE32(b), tag, suffix);
  }

  /** A head whose four fields read as given reads as their header. */
  lemma ReadHeaderFrom(toc: seq<bv8>, pos: nat, name: string, q: nat, a: bv8, b: bv32, tag: bv32)
    requires pos <= q && q + 9 <= |toc|
    requires ReadString(toc, pos) == Parsed(name, q)
    requires ReadU8(toc, q) == Parsed(a, q + 1)
    requires ReadU32(toc, q + 1) == Parsed(b, q + 5) && ReadU32(toc, q + 5) == Parsed(tag, q + 9)
    ensures ReadHeader(toc, pos) == Header(name, tag, q + 9)
  {
  }

  /** `RecursiveKXRExtract()`: read the entry head and dispatch on its type;
      an unknown type skips the entry after its head. No entry leaves the
      directory deeper than it found it, nor changes whether it is rooted: a
      folder's `+=` extends the last component rather than adding one, and its
      `parent_path` then removes one. */
  function Entry(c: Context, w: Walk): (r: Walk)
    requires w.pos <= |c.toc|
    ensures w.pos <= r.pos <= |c.toc|
    ensures |r.dir.parts| <= |w.dir.parts| && r.dir.rooted == w.dir.rooted
    ensures |w.log| <= |r.log| && r.log[..|w.log|] == w.log
    decreases |c.toc| - w.pos, 0, 2
  {
    EntryBody(c, w)
  }

  /** The definition of `Entry`: read the head at `w.pos`, then dispatch on
      it. `Entry`, `EntryBody` and `Dispatch` are kept apart so that the
      branches are unfolded only by the proofs that look inside an entry, not
      by those that only chain entries. */
  function EntryBody(c: Context, w: Walk): (r: Walk)
    requires w.pos <= |c.toc|
    ensures w.pos <= r.pos <= |c.toc|
    ensures |r.dir.parts| <= |w.dir.parts| && r.dir.rooted == w.dir.rooted
    ensures |w.log| <= |r.log| && r.log[..|w.log|] == w.log
    decreases |c.toc| - w.pos, 0, 1
  {
    Dispatch(c, w, ReadHeader(c.toc, w.pos))
  }

  /** The `switch` on the type word of the head `h` read at `w.pos`. */
  function Dispatch(c: Context, w: Walk, h: Header): (r: Walk)
    requires w.pos <= |c.toc| && h == ReadHeader(c.toc, w.pos)
    ensures w.pos <= r.pos <= |c.toc|
    ensures |r.dir.parts| <= |w.dir.parts| && r.dir.rooted == w.dir.rooted
    ensures |w.log| <= |r.log| && r.log[..|w.log|] == w.log
    decreases |c.toc| - w.pos, 0, 0
  {
    var next := w.(pos := h.next);
    match KindOf(h.tag)
    case Some(Directory) => FolderEntry(c, next, h.name)
    case Some(FileEncrypted) => FileEntry(c, next, h.name, FileEncrypted)
    case Some(FileCompressed) => FileEntry(c, next, h.name, FileCompressed)
    case None => next
  }

  /** An entry whose head has the folder type is that folder. */
  lemma EntryOfFolder(c: Context, w: Walk)
    requires w.pos <= |c.toc| && KindOf(ReadHeader(c.toc, w.pos).tag) == Some(Directory)
    ensures var h := ReadHeader(c.toc, w.pos);
            Entry(c, w) == FolderEntry(c, w.(pos := h.next), h.name)
  {
    assert Entry(c, w) == Dispatch(c, w, ReadHeader(c.toc, w.pos));
  }

  /** An entry whose head has a file type is that file. */
  lemma EntryOfFileKind(c: Context, w: Walk, kind: KType)
    requires w.pos <= |c.toc| && kind != Directory && KindOf(ReadHeader(c.toc, w.pos).tag) == Some(kind)
    ensures var h := ReadHeader(c.toc, w.pos);
            Entry(c, w) == FileEntry(c, w.(pos := h.next), h.name, kind)
  {
    assert Entry(c, w) == Dispatch(c, w, ReadHeader(c.toc, w.pos));
  }

  /** `UnpackFolder(name)`: `_currentDirectory += name`, then as many entries
      as the `u16` count says, then `_currentDirectory.parent_path()`. The
      folder leaves the directory at least one component shorter than it
      found it (or empty): after a sub-folder, the rest of the enclosing
      folder is no longer saved under the enclosing folder's name. */
  function FolderEntry(c: Context, w: Walk, name: string): (r: Walk)
    requires w.pos <= |c.toc|
    ensures w.pos <= r.pos <= |c.toc|
    ensures |r.dir.parts| <= (if |w.dir.parts| == 0 then 0 else |w.dir.parts| - 1) && r.dir.rooted == w.dir.rooted
    ensures |w.log| <= |r.log| && r.log[..|w.log|] == w.log
    decreases |c.toc| - w.pos, 2, 0
  {
    var count := ReadU16(c.toc, w.pos);
    ReadsStayInBounds(c.toc, w.pos);
    var inner := Children(c, w.(pos := count.next, dir := Concat(w.dir, name)), count.value as nat);
    inner.(dir := Parent(inner.dir))
  }

  /** The first `n` entries of a directory, one after the other. */
  function Children(c: Context, w: Walk, n: nat): (r: Walk)
    requires w.pos <= |c.toc|
    ensures w.pos <= r.pos <= |c.toc|
    ensures |r.dir.parts| <= |w.dir.parts| && r.dir.rooted == w.dir.rooted
    ensures |w.log| <= |r.log| && r.log[..|w.log|] == w.log
    decreases |c.toc| - w.pos, 1, n
  {
    if n == 0 then w else Entry(c, Children(c, w, n - 1))
  }

  /** The name a file is saved under, and the manager's tables after finding
      it: a name without an extension is a decimal entry id looked up in the
      manifest (`atoi` of its stem, converted to `uint32_t`); any other name
      is joined to the current directory. */
  function FileTarget(base: string, pkg: State, dir: Path, name: string): (r: (Path, State))
    ensures HasExtension(name) ==> r == (Append(dir, name), pkg)
    ensures !HasExtension(name) ==> r == (Resolve(pkg, base, ToUint32(Atoi(Stem(name)))), LookupEffect(pkg, base))
  {
    if !HasExtension(name) then
      (Resolve(pkg, base, ToUint32(Atoi(Stem(name)))), LookupEffect(pkg, base))
    else
      (Append(dir, name), pkg)
  }

  /** `UnpackEncryptedFile(name)` and `UnpackCompressedFile(name)`: read the
      offset and size of the file's bytes, then save them. */
  function FileEntry(c: Context, w: Walk, name: string, kind: KType): (r: Walk)
    requires w.pos <= |c.toc|
    ensures w.pos <= r.pos <= |c.toc|
    ensures r.dir == w.dir && |r.log| == |w.log| + 1 && r.log[..|w.log|] == w.log
  {
    var offset := ReadU32(c.toc, w.pos);
    var size := ReadU32(c.toc, offset.next);
    ReadsStayInBounds(c.toc, w.pos);
    ReadsStayInBounds(c.toc, offset.next);
    FileAt(c, w.(pos := size.next), name, kind, offset.value, size.value)
  }

  /** The bytes of a file as stored: decrypted with its offset as key, or
      inflated. An encrypted file is stored as the encryption of its bytes
      under its offset: encrypting what is saved gives back what is stored. */
  function Payload(stored: seq<bv8>, kind: KType, offset: bv32, inflate: Inflater): seq<bv8>
  {
    if kind == FileEncrypted then CryptSpec(stored, offset) else Inflated(stored, inflate)
  }

  /** What is saved for an encrypted file has the stored length and
      encrypts back to the stored bytes; a compressed file is saved as its
      inflation, or as stored when it does not inflate. */
  lemma PayloadDecrypts(stored: seq<bv8>, kind: KType, offset: bv32, inflate: Inflater)
    ensures var r := Payload(stored, kind, offset, inflate);
            kind == FileEncrypted ==> |r| == |stored| && CryptSpec(r, offset) == stored
    ensures kind != FileEncrypted ==> Payload(stored, kind, offset, inflate) == Inflated(stored, inflate)
  {
    CryptInvolutive(stored, offset);
  }

  /** Copy the slice of the container at `offset` of length `size`, turn it
      into the file's bytes and save them under the file's target name inside
      the output directory. */
  function FileAt(c: Context, w: Walk, name: string, kind: KType, offset: bv32, size: bv32): (r: Walk)
    ensures r.pos == w.pos && r.dir == w.dir && |r.log| == |w.log| + 1 && r.log[..|w.log|] == w.log
    ensures offset as int + size as int > |c.content| <==> r.log[|w.log|] == OutOfRange(offset, size)
    ensures offset as int + size as int > |c.content| ==> r.pkg == w.pkg
  {
    var start, len := offset as int, size as int;
    if start + len > |c.content| then
      w.(log := w.log + [OutOfRange(offset, size)])
    else
      var target := FileTarget(c.base, w.pkg, w.dir, name);
      var data := Payload(c.content[start..start + len], kind, offset, c.inflate);
      w.(log := w.log + [Saved(Combine(c.out, target.0), data)], pkg := target.1)
  }

  // ---- Properties of the walk ----

  /** At the end of the TOC every read yields zero: the entry reads as an
      encrypted file with an empty name at offset 0 and size 0, so an empty
      file is saved under the manifest name of entry 0. */
  lemma EntryAtEnd(c: Context, w: Walk)
    requires w.pos == |c.toc|
    ensures Entry(c, w) ==
              w.(log := w.log + [Saved(Combine(c.out, Resolve(w.pkg, c.base, 0)), [])],
                 pkg := LookupEffect(w.pkg, c.base))
  {
    HeaderAtEnd(c.toc, w.pos);
    EntryOfFileKind(c, w, FileEncrypted);
    FileAtEnd(c, w);
  }

  /** Past the last byte the head reads as an empty name and type 0. */
  lemma HeaderAtEnd(toc: seq<bv8>, pos: nat)
    requires pos == |toc|
    ensures ReadHeader(toc, pos) == Header("", 0, pos)
  {
  }

  /** The encrypted file with an empty name read past the last byte. */
  lemma FileAtEnd(c: Context, w: Walk)
    requires w.pos == |c.toc|
    ensures FileEntry(c, w, "", FileEncrypted) ==
              w.(log := w.log + [Saved(Combine(c.out, Resolve(w.pkg, c.base, 0)), [])],
                 pkg := LookupEffect(w.pkg, c.base))
  {
    assert FileEntry(c, w, "", FileEncrypted) == FileAt(c, w, "", FileEncrypted, 0, 0);
    EmptyNameTarget(c.base, w.pkg, w.dir);
    EmptyFile(c, w);
  }

  /** An empty name has no extension and reads as id 0. */
  lemma EmptyNameTarget(base: string, pkg: State, dir: Path)
    ensures FileTarget(base, pkg, dir, "") == (Resolve(pkg, base, 0), LookupEffect(pkg, base))
  {
    assert !HasExtension("") && Stem("") == "";
    assert Atoi("") == 0;
  }

  /** A file at offset 0 of size 0 saves no bytes. */
  lemma EmptyFile(c: Context, w: Walk)
    ensures FileAt(c, w, "", FileEncrypted, 0, 0) ==
              w.(log := w.log + [Saved(Combine(c.out, FileTarget(c.base, w.pkg, w.dir, "").0), [])],
                 pkg := FileTarget(c.base, w.pkg, w.dir, "").1)
  {
    assert CryptSpec([], 0) == [];
  }

  /** A file named by the decimal digits of an id is saved under the name the
      manifest gives that id. */
  lemma DecimalNameResolvesById(base: string, pkg: State, dir: Path, id: uint32)
    ensures FileTarget(base, pkg, dir, Decimal(id)) == (Resolve(pkg, base, id), LookupEffect(pkg, base))
  {
    DigitsHaveNoExtension(Decimal(id));
    AtoiOfDecimal(id);
  }

  // ---- What a folder writes ----

  /** What a file entry says: its name, its kind, and the offset and size of
      its bytes in the container. */
  datatype FileHead = FileHead(name: string, kind: KType, offset: bv32, size: bv32)

  /** The position after a file entry at `pos`: its head, then two words. */
  function FileEnd(toc: seq<bv8>, pos: nat): (r: nat)
    requires pos <= |toc|
    ensures pos <= r <= |toc|
  {
    var h := ReadHeader(toc, pos);
    var offset := ReadU32(toc, h.next);
    ReadsStayInBounds(toc, h.next);
    ReadsStayInBounds(toc, offset.next);
    ReadU32(toc, offset.next).next
  }

  /** The entry at `pos` is the file `f`. */
  predicate FileEntryAt(toc: seq<bv8>, pos: nat, f: FileHead)
    requires pos <= |toc|
  {
    var h := ReadHeader(toc, pos);
    var offset := ReadU32(toc, h.next);
    f.kind != Directory && h.name == f.name && h.tag == Tag(f.kind) &&
    offset.value == f.offset && ReadU32(toc, offset.next).value == f.size
  }

  /** The entries from `pos` on are the files `fs`, one after the other. */
  predicate FilesAt(toc: seq<bv8>, pos: nat, fs: seq<FileHead>)
    requires pos <= |toc|
    decreases |fs|
  {
    |fs| == 0 || (FileEntryAt(toc, pos, fs[0]) && FilesAt(toc, FileEnd(toc, pos), fs[1..]))
  }

  /** A file named with an extension whose bytes lie within the container:
      it is saved under the current directory. */
  predicate PlainFile(c: Context, f: FileHead) {
    HasExtension(f.name) && f.offset as int + f.size as int <= |c.content|
  }

  /** The write such a file makes when the current directory is `dir`. */
  function SavedFile(c: Context, dir: Path, f: FileHead): Emit
    requires PlainFile(c, f)
  {
    var start := f.offset as int;
    Saved(Combine(c.out, Append(dir, f.name)),
          Payload(c.content[start..start + f.size as int], f.kind, f.offset, c.inflate))
  }

  function SavedFiles(c: Context, dir: Path, fs: seq<FileHead>): seq<Emit>
    requires forall i :: 0 <= i < |fs| ==> PlainFile(c, fs[i])
    decreases |fs|
  {
    if |fs| == 0 then [] else [SavedFile(c, dir, fs[0])] + SavedFiles(c, dir, fs[1..])
  }

  /** One such file entry makes its one write and moves past its words. */
  lemma EntryOfFile(c: Context, w: Walk, f: FileHead)
    requires w.pos <= |c.toc| && FileEntryAt(c.toc, w.pos, f) && PlainFile(c, f)
    ensures Entry(c, w) == w.(pos := FileEnd(c.toc, w.pos), log := w.log + [SavedFile(c, w.dir, f)])
  {
    var h := ReadHeader(c.toc, w.pos);
    assert KindOf(h.tag) == Some(f.kind);
    EntryOfFileKind(c, w, f.kind);
    assert Entry(c, w) == FileEntry(c, w.(pos := h.next), f.name, f.kind);
  }

  /** A run of entries is its first entry, then the rest. */
  lemma {:induction false} ChildrenFront(c: Context, w: Walk, n: nat)
    requires w.pos <= |c.toc|
    ensures Children(c, w, n + 1) == Children(c, Entry(c, w), n)
    decreases n
  {
    if n > 0 {
      ChildrenFront(c, w, n - 1);
    }
  }

  /** A run of such files makes exactly their writes, in order, and leaves
      the directory and the manager's tables as they were. */
  lemma {:induction false} ChildrenOfFiles(c: Context, w: Walk, fs: seq<FileHead>)
    requires w.pos <= |c.toc| && FilesAt(c.toc, w.pos, fs)
    requires forall i :: 0 <= i < |fs| ==> PlainFile(c, fs[i])
    ensures var r := Children(c, w, |fs|);
            r.dir == w.dir && r.pkg == w.pkg && r.log == w.log + SavedFiles(c, w.dir, fs)
    decreases |fs|
  {
    if |fs| > 0 {
      var n := |fs| - 1;
      FirstFile(c, w, fs);
      var next := Entry(c, w);
      ChildrenOfFiles(c, next, fs[1..]);
      ChildrenFront(c, w, n);
      WalkAfterFirst(w, next, Children(c, next, n), SavedFile(c, w.dir, fs[0]), SavedFiles(c, w.dir, fs[1..]), SavedFiles(c, w.dir, fs));
    }
  }

  /** The first of a run of such files, and what remains of the run. */
  lemma FirstFile(c: Context, w: Walk, fs: seq<FileHead>)
    requires w.pos <= |c.toc| && FilesAt(c.toc, w.pos, fs) && |fs| > 0
    requires forall i :: 0 <= i < |fs| ==> PlainFile(c, fs[i])
    ensures Entry(c, w) == w.(pos := FileEnd(c.toc, w.pos), log := w.log + [SavedFile(c, w.dir, fs[0])])
    ensures FilesAt(c.toc, FileEnd(c.toc, w.pos), fs[1..])
    ensures forall i :: 0 <= i < |fs[1..]| ==> PlainFile(c, fs[1..][i])
    ensures SavedFiles(c, w.dir, fs) == [SavedFile(c, w.dir, fs[0])] + SavedFiles(c, w.dir, fs[1..])
  {
    EntryOfFile(c, w, fs[0]);
    forall i | 0 <= i < |fs[1..]|
      ensures PlainFile(c, fs[1..][i])
    {
      assert fs[1..][i] == fs[i + 1];
    }
  }

  /** Gluing the first write to the writes of the rest. */
  lemma WalkAfterFirst(w: Walk, next: Walk, r: Walk, first: Emit, tail: seq<Emit>, all: seq<Emit>)
    requires next.dir == w.dir && next.pkg == w.pkg && next.log == w.log + [first]
    requires r.dir == next.dir && r.pkg == next.pkg && r.log == next.log + tail
    requires all == [first] + tail
    ensures r.dir == w.dir && r.pkg == w.pkg && r.log == w.log + all
  {
    LogsAssociate(w.log, [first], tail);
  }

  lemma LogsAssociate(a: seq<Emit>, b: seq<Emit>, d: seq<Emit>)
    ensures (a + b) + d == a + (b + d)
  {
  }

  /** A folder whose count is followed by that many such files saves them, in
      order, under the directory the folder's `+=` made, and leaves the
      parent of that directory. */
  lemma FolderOfFiles(c: Context, w: Walk, name: string, fs: seq<FileHead>)
    requires w.pos <= |c.toc| && ReadU16(c.toc, w.pos).value as nat == |fs|
    requires FilesAt(c.toc, ReadU16(c.toc, w.pos).next, fs)
    requires forall i :: 0 <= i < |fs| ==> PlainFile(c, fs[i])
    ensures var r := FolderEntry(c, w, name);
            r.log == w.log + SavedFiles(c, Concat(w.dir, name), fs) &&
            r.dir == Parent(Concat(w.dir, name)) && r.pkg == w.pkg
  {
    ReadsStayInBounds(c.toc, w.pos);
    ChildrenOfFiles(c, w.(pos := ReadU16(c.toc, w.pos).next, dir := Concat(w.dir, name)), fs);
  }

  /** An entry whose type word is none of 0, 1 and 4 reads its head and
      nothing more, and writes nothing. */
  lemma EntryOfUnknownTag(c: Context, w: Walk)
    requires w.pos <= |c.toc| && KindOf(ReadHeader(c.toc, w.pos).tag).None?
    ensures Entry(c, w) == w.(pos := ReadHeader(c.toc, w.pos).next)
  {
    assert Entry(c, w) == Dispatch(c, w, ReadHeader(c.toc, w.pos));
  }

  // ---- The whole container ----

  /** `_kxrFileName`: the stem of the file name, cut at its last `-` (the
      version suffix). */
  function BaseName(filename: string): (r: string)
    ensures var stem := Stem(FileName(filename));
            |r| <= |stem| && r == stem[..|r|]
    ensures var stem := Stem(FileName(filename));
            '-' in stem ==> |r| < |stem| && stem[|r|] == '-' && forall j :: |r| < j < |stem| ==> stem[j] != '-'
    ensures var stem := Stem(FileName(filename));
            '-' !in stem ==> r == stem
  {
    StemPrefixExtensionSuffix(FileName(filename));
    var stem := Stem(FileName(filename));
    match LastIndexOf(stem, '-')
    case None => stem
    case Some(i) => stem[..i]
  }

  /** Where the TOC lies, read after the identifier: a word that is read and
      discarded, then the TOC's offset and size; `next` is the read position afterwards. */
  datatype TocRef = TocRef(offset: bv32, size: bv32, next: nat)

  function ReadTocRef(bytes: seq<bv8>): (r: TocRef)
    requires 4 <= |bytes|
    ensures 4 <= r.next <= |bytes|
  {
    var unused := ReadU32(bytes, 4);
    var offset := ReadU32(bytes, unused.next);
    var size := ReadU32(bytes, offset.next);
    ReadsStayInBounds(bytes, 4);
    ReadsStayInBounds(bytes, unused.next);
    ReadsStayInBounds(bytes, offset.next);
    TocRef(offset.value, size.value, size.next)
  }

  /** The TOC decrypted with its offset as key, or None when it reaches past
      the end of the container. */
  function TocBytes(bytes: seq<bv8>, offset: bv32, size: bv32): (r: Option<seq<bv8>>)
    ensures r.None? <==> offset as int + size as int > |bytes|
    ensures r.Some? ==> |r.value| == size as int
  {
    var start, len := offset as int, size as int;
    if start + len > |bytes| then None else Some(CryptSpec(bytes[start..start + len], offset))
  }

  /** The four words of a container header read back as written. */
  lemma ReadHeaderWords(unused: bv32, offset: bv32, size: bv32, body: seq<bv8>)
    ensures var bytes := EncodeBE32(KXRF_IDENTIFIER) + EncodeBE32(unused) + EncodeBE32(offset) + EncodeBE32(size) + body;
            ReadU32(bytes, 0) == Parsed(KXRF_IDENTIFIER, 4) && ReadU32(bytes, 4) == Parsed(unused, 8) &&
            ReadU32(bytes, 8) == Parsed(offset, 12) && ReadU32(bytes, 12) == Parsed(size, 16)
  {
    var e0, e1, e2, e3 := EncodeBE32(KXRF_IDENTIFIER), EncodeBE32(unused), EncodeBE32(offset), EncodeBE32(size);
    var bytes := e0 + e1 + e2 + e3 + body;
    assert bytes == [] + e0 + (e1 + e2 + e3 + body);
    ReadU32OfEncoded([], KXRF_IDENTIFIER, e1 + e2 + e3 + body);
    assert bytes == e0 + e1 + (e2 + e3 + body);
    ReadU32OfEncoded(e0, unused, e2 + e3 + body);
    assert bytes == (e0 + e1) + e2 + (e3 + body);
    ReadU32OfEncoded(e0 + e1, offset, e3 + body);
    assert bytes == (e0 + e1 + e2) + e3 + body;
    ReadU32OfEncoded(e0 + e1 + e2, size, body);
  }

  /** A container written as the identifier, an unused word, the TOC's offset and
      size, then a body holding the TOC encrypted under its offset, reads
      back as that TOC, with the reading position after the 16-byte header. */
  lemma ReadContainerOfEncoded(unused: bv32, offset: bv32, size: bv32, body: seq<bv8>, toc: seq<bv8>)
    requires |toc| == size as int
    requires var bytes := EncodeBE32(KXRF_IDENTIFIER) + EncodeBE32(unused) + EncodeBE32(offset) + EncodeBE32(size) + body;
             offset as int + size as int <= |bytes| &&
             bytes[offset as int..offset as int + size as int] == CryptSpec(toc, offset)
    ensures var bytes := EncodeBE32(KXRF_IDENTIFIER) + EncodeBE32(unused) + EncodeBE32(offset) + EncodeBE32(size) + body;
            ReadU32(bytes, 0).value == KXRF_IDENTIFIER &&
            ReadTocRef(bytes) == TocRef(offset, size, 16) && TocBytes(bytes, offset, size) == Some(toc)
  {
    ReadHeaderWords(unused, offset, size, body);
    CryptInvolutive(toc, offset);
  }

  /** The extractor's state outside its buffers: `_kxrFileName`,
      `_currentDirectory`, the writes requested and the manager's tables. */
  datatype Session = Session(base: string, dir: Path, log: seq<Emit>, pkg: State)

  /** `ExtractKXRFile`: a file whose name does not end in `.kxr` is skipped;
      otherwise the base name is set and the container, if the file opens, is
      extracted. */
  function Extract(filename: string, file: Option<seq<bv8>>, s: Session, out: Path, inflate: Inflater): (r: Session)
    ensures Extension(FileName(filename)) != ".kxr" ==> r == s
    ensures Extension(FileName(filename)) == ".kxr" ==> r.base == BaseName(filename)
    ensures Extension(FileName(filename)) == ".kxr" && file.None? ==> r == s.(base := BaseName(filename))
  {
    if Extension(FileName(filename)) != ".kxr" then s
    else Container(file, s.(base := BaseName(filename)), out, inflate)
  }

  /** The container part of `ExtractKXRFile`: nothing happens to a container
      whose identifier is wrong; otherwise its TOC is located and walked.
      Writes are only ever appended to the log. */
  function Container(file: Option<seq<bv8>>, s: Session, out: Path, inflate: Inflater): (r: Session)
    ensures r.base == s.base && |s.log| <= |r.log| && r.log[..|s.log|] == s.log
    ensures file.None? || ReadU32(file.value, 0).value != KXRF_IDENTIFIER ==> r == s
  {
    match file
    case None => s
    case Some(bytes) =>
      if ReadU32(bytes, 0).value != KXRF_IDENTIFIER then s
      else
        var ref := ReadTocRef(bytes);
        Table(bytes, ref.offset, ref.size, s, out, inflate)
  }

  /** The TOC at `offset` of length `size` walked from its first entry (only
      that entry; a directory entry carries the rest). */
  function Table(bytes: seq<bv8>, offset: bv32, size: bv32, s: Session, out: Path, inflate: Inflater): (r: Session)
    ensures r.base == s.base && |s.log| <= |r.log| && r.log[..|s.log|] == s.log
    ensures TocBytes(bytes, offset, size).None? ==> r == s.(log := s.log + [OutOfRange(offset, size)])
  {
    match TocBytes(bytes, offset, size)
    case None => s.(log := s.log + [OutOfRange(offset, size)])
    case Some(toc) =>
      var w := Entry(Context(toc, bytes, s.base, out, inflate), Walk(0, s.dir, s.log, s.pkg));
      Session(s.base, w.dir, w.log, w.pkg)
  }

  /** A container whose TOC is empty still saves one file: the empty file
      named after manifest entry 0. */
  lemma EmptyTocSavesEntryZero(bytes: seq<bv8>, offset: bv32, s: Session, out: Path, inflate: Inflater)
    requires offset as int <= |bytes|
    ensures Table(bytes, offset, 0, s, out, inflate).log ==
              s.log + [Saved(Combine(out, Resolve(s.pkg, s.base, 0)), [])]
  {
    assert TocBytes(bytes, offset, 0) == Some([]);
    EntryAtEnd(Context([], bytes, s.base, out, inflate), Walk(0, s.dir, s.log, s.pkg));
  }

  /** `operating_directory` made absolute: kept when it is rooted, otherwise
      placed under the current working directory. */
  function Absolute(p: Path, cwd: Path): (r: Path)
    ensures p.rooted ==> r == p
    ensures !p.rooted ==> r.rooted == cwd.rooted && r.parts == cwd.parts + p.parts
  {
    if p.rooted then p else Combine(cwd, p)
  }

  // ---- The extractor ----

  class KXRUnpacker {
    var package: PackageManager
    var outputDirectory: Path
    var currentDirectory: Path
    var content: KBuffer
    var table: KBuffer
    var kxrFileName: string
    /** The writes `SaveToDisk` has requested. */
    ghost var log: seq<Emit>

    function Ctx(inflate: Inflater): Context
      reads this`table, this`content, this`kxrFileName, this`outputDirectory
      reads table`raw, table.raw, content`raw, content.raw
    {
      Context(table.raw[..], content.raw[..], kxrFileName, outputDirectory, inflate)
    }

    ghost function WalkState(): Walk
      reads this, table, package
    {
      Walk(table.pos, currentDirectory, log, package.Snapshot())
    }

    ghost function SessionOf(): Session
      reads this, package
    {
      Session(kxrFileName, currentDirectory, log, package.Snapshot())
    }

    /** `KXRUnpacker()`: empty directories, nothing loaded. */
    constructor ()
      ensures outputDirectory == Empty && currentDirectory == Empty && kxrFileName == "" && log == []
      ensures fresh(package) && package.Snapshot() == Cleared
      ensures fresh(content) && fresh(table) && content.raw.Length == 0 && table.raw.Length == 0
      ensures content.pos == 0 && table.pos == 0
    {
      package := new PackageManager();
      outputDirectory := Empty;
      currentDirectory := Empty;
      content := new KBuffer();
      table := new KBuffer();
      kxrFileName := "";
      log := [];
    }

    /** `KXRUnpacker(operating_directory)`, given the current working
        directory. */
    constructor WithDirectory(operatingDirectory: Path, cwd: Path)
      ensures outputDirectory == Absolute(operatingDirectory, cwd)
      ensures currentDirectory == Empty && kxrFileName == "" && log == []
      ensures fresh(package) && package.Snapshot() == Cleared
      ensures fresh(content) && fresh(table) && content.raw.Length == 0 && table.raw.Length == 0
      ensures content.pos == 0 && table.pos == 0
    {
      package := new PackageManager();
      if operatingDirectory.rooted {
        outputDirectory := operatingDirectory;
      } else {
        outputDirectory := Combine(cwd, operatingDirectory);
      }
      currentDirectory := Empty;
      content := new KBuffer();
      table := new KBuffer();
      kxrFileName := "";
      log := [];
    }

    /** `LoadPackageJson(filename)`. */
    method LoadPackageJson(src: Source) returns (ok: bool)
      modifies package
      ensures Outcome(ok, package.Snapshot()) == Load(src, old(package.Snapshot()))
    {
      ok := package.ReadPKGJson(src);
    }

    /** `SetOutputDirectory(path)`, given the current working directory and
        whether `create_directories` created anything. */
    method SetOutputDirectory(path: Path, cwd: Path, created: bool) returns (ok: bool)
      modifies this`outputDirectory
      ensures outputDirectory == Absolute(path, cwd) && ok == created
    {
      if path.rooted {
        outputDirectory := path;
      } else {
        outputDirectory := Combine(cwd, path);
      }
      return created;
    }

    /** `SaveToDisk(file_path, buffer)`: requests the write of the buffer's
        bytes at the path inside the output directory. */
    method SaveToDisk(filePath: Path, buffer: KBuffer)
      modifies this`log
      ensures log == old(log) + [Saved(Combine(outputDirectory, filePath), buffer.raw[..])]
    {
      log := log + [Saved(Combine(outputDirectory, filePath), buffer.raw[..])];
    }

    /** `ExtractKXRFile(filename)`, given the file's bytes (None when it does
        not open). */
    method ExtractKXRFile(filename: string, file: Option<seq<bv8>>, inflate: Inflater)
      modifies this, package
      ensures SessionOf() == Extract(filename, file, old(SessionOf()), outputDirectory, inflate)
      ensures outputDirectory == old(outputDirectory) && package == old(package)
      ensures Extension(FileName(filename)) != ".kxr" || file.None? ==> content == old(content) && table == old(table)
      ensures Extension(FileName(filename)) == ".kxr" && file.Some? ==> fresh(content) && content.raw[..] == file.value
    {
      var name := FileName(filename);
      if Extension(name) != ".kxr" {
        return;
      }
      kxrFileName := Stem(name);
      var versionPos := LastIndexOf(kxrFileName, '-');
      if versionPos.Some? {
        kxrFileName := kxrFileName[..versionPos.value];
      }
      assert kxrFileName == BaseName(filename);
      if file.None? {
        return;
      }
      ExtractContent(file.value, inflate);
    }

    /** The part of `ExtractKXRFile` after the file is read into the content
        buffer: check the identifier and locate the TOC. */
    method ExtractContent(bytes: seq<bv8>, inflate: Inflater)
      modifies this`content, this`table, this`log, this`currentDirectory, package
      ensures SessionOf() == Container(Some(bytes), old(SessionOf()), outputDirectory, inflate)
      ensures fresh(content) && content.raw[..] == bytes
      ensures ReadU32(bytes, 0).value != KXRF_IDENTIFIER ==> content.pos == ReadU32(bytes, 0).next && table == old(table)
      ensures ReadU32(bytes, 0).value == KXRF_IDENTIFIER ==> content.pos == ReadTocRef(bytes).next
    {
      var fileBuffer;
      fileBuffer, content := LoadContent(bytes);
      var identity := content.U32();
      if identity != KXRF_IDENTIFIER {
        return;
      }
      var offset, size := ReadTocWords(content);
      ExtractTable(fileBuffer, offset, size, inflate);
    }

    /** The end of `ExtractKXRFile`: copy the TOC out of the file's bytes,
        decrypt it with its offset as key and walk it. */
    method ExtractTable(src: array<bv8>, offset: bv32, size: bv32, inflate: Inflater)
      requires content.raw[..] == src[..]
      modifies this`table, this`log, this`currentDirectory, package
      ensures SessionOf() == Table(src[..], offset, size, old(SessionOf()), outputDirectory, inflate)
      ensures TocBytes(src[..], offset, size).None? ==> table == old(table)
      ensures TocBytes(src[..], offset, size).Some? ==>
                fresh(table) && table.raw[..] == TocBytes(src[..], offset, size).value
    {
      if offset as int + size as int > src.Length {
        log := log + [OutOfRange(offset, size)];
        return;
      }
      ghost var toc := TocBytes(src[..], offset, size).value;
      table := DecryptToc(src, offset, size);
      ghost var raw := table.raw;
      assert raw[..] == toc;
      ghost var c, start := Ctx(inflate), WalkState();
      assert c == Context(toc, src[..], kxrFileName, outputDirectory, inflate);
      assert start == Walk(0, old(currentDirectory), old(log), old(package.Snapshot()));
      RecursiveKXRExtract(inflate);
      assert table.raw == raw && raw[..] == toc;
    }

    /** `RecursiveKXRExtract()`. */
    method RecursiveKXRExtract(inflate: Inflater)
      requires table.pos <= table.raw.Length
      modifies this`currentDirectory, this`log, table`pos, package
      ensures WalkState() == Entry(Ctx(inflate), old(WalkState()))
      decreases table.raw.Length - table.pos, 0
    {
      ghost var c, start := Ctx(inflate), WalkState();
      var entryName, entryType := EntryHead();
      assert Ctx(inflate) == c;
      match KindOf(entryType)
      case Some(Directory) =>
        EntryOfFolder(c, start);
        UnpackFolder(entryName, inflate);
      case Some(FileEncrypted) =>
        EntryOfFileKind(c, start, FileEncrypted);
        UnpackEncryptedFile(entryName, inflate);
      case Some(FileCompressed) =>
        EntryOfFileKind(c, start, FileCompressed);
        UnpackCompressedFile(entryName, inflate);
      case None =>
        assert Entry(c, start) == Dispatch(c, start, ReadHeader(c.toc, start.pos));
    }

    /** The head of an entry: its name, two words nobody uses, and its type. */
    method EntryHead() returns (entryName: string, entryType: bv32)
      requires table.pos <= table.raw.Length
      modifies table`pos
      ensures var h := ReadHeader(table.raw[..], old(table.pos));
              h == Header(entryName, entryType, table.pos)
    {
      var name := table.String();
      var unknownA := table.U8();
      var unknownB := table.U32();
      var tag := table.U32();
      entryName, entryType := name, tag;
    }

    /** `UnpackFolder(folder_name)`. */
    method UnpackFolder(folderName: string, inflate: Inflater)
      requires table.pos <= table.raw.Length
      modifies this`currentDirectory, this`log, table`pos, package
      ensures Ctx(inflate) == old(Ctx(inflate))
      ensures WalkState() == FolderEntry(Ctx(inflate), old(WalkState()), folderName)
      decreases table.raw.Length - table.pos, 3
    {
      ghost var c, outer := Ctx(inflate), WalkState();
      currentDirectory := Concat(currentDirectory, folderName);
      var count := table.U16();
      ghost var start := WalkState();
      assert ReadU16(c.toc, outer.pos) == Parsed(count, start.pos);
      assert start == outer.(pos := start.pos, dir := Concat(outer.dir, folderName));
      WalkChildren(count as nat, inflate);
      assert Ctx(inflate) == c;
      ghost var inner := WalkState();
      assert inner == Children(c, start, count as nat);
      currentDirectory := Parent(currentDirectory);
      assert WalkState() == inner.(dir := Parent(inner.dir));
    }

    /** The loop of `UnpackFolder`: `count` entries, one after the other. */
    method WalkChildren(count: nat, inflate: Inflater)
      requires table.pos <= table.raw.Length
      modifies this`currentDirectory, this`log, table`pos, package
      ensures WalkState() == Children(Ctx(inflate), old(WalkState()), count)
      decreases table.raw.Length - table.pos, 2
    {
      ghost var c, start := Ctx(inflate), WalkState();
      for i := 0 to count
        invariant table.raw == old(table.raw) && old(table.pos) <= table.pos <= table.raw.Length
        invariant Ctx(inflate) == c
        invariant WalkState() == Children(c, start, i)
      {
        WalkChild(c, start, i, inflate);
      }
    }

    /** One turn of that loop: the entry after the first `i`. */
    method WalkChild(ghost c: Context, ghost start: Walk, ghost i: nat, inflate: Inflater)
      requires start.pos <= |c.toc| && table.pos <= table.raw.Length
      requires Ctx(inflate) == c && WalkState() == Children(c, start, i)
      modifies this`currentDirectory, this`log, table`pos, package
      ensures old(table.pos) <= table.pos <= table.raw.Length
      ensures Ctx(inflate) == c && WalkState() == Children(c, start, i + 1)
      decreases table.raw.Length - table.pos, 1
    {
      RecursiveKXRExtract(inflate);
    }

    /** The name lookup shared by the two file kinds. */
    method TargetName(fileName: string) returns (lookupName: Path)
      modifies package
      ensures (lookupName, package.Snapshot()) == FileTarget(kxrFileName, old(package.Snapshot()), currentDirectory, fileName)
    {
      if !HasExtension(fileName) {
        lookupName := package.FindFileName(kxrFileName, ToUint32(Atoi(Stem(fileName))));
      } else {
        lookupName := Append(currentDirectory, fileName);
      }
    }

    /** `UnpackEncryptedFile(file_name)`. */
    method UnpackEncryptedFile(fileName: string, inflate: Inflater)
      requires table.pos <= table.raw.Length
      modifies this`log, table`pos, package
      ensures Ctx(inflate) == old(Ctx(inflate))
      ensures WalkState() == FileEntry(Ctx(inflate), old(WalkState()), fileName, FileEncrypted)
    {
      var offset := table.U32();
      var size := table.U32();
      SaveFile(fileName, offset, size, FileEncrypted, inflate);
    }

    /** `UnpackCompressedFile(file_name)`. */
    method UnpackCompressedFile(fileName: string, inflate: Inflater)
      requires table.pos <= table.raw.Length
      modifies this`log, table`pos, package
      ensures Ctx(inflate) == old(Ctx(inflate))
      ensures WalkState() == FileEntry(Ctx(inflate), old(WalkState()), fileName, FileCompressed)
    {
      var offset := table.U32();
      var size := table.U32();
      SaveFile(fileName, offset, size, FileCompressed, inflate);
    }

    /** The part the two unpack routines share once the offset and size are
        read: copy and transform the bytes, find the name, save. */
    method SaveFile(fileName: string, offset: bv32, size: bv32, kind: KType, inflate: Inflater)
      modifies this`log, package
      ensures WalkState() == FileAt(Ctx(inflate), old(WalkState()), fileName, kind, offset, size)
    {
      if offset as int + size as int > content.raw.Length {
        log := log + [OutOfRange(offset, size)];
        return;
      }
      var fileBuffer := SliceFile(content.raw, offset, size, kind, inflate);
      var lookupName := TargetName(fileName);
      SaveToDisk(lookupName, fileBuffer);
    }
  }

  /** The file read into memory, and the content buffer over a copy of it,
      read from its start. */
  method LoadContent(bytes: seq<bv8>) returns (file: array<bv8>, content: KBuffer)
    ensures fresh(file) && fresh(content) && content.pos == 0
    ensures file[..] == bytes && content.raw[..] == bytes
  {
    file := new bv8[|bytes|](i requires 0 <= i < |bytes| => bytes[i]);
    content := new KBuffer.Slice(file, 0, |bytes|);
  }

  /** The header words after the identifier: one that is discarded, then the
      offset and size of the TOC. */
  method ReadTocWords(content: KBuffer) returns (offset: bv32, size: bv32)
    requires content.pos == 4 && 4 <= content.raw.Length
    modifies content`pos
    ensures ReadTocRef(content.raw[..]) == TocRef(offset, size, content.pos)
  {
    var unused := content.U32();
    offset := content.U32();
    size := content.U32();
  }

  /** The file buffer of the two unpack routines: a copy of the container's
      bytes at `offset`, decrypted in place or inflated. */
  method SliceFile(src: array<bv8>, offset: bv32, size: bv32, kind: KType, inflate: Inflater) returns (buffer: KBuffer)
    requires offset as int + size as int <= src.Length
    ensures fresh(buffer)
    ensures buffer.raw[..] == Payload(src[offset as int..offset as int + size as int], kind, offset, inflate)
  {
    buffer := new KBuffer.Slice(src, offset as int, size as int);
    if kind == FileEncrypted {
      buffer.Crypt(offset);
    } else {
      buffer.Decompress(inflate);
    }
  }

  /** The TOC copy of `ExtractKXRFile`: the `size` bytes at `offset`,
      decrypted with `offset` as key, in a fresh buffer read from its start. */
  method DecryptToc(src: array<bv8>, offset: bv32, size: bv32) returns (toc: KBuffer)
    requires offset as int + size as int <= src.Length
    ensures fresh(toc) && fresh(toc.raw) && toc.pos == 0
    ensures Some(toc.raw[..]) == TocBytes(src[..], offset, size)
  {
    toc := new KBuffer.Slice(src, offset as int, size as int);
    toc.Crypt(offset);
  }
}
