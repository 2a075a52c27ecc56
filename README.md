# KXRTools extraction core in Dafny

KXRTools unpacks `.kxr` game containers. A container starts with the
big-endian word `kxrf`, a word that is read and discarded, and the offset and size of a table of
contents (TOC). The TOC is stored encrypted with a keyed XOR stream (`crypt`)
whose seed is the TOC's own offset. Once decrypted it is a tree of entries:
folders (a name and a `u16` child count), encrypted files and zlib-compressed
files (a name, then the offset and size of the file's bytes in the whole
container). A file whose name has no extension is a numeric entry id; its real
path comes from the package manifest `pkg.json`, which lists the containers
(`kxrlist`) and a folder/file tree whose files name their container and id.

The model has six modules:

- `Wrappers`: the `Option` type, for `npos`, missing JSON keys and failed inflation.
- `Strings`: `find_last_of`, `uint32_t` conversion, `atoi` and `to_string`.
- `Paths`: `std::filesystem::path` as a rooted flag and a list of
  components. `/` adds a component, `+=` extends the last one, and
  `parent_path` drops one.
- `ByteCursor` (KBuffer.hpp): the buffer is a class over a byte array with a
  read position.
  - The reads are methods, each proved against a pure reader on
    `(bytes, position)`.
  - `crypt` is an in-place loop proved equal to a closed form
    (`CryptSpec`), which is its own inverse.
  - zlib's inflate is a partial function passed in as a parameter
    (`Inflater`).
- `ManifestResolver` (PackageManager.h/.cpp): the manager is a class whose
  state is the four fields of the source (`Snapshot()`).
  - Loading and lookup are proved against functions on that state:
    `Load`, `Begin`, `ParseList`, `Resolve` and `LookupEffect`.
  - Lemmas relate those functions to a flattened view of the manifest
    (`Flatten`, `AppendAll`).
- `ContainerExtractor` (KXRUnpacker.h/.cpp): the unpacker is a class with
  the fields of the source.
  - The mutually recursive walk over the TOC cursor is proved against
    mutually recursive functions over a `Walk` state (TOC position, current
    directory, writes requested, manifest tables).
  - `SaveToDisk` appends the requested write to a ghost log instead of
    writing a file.

## Model

| member | source | states |
|---|---|---|
| Strings.LastIndexOf | KXRUnpacker.cpp:18-22 | the result is the index of the last occurrence of the character, or None exactly when it does not occur |
| Strings.ToUint32 | PackageManager.cpp:43-46 | the conversion to `uint32_t` keeps values in range and is congruent to its input modulo 2^32 |
| Strings.SkipSpace | KXRUnpacker.cpp:107 | `atoi` skips exactly the leading white space: every skipped character is a space, the rest is a suffix of the input, and it does not start with a space |
| Strings.LeadingDigits | KXRUnpacker.cpp:107 | `atoi` reads the longest prefix made only of digits: the next character, if any, is not a digit |
| Strings.Decimal | PackageManager.cpp:104 | `to_string` of an id is a non-empty string of decimal digits with no leading zero; it starts with `0` exactly when the id is 0 |
| Strings.DigitsValueOfDecimal | PackageManager.cpp:104 | the value of the digits `to_string` writes is the number written |
| Strings.LeadingDigitsOfDigits | KXRUnpacker.cpp:107 | a string made only of digits is read whole by `atoi` |
| Strings.AtoiOfDigits | KXRUnpacker.cpp:107 | `atoi` of a string made only of digits is the value those digits spell |
| Strings.AtoiOfDecimal | KXRUnpacker.cpp:107 | `atoi(to_string(n)) == n` |
| Paths.Append | PackageManager.cpp:74 | `p / name` keeps `p`'s components and rootedness and adds `name` as one more component |
| Paths.Concat | KXRUnpacker.cpp:84 | `p += s` extends the last component with `s`, or creates one component when `p` is empty |
| Paths.Parent | KXRUnpacker.cpp:92 | `parent_path` drops exactly the last component, and leaves the empty path unchanged |
| Paths.Combine | KXRUnpacker.cpp:162 | `p / q` is `q` when `q` is rooted, otherwise `p`'s components followed by `q`'s |
| Paths.ParentOfAppend | PackageManager.cpp:64-66 | append followed by `parent_path` gives back the original path (the manifest walk's push and pop) |
| Paths.ParentOfConcat | KXRUnpacker.cpp:84-92 | `+=` followed by `parent_path` gives the parent of the original path, not the path itself, unless the path was empty |
| Paths.FileName | KXRUnpacker.cpp:9 | the file name is the suffix of the string after its last `/`: it holds no `/`, and when it is shorter than the string the character before it is `/` |
| Paths.ExtensionStart | KXRUnpacker.cpp:9 | the extension starts at a `.` of the name that is not its first character and has no `.` after it |
| Paths.NoExtensionStart | KXRUnpacker.cpp:105 | a name has no extension exactly when it is `.` or `..` or has no `.` after its first character |
| Paths.HasExtensionIff | KXRUnpacker.cpp:105 | `has_extension()` holds exactly when the name is neither `.` nor `..` and has a `.` after its first character |
| Paths.StemPrefixExtensionSuffix | KXRUnpacker.cpp:107 | `stem()` is a prefix of the name and `extension()` a suffix; a stem shorter than the name is non-empty and followed by the dot |
| Paths.StemAndExtension | KXRUnpacker.cpp:105-107 | stem and extension concatenate back to the name; an extension starts with its only `.`, and a name without one is its own stem |
| Paths.DigitsHaveNoExtension | KXRUnpacker.cpp:105-107 | a name made of digits has no extension and is its own stem |
| ByteCursor.BE16RoundTrip | KBuffer.hpp:168-172 | big-endian decoding and encoding of 16-bit values are inverse in both directions |
| ByteCursor.BE32RoundTrip | KBuffer.hpp:173-180 | big-endian decoding and encoding of 32-bit values are inverse in both directions |
| ByteCursor.LoadLE16 | KBuffer.hpp:158 | loading two bytes on a little-endian host puts the first in the low byte of the word and the second in the high byte |
| ByteCursor.LoadLE32 | KBuffer.hpp:158 | loading four bytes on a little-endian host puts byte `k` in memory at byte `k` of the word |
| ByteCursor.Swap16 | KBuffer.hpp:170-171 | the swap of `u16` exchanges the two bytes of the word |
| ByteCursor.Swap32 | KBuffer.hpp:175-179 | the swap of `u32` reverses the four bytes of the word |
| ByteCursor.SwapOfLoad | KBuffer.hpp:168-180 | swapping the bytes of a word loaded on a little-endian host gives the big-endian value of the bytes in memory |
| ByteCursor.XorWordBytes | KBuffer.hpp:67 | XOR-ing a host word with the key XORs byte `k` in memory with byte `k` of the key |
| ByteCursor.NextKeyBits | KBuffer.hpp:62 | a key step shifts the key left by one, and the new low bit is set exactly when bits 13 and 16 of the old key agree |
| ByteCursor.Zeros | KBuffer.hpp:155 | the value of a failed read has the read's width and is all zero |
| ByteCursor.Chars | KBuffer.hpp:195 | text built from bytes has one character per byte |
| ByteCursor.CharsAt | KBuffer.hpp:192-195 | the text of a byte range has the range's length and character `i` is byte `start + i` |
| ByteCursor.Bytes | KBuffer.hpp:195 | the bytes of a text have one byte per character |
| ByteCursor.BytesOfChars | KBuffer.hpp:195 | every character built from a byte is below 256 and converts back to that byte |
| ByteCursor.ReadBytes | KBuffer.hpp:149-162 | `read<T>` returns the next `width` bytes and advances by `width`, or returns zero and stays put when they would cross the end |
| ByteCursor.ReadU8 | KBuffer.hpp:164-167 | `u8` is the next byte and advances by one, or 0 with no move at the end |
| ByteCursor.ReadU16 | KBuffer.hpp:168-172 | `u16` is the value whose big-endian encoding is the next two bytes and advances by two, or 0 with no move when fewer remain |
| ByteCursor.ReadU32 | KBuffer.hpp:173-180 | `u32` is the value whose big-endian encoding is the next four bytes and advances by four, or 0 with no move when fewer remain |
| ByteCursor.ReadString | KBuffer.hpp:182-196 | `string` reads a `u16` length and returns that many bytes as text, advancing by 2 + length; when they do not fit it returns "" after consuming only the prefix |
| ByteCursor.ReadsStayInBounds | KBuffer.hpp:149-196 | every read moves the position forward and never past the end |
| ByteCursor.ReadU32OfEncoded | KBuffer.hpp:173-180 | a `u32` reads back the value whose encoding sits at the position, whatever surrounds it |
| ByteCursor.ReadU16OfEncoded | KBuffer.hpp:168-172 | a `u16` reads back the value whose encoding sits at the position, whatever surrounds it |
| ByteCursor.ReadStringOfEncoded | KBuffer.hpp:182-196 | a length prefix followed by that many bytes reads back as those bytes, positioned after them |
| ByteCursor.KeyAtShift | KBuffer.hpp:62 | stepping the seed and then `n` more times is the key of block `n + 1` |
| ByteCursor.KeyByteAt | KBuffer.hpp:56-76 | byte `j` of the key stream is byte `j mod 4` of the key of block `j div 4` |
| ByteCursor.BlockKeys | KBuffer.hpp:60-67 | the four bytes of an aligned block use the four bytes of the block's key |
| ByteCursor.CryptSpec | KBuffer.hpp:56-76 | the closed form of `crypt` keeps the length |
| ByteCursor.CryptInvolutive | KBuffer.hpp:56-76 | applying `crypt` twice with the same seed restores the bytes, for every seed |
| ByteCursor.CryptedAll | KBuffer.hpp:58-75 | once the loop has covered every byte, the buffer is the closed form of the original |
| ByteCursor.CryptedBlock | KBuffer.hpp:65-68 | XOR-ing an aligned word with its block's key extends the crypted prefix by four bytes |
| ByteCursor.XorWord | KBuffer.hpp:67 | the word XOR of four bytes XORs each byte with the matching byte of the key |
| ByteCursor.KBuffer.constructor | KBuffer.hpp:19-23 | a new buffer is empty and at position 0 |
| ByteCursor.KBuffer.Slice | KBuffer.hpp:31-36 | the slice constructor holds exactly `src[pos .. pos + size)` at position 0, given that the range lies in `src` |
| ByteCursor.KBuffer.Read | KBuffer.hpp:149-162 | `read<T>` returns and moves as the pure reader says |
| ByteCursor.KBuffer.U8 | KBuffer.hpp:164-167 | `u8` returns and moves as `ReadU8` says |
| ByteCursor.KBuffer.U16 | KBuffer.hpp:168-172 | the load-and-swap of `u16` returns and moves as the big-endian `ReadU16` says |
| ByteCursor.KBuffer.U32 | KBuffer.hpp:173-180 | the load-and-swap of `u32` returns and moves as the big-endian `ReadU32` says |
| ByteCursor.KBuffer.String | KBuffer.hpp:182-196 | `string` returns and moves as `ReadString` says |
| ByteCursor.KBuffer.Crypt | KBuffer.hpp:56-76 | the in-place loop with its word and byte branches leaves the closed form `CryptSpec` of the original bytes |
| ByteCursor.KBuffer.CryptWord | KBuffer.hpp:65-69 | the word branch extends the crypted prefix by four bytes |
| ByteCursor.KBuffer.CryptByte | KBuffer.hpp:70-74 | the byte branch extends the crypted prefix by one byte |
| ByteCursor.Inflated | KBuffer.hpp:131-138 | the contents become the inflated stream when inflation ends the stream, and stay as they were otherwise |
| ByteCursor.KBuffer.Decompress | KBuffer.hpp:100-139 | the contents become the inflated stream when inflation succeeds; otherwise the buffer is left as it was |
| ByteCursor.KBuffer.Resize | KBuffer.hpp:141-147 | when `pos + w` exceeds the size the buffer grows to exactly `pos + w + 256`, keeping its bytes and zero-filling; otherwise it is unchanged; afterwards `size >= pos + w` |
| ManifestResolver.ListOf | PackageManager.cpp:86 | `_kxrFileList[k]` reads the list of `k`, or an empty list when `k` is absent |
| ManifestResolver.IndexOf | PackageManager.cpp:84 | `_kxrList[name]` reads the index of `name`, or 0 when it is absent |
| ManifestResolver.IndexNames | PackageManager.cpp:43-47 | the `kxrlist` loop completes exactly when every element has a `kxrname` |
| ManifestResolver.ParseList | PackageManager.cpp:54-77 | parsing entries never changes readiness or the name table |
| ManifestResolver.ParseNode | PackageManager.cpp:57-75 | parsing one entry never changes readiness or the name table |
| ManifestResolver.Begin | PackageManager.cpp:35-52 | a completed build marks the package ready; a failed one leaves readiness as it was; a missing `kxrlist` changes nothing |
| ManifestResolver.Load | PackageManager.cpp:4-33 | a file that does not open or parse changes nothing and fails; a document is built from cleared tables |
| ManifestResolver.IndexNamesStops | PackageManager.cpp:44-47 | after the first element without a name, later elements change nothing |
| ManifestResolver.IndexNamesNext | PackageManager.cpp:46 | one more element maps its name to its position as a `uint32_t`, or fails keeping the table |
| ManifestResolver.ParseListStops | PackageManager.cpp:57-59 | after the first entry that throws, later entries change nothing |
| ManifestResolver.Select | PackageManager.cpp:74 | the records selected for a container all belong to it |
| ManifestResolver.AppendAllConcat | PackageManager.cpp:74 | appending two runs of records is appending one then the other |
| ManifestResolver.ListOfAppendAll | PackageManager.cpp:74 | after appending records, a container's list is its old list followed by its new records in order |
| ManifestResolver.ParseListFlattens | PackageManager.cpp:54-77 | parsing completes exactly when every node has its keys, and then appends the depth-first records, each under its folder path, and restores the current path |
| ManifestResolver.ParseNodeFlattens | PackageManager.cpp:57-75 | the same for one node: a file adds one record `{kxr, eid, path / name}`, a folder its subtree's records |
| ManifestResolver.IndexNamesKeys | PackageManager.cpp:43-47 | indexing adds exactly the names of the list |
| ManifestResolver.IndexNamesKeeps | PackageManager.cpp:43-47 | names the list does not mention keep their index |
| ManifestResolver.IndexNamesLast | PackageManager.cpp:43-47 | a repeated name maps to the position of its last occurrence |
| ManifestResolver.LoadDocument | PackageManager.cpp:19-51 | a document loads exactly when it has a `kxrlist`, every container a name and every node its keys; it then holds the fresh index table and the flattened records at the root path; a failed load is never ready |
| ManifestResolver.FirstMatch | PackageManager.cpp:95-101 | the scan finds the first record with the id, or None exactly when no record has it |
| ManifestResolver.Fallback | PackageManager.cpp:104 | the fallback name is `<kxrName>/<eid>.bin` as two components, or the rooted `/<eid>.bin` when the container name is empty |
| ManifestResolver.Resolve | PackageManager.cpp:79-105 | a lookup in a package that is not ready returns the fallback name |
| ManifestResolver.LookupEffect | PackageManager.cpp:84-95 | when ready, a lookup inserts the container name and its list if absent, keeping the index it reads; when not ready nothing changes; readiness and the path are kept, every existing name and list keeps its value, and no other key is added |
| ManifestResolver.ResolveFindsRecord | PackageManager.cpp:86-104 | when a record of the container has the id, the lookup returns the path of such a record, and it is the first such record whenever the record at position `eid` does not carry the id; when none has it, the fallback |
| ManifestResolver.ResolveSequential | PackageManager.cpp:86-92 | with ids 0, 1, 2, … in order, id `i` resolves to the `i`-th record |
| ManifestResolver.ResolveDuplicatePrefersPosition | PackageManager.cpp:86-101 | when the record at position `eid` carries id `eid`, it is returned, although the scan finds the first record with that id, which may come earlier |
| ManifestResolver.DuplicateIdsExample | PackageManager.cpp:86-101 | two records with id 1, the second at position 1: the lookup returns the second while the scan finds the first |
| ManifestResolver.LookupEffectInvisible | PackageManager.cpp:84-95 | the entries a lookup inserts change the result of no later lookup |
| ManifestResolver.UnknownNameUsesFirstContainer | PackageManager.cpp:84 | an unknown container name resolves through container index 0 |
| ManifestResolver.PackageManager.constructor | PackageManager.h:29-35 | a new manager is not ready and its path and both tables are empty |
| ManifestResolver.PackageManager.ReadPKGJson | PackageManager.cpp:4-33 | the result and new fields are those of `Load` |
| ManifestResolver.PackageManager.BeginParseJson | PackageManager.cpp:35-52 | the result and new fields are those of `Begin` |
| ManifestResolver.PackageManager.IndexKxrList | PackageManager.cpp:43-47 | the loop's result and new name table are those of `IndexNames` |
| ManifestResolver.PackageManager.RecursiveParseJson | PackageManager.cpp:54-77 | the result and new fields are those of `ParseList` |
| ManifestResolver.PackageManager.FindFileName | PackageManager.cpp:79-105 | the path returned is `Resolve` of the old fields, and the fields change as `LookupEffect` says |
| ContainerExtractor.IdentifierSpellsKxrf | KXRUnpacker.h:10 | the identifier read with `u32` is the bytes "kxrf" |
| ContainerExtractor.Tag | KXRUnpacker.h:14-19 | each entry kind's tag is recognised as that kind |
| ContainerExtractor.KindOf | KXRUnpacker.cpp:73-78 | only tags 0, 1 and 4 select a kind: 0 encrypted, 1 directory, 4 compressed |
| ContainerExtractor.ReadHeader | KXRUnpacker.cpp:68-71 | an entry head stays within the TOC, and a head with a non-zero type consumed at least 11 bytes |
| ContainerExtractor.ReadHeaderTail | KXRUnpacker.cpp:69-71 | the byte and two words after a name read back as encoded |
| ContainerExtractor.ReadHeaderFrom | KXRUnpacker.cpp:68-71 | a head whose four fields read as given reads as their header |
| ContainerExtractor.Entry | KXRUnpacker.cpp:65-79 | an entry moves forward within the TOC, never leaves the directory deeper or differently rooted, and only appends writes |
| ContainerExtractor.EntryBody | KXRUnpacker.cpp:68-71 | the same for the head read |
| ContainerExtractor.Dispatch | KXRUnpacker.cpp:73-78 | the same for the `switch` on the type word |
| ContainerExtractor.EntryOfFolder | KXRUnpacker.cpp:73-75 | an entry whose head has the folder type is that folder |
| ContainerExtractor.EntryOfFileKind | KXRUnpacker.cpp:73-77 | an entry whose head has a file type is that file |
| ContainerExtractor.EntryOfUnknownTag | KXRUnpacker.cpp:73-78 | an entry whose type word is none of 0, 1 and 4 reads its head and nothing more, and writes nothing |
| ContainerExtractor.FolderEntry | KXRUnpacker.cpp:81-93 | a folder leaves the current directory at least one component shorter than it found it (or empty), and only appends writes |
| ContainerExtractor.Children | KXRUnpacker.cpp:86-90 | walking `n` children moves forward, never deepens the directory and only appends writes |
| ContainerExtractor.FileTarget | KXRUnpacker.cpp:104-112 | a name with an extension is joined to the current directory and the manager is untouched; any other name is resolved by the manifest as id `uint32_t(atoi(stem))`, whatever the current directory, and the manager's tables change as that lookup changes them |
| ContainerExtractor.FileEntry | KXRUnpacker.cpp:95-117 | a file entry keeps the directory and appends exactly one write |
| ContainerExtractor.PayloadDecrypts | KXRUnpacker.cpp:101-127 | an encrypted file's saved bytes have its stored length and encrypt back to the stored bytes; a compressed file is saved as its inflation, or as stored when it does not inflate |
| ContainerExtractor.FileAt | KXRUnpacker.cpp:101-114 | one write is appended; it is an out-of-range event exactly when the slice crosses the end of the container, and then the manifest is untouched |
| ContainerExtractor.EntryAtEnd | KXRUnpacker.cpp:68-78 | an entry read past the end of the TOC saves an empty file named by manifest entry 0 |
| ContainerExtractor.HeaderAtEnd | KXRUnpacker.cpp:68-71 | past the end the head reads as an empty name and type 0 |
| ContainerExtractor.FileAtEnd | KXRUnpacker.cpp:95-114 | an empty-named encrypted file read past the end saves no bytes under the name of entry 0 |
| ContainerExtractor.EmptyNameTarget | KXRUnpacker.cpp:104-108 | an empty name has no extension and resolves as id 0 |
| ContainerExtractor.EmptyFile | KXRUnpacker.cpp:101-114 | a file at offset 0 of size 0 saves no bytes |
| ContainerExtractor.DecimalNameResolvesById | KXRUnpacker.cpp:104-108 | a file named by the digits of an id is saved under the manifest's name for that id |
| ContainerExtractor.FileEnd | KXRUnpacker.cpp:98-99 | a file entry ends after its head and two words, within the TOC |
| ContainerExtractor.EntryOfFile | KXRUnpacker.cpp:95-117 | a file entry with an extension whose slice lies in the container moves past its words and appends exactly its one write, under the current directory |
| ContainerExtractor.ChildrenFront | KXRUnpacker.cpp:87-90 | `n + 1` children are the first child, then `n` more from where it ended |
| ContainerExtractor.FirstFile | KXRUnpacker.cpp:87-90 | a run of such files is its first file's write, then the rest of the run from where it ended |
| ContainerExtractor.ChildrenOfFiles | KXRUnpacker.cpp:86-90 | a run of such files appends exactly their writes in order and leaves the directory and the manager's tables as they were |
| ContainerExtractor.FolderOfFiles | KXRUnpacker.cpp:81-93 | a folder of `c` such files appends exactly `c` writes, each under the directory its `+=` made, and leaves the parent of that directory |
| ContainerExtractor.BaseName | KXRUnpacker.cpp:15-22 | the base name is the stem cut just before its last `-`, or the whole stem when it has none |
| ContainerExtractor.ReadTocRef | KXRUnpacker.cpp:55-57 | the three header words after the identifier are read within the file |
| ContainerExtractor.TocBytes | KXRUnpacker.cpp:59-60 | the TOC is missing exactly when it crosses the end of the file, and otherwise has its stated size |
| ContainerExtractor.ReadHeaderWords | KXRUnpacker.cpp:47-57 | the identifier, unused, offset and size words of a written header read back as written |
| ContainerExtractor.ReadContainerOfEncoded | KXRUnpacker.cpp:45-60 | a container written with its TOC encrypted under the TOC's offset reads back that TOC |
| ContainerExtractor.Extract | KXRUnpacker.cpp:6-63 | a file without the `.kxr` extension changes nothing; otherwise the base name is set, and a file that does not open changes nothing else |
| ContainerExtractor.Container | KXRUnpacker.cpp:45-62 | a container with the wrong identifier changes nothing; writes are only appended |
| ContainerExtractor.Table | KXRUnpacker.cpp:59-62 | a TOC crossing the end of the file logs one out-of-range event; writes are only appended |
| ContainerExtractor.EmptyTocSavesEntryZero | KXRUnpacker.cpp:59-78 | a container with an empty TOC still saves one empty file, named by manifest entry 0 |
| ContainerExtractor.Absolute | KXRUnpacker.h:28-38 | an absolute directory is kept; a relative one is placed under the current working directory |
| ContainerExtractor.KXRUnpacker.constructor | KXRUnpacker.h:22-26 | a new unpacker has empty directories, an empty base name, no writes and a fresh manifest |
| ContainerExtractor.KXRUnpacker.WithDirectory | KXRUnpacker.h:28-38 | the output directory is the operating directory made absolute |
| ContainerExtractor.KXRUnpacker.LoadPackageJson | KXRUnpacker.h:56-59 | the result and the manager's new fields are those of `Load` |
| ContainerExtractor.KXRUnpacker.SetOutputDirectory | KXRUnpacker.cpp:144-157 | the output directory is the path made absolute, and the result is whether directories were created |
| ContainerExtractor.KXRUnpacker.SaveToDisk | KXRUnpacker.cpp:159-173 | one write of the buffer's bytes at the path inside the output directory is appended |
| ContainerExtractor.KXRUnpacker.ExtractKXRFile | KXRUnpacker.cpp:6-63 | the new state is `Extract` of the old one; the content buffer holds the file's bytes when it was read |
| ContainerExtractor.KXRUnpacker.ExtractContent | KXRUnpacker.cpp:45-62 | the new state is `Container` of the old one for the file's bytes |
| ContainerExtractor.KXRUnpacker.ExtractTable | KXRUnpacker.cpp:59-62 | the new state is `Table` of the old one; the TOC buffer holds the decrypted TOC when it lies in the file |
| ContainerExtractor.KXRUnpacker.RecursiveKXRExtract | KXRUnpacker.cpp:65-79 | the new walk state is `Entry` of the old one |
| ContainerExtractor.KXRUnpacker.EntryHead | KXRUnpacker.cpp:68-71 | the name and type read are those of the head `ReadHeader` describes, and the position moves past it |
| ContainerExtractor.KXRUnpacker.UnpackFolder | KXRUnpacker.cpp:81-93 | the new walk state is `FolderEntry` of the old one |
| ContainerExtractor.KXRUnpacker.WalkChildren | KXRUnpacker.cpp:86-90 | the loop leaves `Children` of the old walk state |
| ContainerExtractor.KXRUnpacker.WalkChild | KXRUnpacker.cpp:89 | one turn of the loop extends the walk by one child |
| ContainerExtractor.KXRUnpacker.TargetName | KXRUnpacker.cpp:104-112 | the name and the manager's new fields are those of `FileTarget` |
| ContainerExtractor.KXRUnpacker.UnpackEncryptedFile | KXRUnpacker.cpp:95-117 | the new walk state is `FileEntry` of the old one for an encrypted file |
| ContainerExtractor.KXRUnpacker.UnpackCompressedFile | KXRUnpacker.cpp:119-142 | the new walk state is `FileEntry` of the old one for a compressed file |
| ContainerExtractor.KXRUnpacker.SaveFile | KXRUnpacker.cpp:101-114 | the new walk state is `FileAt` of the old one |
| ContainerExtractor.LoadContent | KXRUnpacker.cpp:39-45 | the file buffer and the content cursor hold the file's bytes, at position 0 |
| ContainerExtractor.ReadTocWords | KXRUnpacker.cpp:55-57 | the words read are the TOC reference `ReadTocRef` describes |
| ContainerExtractor.SliceFile | KXRUnpacker.cpp:101-102 | the file buffer holds the payload of the slice: decrypted under its offset, or inflated |
| ContainerExtractor.DecryptToc | KXRUnpacker.cpp:59-60 | the TOC buffer holds the slice decrypted under its offset, at position 0 |

## Left out

- KXRTools.cpp is not part of this model. It holds command-line handling, folder discovery, console prompts and Windows shell calls.
- `KBuffer::compress` and zlib's internals are not modelled. Inflation is a partial function passed in as `Inflater`. The `inflateInit` failure, which throws, is not modelled.
- File reading in `ExtractKXRFile` is a parameter: the file's bytes, or None when it does not open.
- The file-size cast to `uint32_t` (KXRUnpacker.cpp:35) is not modelled. Files are taken to be smaller than 4 GiB.
- `SaveToDisk` records the requested write in a ghost log. `create_directories` and the file write are not modelled, nor is whether they succeed. `SetOutputDirectory` takes the result of `create_directories` as a parameter.
- `std::filesystem::current_path` is a parameter.
- JSON parsing of `pkg.json` is not modelled. `ReadPKGJson` takes what opening and parsing produced (`Source`), and a missing or mistyped key is None in the tree.
- Console output (`std::cout`, `std::cerr`) is not modelled.
- `KBuffer::operator=`, `data()` and the write-buffer mode of `size()` are not modelled. `_isWriteBuffer` is never set, so `Size` is the array length.
- `ByteCursor.KBuffer.Slice`: the source copies without a bounds check. The model requires the range to lie within the source array.
- `ContainerExtractor.FileAt`: where the source's file slice would read past the container (undefined behaviour), the model logs `OutOfRange(offset, size)` instead of a write. `Table` does the same for the TOC slice.
- `ByteCursor.KBuffer.Crypt`: the loop index is a `uint32_t` in the source. The model's index is unbounded, so buffers of 4 GiB or more are not modelled.
- `Strings.Atoi`: overflow of `atoi` is undefined in C. The model reads an unbounded integer and converts it to `uint32_t` as the argument conversion does.
- Paths: `\` separators, `.` and `..` components and root names are not modelled.
- Paths.Append, Paths.Concat, Paths.Parent, Paths.ExtensionStart: each name is taken as one component, so a `/` inside a TOC or manifest name is not split. A folder named `x/y` entered from the empty directory leaves the empty path, where the source leaves `x`. A file named `a.b/c` counts as having an extension and is saved under the current directory, where the source finds none and looks up `atoi("c")`.
- `ContainerExtractor.ReadHeaderFrom`: no single lemma reads back an entry head from its encoding. The round trip is stated field by field instead: `ReadStringOfEncoded` for the name, `ReadHeaderTail` for the byte and two words, and `ReadHeaderFrom` to assemble them.
- `ContainerExtractor.KXRUnpacker.WalkChildren`, `WalkChild`, `ExtractContent`, `ExtractTable`, `EntryHead`, `TargetName`, `SaveFile`, `LoadContent`, `ReadTocWords`, `SliceFile`, `DecryptToc` and `ManifestResolver.PackageManager.IndexKxrList` are not source functions. Each holds a part of a source function's body (the lines cited in its row), split out so that the proof of that function stays small.
