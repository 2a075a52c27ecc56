/** The byte cursor of KBuffer.hpp: a byte buffer with a read position,
    bounded big-endian reads that yield 0 instead of crossing the end, a
    length-prefixed text read, the keyed XOR transform `crypt`, the `resize`
    growth rule and DEFLATE decoding through an abstract inflater. */
module ByteCursor {

  import opened Wrappers

  /** zlib's `inflate` run to the end of one stream: the decoded bytes when
      the stream ends with Z_STREAM_END, None otherwise. It is a parameter of
      the model; its internals are not modelled. */
  type Inflater = seq<bv8> -> Option<seq<bv8>>

  /** The value a read yields and the position after it. */
  datatype Parsed<T> = Parsed(value: T, next: nat)

  /** Byte `k` (0 = least significant) of a 32-bit word. */
  function ByteOf32(w: bv32, k: nat): bv8
    requires k < 4
  {
    if k == 0 then (w & 0xFF) as bv8
    else if k == 1 then ((w >> 8) & 0xFF) as bv8
    else if k == 2 then ((w >> 16) & 0xFF) as bv8
    else (w >> 24) as bv8
  }

  function ByteOf16(w: bv16, k: nat): bv8
    requires k < 2
  {
    if k == 0 then (w & 0xFF) as bv8 else (w >> 8) as bv8
  }

  /** The value of 2 or 4 bytes read most significant first. */
  function BE16(b0: bv8, b1: bv8): bv16 {
    ((b0 as bv16) << 8) | (b1 as bv16)
  }

  function BE32(b0: bv8, b1: bv8, b2: bv8, b3: bv8): bv32 {
    ((b0 as bv32) << 24) | ((b1 as bv32) << 16) | ((b2 as bv32) << 8) | (b3 as bv32)
  }

  /** The bytes of a value, most significant first: the inverse of BE16/BE32. */
  function EncodeBE16(v: bv16): seq<bv8> {
    [ByteOf16(v, 1), ByteOf16(v, 0)]
  }

  function EncodeBE32(v: bv32): seq<bv8> {
    [ByteOf32(v, 3), ByteOf32(v, 2), ByteOf32(v, 1), ByteOf32(v, 0)]
  }

  /** Big-endian decoding and encoding are inverse, in both directions. */
  lemma BE16RoundTrip(v: bv16, b: seq<bv8>)
    requires |b| == 2
    ensures BE16(ByteOf16(v, 1), ByteOf16(v, 0)) == v
    ensures EncodeBE16(BE16(b[0], b[1])) == b
  {
  }

  lemma BE32RoundTrip(v: bv32, b: seq<bv8>)
    requires |b| == 4
    ensures BE32(ByteOf32(v, 3), ByteOf32(v, 2), ByteOf32(v, 1), ByteOf32(v, 0)) == v
    ensures EncodeBE32(BE32(b[0], b[1], b[2], b[3])) == b
  {
  }

  /** A word loaded from memory on the little-endian target host, as
      `*(uint16_t*)` and `*(uint32_t*)` do in `read<T>` and `crypt`. */
  function LoadLE16(b0: bv8, b1: bv8): (r: bv16)
    ensures ByteOf16(r, 0) == b0 && ByteOf16(r, 1) == b1
  {
    ((b1 as bv16) << 8) | (b0 as bv16)
  }

  function LoadLE32(b0: bv8, b1: bv8, b2: bv8, b3: bv8): (r: bv32)
    ensures ByteOf32(r, 0) == b0 && ByteOf32(r, 1) == b1 && ByteOf32(r, 2) == b2 && ByteOf32(r, 3) == b3
  {
    ((b3 as bv32) << 24) | ((b2 as bv32) << 16) | ((b1 as bv32) << 8) | (b0 as bv32)
  }

  /** The byte swaps `u16()` and `u32()` apply to the loaded word. */
  function Swap16(val: bv16): (r: bv16)
    ensures ByteOf16(r, 0) == ByteOf16(val, 1) && ByteOf16(r, 1) == ByteOf16(val, 0)
  {
    ((val & 0x00FF) << 8) | ((val & 0xFF00) >> 8)
  }

  function Swap32(val: bv32): (r: bv32)
    ensures ByteOf32(r, 0) == ByteOf32(val, 3) && ByteOf32(r, 1) == ByteOf32(val, 2)
    ensures ByteOf32(r, 2) == ByteOf32(val, 1) && ByteOf32(r, 3) == ByteOf32(val, 0)
  {
    ((val & 0x0000_00FF) << 24) | ((val & 0x0000_FF00) << 8) |
    ((val & 0x00FF_0000) >> 8) | ((val & 0xFF00_0000) >> 24)
  }

  /** Swapping a word loaded on the little-endian host yields the big-endian
      value of the same bytes. */
  lemma SwapOfLoad(b0: bv8, b1: bv8, b2: bv8, b3: bv8)
    ensures Swap16(LoadLE16(b0, b1)) == BE16(b0, b1)
    ensures Swap32(LoadLE32(b0, b1, b2, b3)) == BE32(b0, b1, b2, b3)
  {
  }

  /** XOR-ing a loaded word with a key and storing it back XORs byte `k` of
      memory with byte `k` of the key: the word branch of `crypt` does to each
      byte what the byte branch does. */
  lemma XorWordBytes(b0: bv8, b1: bv8, b2: bv8, b3: bv8, key: bv32, k: nat)
    requires k < 4
    ensures ByteOf32(LoadLE32(b0, b1, b2, b3) ^ key, k) == [b0, b1, b2, b3][k] ^ ByteOf32(key, k)
  {
    if k == 0 {
    } else if k == 1 {
    } else if k == 2 {
    } else {
    }
  }

  function Zeros(n: nat): (r: seq<bv8>)
    ensures |r| == n && forall i :: 0 <= i < n ==> r[i] == 0
  {
    seq(n, i => 0)
  }

  /** Text as the bytes it holds, one char per byte. */
  function Chars(b: seq<bv8>): (r: string)
    ensures |r| == |b|
  {
    seq(|b|, i requires 0 <= i < |b| => (b[i] as int) as char)
  }

  /** The `len` bytes of `s` from `start`, as text. */
  function CharsAt(s: seq<bv8>, start: nat, len: nat): (r: string)
    requires start + len <= |s|
    ensures |r| == len
    ensures forall i :: 0 <= i < len ==> r[i] as int == s[start + i] as int
  {
    seq(len, i requires 0 <= i < len => (s[start + i] as int) as char)
  }

  function Bytes(t: string): (r: seq<bv8>)
    requires forall i :: 0 <= i < |t| ==> t[i] as int < 256
    ensures |r| == |t|
  {
    seq(|t|, i requires 0 <= i < |t| => (t[i] as int) as bv8)
  }

  lemma BytesOfChars(b: seq<bv8>)
    ensures forall i :: 0 <= i < |b| ==> Chars(b)[i] as int < 256
    ensures Bytes(Chars(b)) == b
  {
  }

  // ---- The reads, as functions of the bytes and the position ----

  /** `read<T>` with `sizeof(T) == width`: the raw bytes in memory order and
      the advanced position, or zero bytes and the position unchanged when
      the read would cross the end. */
  function ReadBytes(s: seq<bv8>, pos: nat, width: nat): (r: Parsed<seq<bv8>>)
    ensures |r.value| == width
    ensures pos + width <= |s| ==> r.next == pos + width && r.value == s[pos..r.next]
    ensures pos + width > |s| ==> r == Parsed(Zeros(width), pos)
  {
    if pos + width > |s| then Parsed(Zeros(width), pos) else Parsed(s[pos..pos + width], pos + width)
  }

  /** `u8()`: the next byte, or 0 at the end. */
  function ReadU8(s: seq<bv8>, pos: nat): (r: Parsed<bv8>)
    ensures pos < |s| ==> r == Parsed(s[pos], pos + 1)
    ensures pos >= |s| ==> r == Parsed(0, pos)
  {
    if pos + 1 > |s| then Parsed(0, pos) else Parsed(s[pos], pos + 1)
  }

  /** `u16()`: a value whose big-endian encoding is the next two bytes, or 0
      with the position unchanged when fewer than two bytes remain. */
  function ReadU16(s: seq<bv8>, pos: nat): (r: Parsed<bv16>)
    ensures pos + 2 <= |s| ==> r.next == pos + 2 && EncodeBE16(r.value) == [s[pos], s[pos + 1]]
    ensures pos + 2 > |s| ==> r == Parsed(0, pos)
  {
    if pos + 2 > |s| then Parsed(0, pos)
    else
      BE16RoundTrip(0, [s[pos], s[pos + 1]]);
      Parsed(BE16(s[pos], s[pos + 1]), pos + 2)
  }

  /** `u32()`: a value whose big-endian encoding is the next four bytes, or 0
      with the position unchanged when fewer than four bytes remain. */
  function ReadU32(s: seq<bv8>, pos: nat): (r: Parsed<bv32>)
    ensures pos + 4 <= |s| ==> r.next == pos + 4 && EncodeBE32(r.value) == [s[pos], s[pos + 1], s[pos + 2], s[pos + 3]]
    ensures pos + 4 > |s| ==> r == Parsed(0, pos)
  {
    if pos + 4 > |s| then Parsed(0, pos)
    else
      BE32RoundTrip(0, [s[pos], s[pos + 1], s[pos + 2], s[pos + 3]]);
      Parsed(BE32(s[pos], s[pos + 1], s[pos + 2], s[pos + 3]), pos + 4)
  }

  /** The length prefix of a string at `pos`, when two bytes remain there. */
  function PrefixLength(s: seq<bv8>, pos: nat): nat
    requires pos + 2 <= |s|
  {
    BE16(s[pos], s[pos + 1]) as int
  }

  /** `string()`: a `u16` length `n`, then the next `n` bytes as text. When
      the length cannot be read nothing is consumed; when `n` runs past the
      end only the prefix is consumed; in both cases the text is empty. */
  function ReadString(s: seq<bv8>, pos: nat): (r: Parsed<string>)
    ensures pos + 2 > |s| ==> r == Parsed("", pos)
    ensures pos + 2 <= |s| && pos + 2 + PrefixLength(s, pos) > |s| ==> r == Parsed("", pos + 2)
    ensures pos + 2 <= |s| && pos + 2 + PrefixLength(s, pos) <= |s| ==>
              |r.value| == PrefixLength(s, pos) && r.next == pos + 2 + |r.value| &&
              forall i :: 0 <= i < |r.value| ==> r.value[i] as int == s[pos + 2 + i] as int
  {
    var n := ReadU16(s, pos);
    if n.next + n.value as int > |s| then Parsed("", n.next)
    else Parsed(CharsAt(s, n.next, n.value as int), n.next + n.value as int)
  }

  /** Every read moves the position forward, and never past the end when it
      starts within the buffer. */
  lemma ReadsStayInBounds(s: seq<bv8>, pos: nat)
    requires pos <= |s|
    ensures pos <= ReadU8(s, pos).next <= |s|
    ensures pos <= ReadU16(s, pos).next <= |s|
    ensures pos <= ReadU32(s, pos).next <= |s|
    ensures pos <= ReadString(s, pos).next <= |s|
  {
  }

  /** Reading a `u32` back from its encoding, wherever it sits. */
  lemma ReadU32OfEncoded(prefix: seq<bv8>, v: bv32, suffix: seq<bv8>)
    ensures ReadU32(prefix + EncodeBE32(v) + suffix, |prefix|) == Parsed(v, |prefix| + 4)
  {
    var s := prefix + EncodeBE32(v) + suffix;
    assert s[|prefix|..|prefix| + 4] == EncodeBE32(v);
    BE32RoundTrip(v, EncodeBE32(v));
  }

  /** Reading a `u16` back from its encoding, wherever it sits. */
  lemma ReadU16OfEncoded(prefix: seq<bv8>, v: bv16, suffix: seq<bv8>)
    ensures ReadU16(prefix + EncodeBE16(v) + suffix, |prefix|) == Parsed(v, |prefix| + 2)
  {
    var s := prefix + EncodeBE16(v) + suffix;
    assert s[|prefix|..|prefix| + 2] == EncodeBE16(v);
    BE16RoundTrip(v, EncodeBE16(v));
  }

  /** Reading a length-prefixed string back from its encoding: a prefix `n`
      followed by `n` bytes of text. */
  lemma ReadStringOfEncoded(prefix: seq<bv8>, n: bv16, text: seq<bv8>, suffix: seq<bv8>)
    requires |text| == n as int
    ensures ReadString(prefix + EncodeBE16(n) + text + suffix, |prefix|)
            == Parsed(Chars(text), |prefix| + 2 + |text|)
  {
    var s := prefix + EncodeBE16(n) + text + suffix;
    var p := |prefix|;
    assert s == prefix + EncodeBE16(n) + (text + suffix);
    ReadU16OfEncoded(prefix, n, text + suffix);
    assert forall i :: 0 <= i < |text| ==> s[p + 2 + i] == text[i];
    assert ReadString(s, p).value == Chars(text);
  }

  // ---- The key schedule and the closed form of crypt ----

  /** One step of the key schedule:
      `magic * 2 | ~((magic >> 3 ^ magic) >> 13) & 1` on 32 bits. */
  function NextKey(k: bv32): (r: bv32)
  {
    (k << 1) | (!(((k >> 3) ^ k) >> 13) & 1)
  }

  /** What one step does to the key: it shifts left by one, and the new low
      bit is set exactly when bits 13 and 16 of the old key agree. */
  lemma NextKeyBits(k: bv32)
    ensures NextKey(k) >> 1 == k & 0x7FFF_FFFF
    ensures NextKey(k) & 1 == 1 <==> (k >> 16) & 1 == (k >> 13) & 1
  {
  }

  /** The key that covers 4-byte block `n`: the seed, stepped `n` times. */
  function KeyAt(seed: bv32, n: nat): bv32
    decreases n
  {
    if n == 0 then seed else NextKey(KeyAt(seed, n - 1))
  }

  /** The key stream of `crypt`: the four bytes of the seed, least
      significant first, then the stream of the next key. */
  function KeyByte(seed: bv32, j: nat): bv8
    decreases j
  {
    if j < 4 then ByteOf32(seed, j) else KeyByte(NextKey(seed), j - 4)
  }

  lemma {:induction false} KeyAtShift(seed: bv32, n: nat)
    ensures KeyAt(NextKey(seed), n) == KeyAt(seed, n + 1)
    decreases n
  {
    if n > 0 {
      KeyAtShift(seed, n - 1);
    }
  }

  /** Byte `j` of the key stream is byte `j mod 4` of the key of block
      `j div 4`. */
  lemma {:induction false} KeyByteAt(seed: bv32, j: nat)
    ensures KeyByte(seed, j) == ByteOf32(KeyAt(seed, j / 4), j % 4)
    decreases j
  {
    if j >= 4 {
      KeyByteAt(NextKey(seed), j - 4);
      KeyAtShift(seed, (j - 4) / 4);
      assert (j - 4) / 4 + 1 == j / 4 && (j - 4) % 4 == j % 4;
    }
  }

  /** The four bytes of an aligned block take the four bytes of its key. */
  lemma BlockKeys(seed: bv32, i: nat, magic: bv32)
    requires i % 4 == 0 && magic == KeyAt(seed, i / 4)
    ensures KeyByte(seed, i) == ByteOf32(magic, 0)
    ensures KeyByte(seed, i + 1) == ByteOf32(magic, 1)
    ensures KeyByte(seed, i + 2) == ByteOf32(magic, 2)
    ensures KeyByte(seed, i + 3) == ByteOf32(magic, 3)
  {
    assert (i + 1) / 4 == i / 4 && (i + 1) % 4 == 1;
    assert (i + 2) / 4 == i / 4 && (i + 2) % 4 == 2;
    assert (i + 3) / 4 == i / 4 && (i + 3) % 4 == 3;
    KeyByteAt(seed, i);
    KeyByteAt(seed, i + 1);
    KeyByteAt(seed, i + 2);
    KeyByteAt(seed, i + 3);
  }

  /** The closed form of `crypt(seed)`: every byte XOR-ed with the key
      stream. */
  function CryptSpec(s: seq<bv8>, seed: bv32): (r: seq<bv8>)
    ensures |r| == |s|
  {
    seq(|s|, j requires 0 <= j < |s| => s[j] ^ KeyByte(seed, j))
  }

  /** `crypt` is its own inverse for every seed. */
  lemma CryptInvolutive(s: seq<bv8>, seed: bv32)
    ensures CryptSpec(CryptSpec(s, seed), seed) == s
  {
    var once := CryptSpec(s, seed);
    var twice := CryptSpec(once, seed);
    forall j | 0 <= j < |s|
      ensures twice[j] == s[j]
    {
      var key := KeyByte(seed, j);
      assert twice[j] == (s[j] ^ key) ^ key;
    }
  }

  /** The first `i` bytes of `a` are `orig` XOR-ed with the key stream and
      the rest are still `orig`: the state of `crypt` after `i` bytes. */
  ghost predicate CryptedUpTo(a: seq<bv8>, orig: seq<bv8>, seed: bv32, i: nat) {
    |a| == |orig| && i <= |a| &&
    (forall j :: 0 <= j < i ==> a[j] == orig[j] ^ KeyByte(seed, j)) &&
    (forall j :: i <= j < |a| ==> a[j] == orig[j])
  }

  lemma CryptedAll(a: seq<bv8>, orig: seq<bv8>, seed: bv32)
    requires CryptedUpTo(a, orig, seed, |a|)
    ensures a == CryptSpec(orig, seed)
  {
  }

  /** XOR-ing four bytes with the key stream moves the crypted prefix
      past them. */
  lemma CryptedBlock(before: seq<bv8>, after: seq<bv8>, orig: seq<bv8>, seed: bv32, i: nat)
    requires CryptedUpTo(before, orig, seed, i) && i + 4 <= |before|
    requires |after| == |before|
    requires after[i] == before[i] ^ KeyByte(seed, i)
    requires after[i + 1] == before[i + 1] ^ KeyByte(seed, i + 1)
    requires after[i + 2] == before[i + 2] ^ KeyByte(seed, i + 2)
    requires after[i + 3] == before[i + 3] ^ KeyByte(seed, i + 3)
    requires forall j :: 0 <= j < |after| && !(i <= j < i + 4) ==> after[j] == before[j]
    ensures CryptedUpTo(after, orig, seed, i + 4)
  {
    forall j | 0 <= j < i + 4
      ensures after[j] == orig[j] ^ KeyByte(seed, j)
    {
      if j < i {
        assert after[j] == before[j];
      } else if j == i {
      } else if j == i + 1 {
      } else if j == i + 2 {
      } else {
      }
    }
  }

  /** The word branch of `crypt` on four bytes: load them as a host word, XOR
      it with the key, store it back. Each byte is XOR-ed with the matching
      byte of the key. */
  method XorWord(b0: bv8, b1: bv8, b2: bv8, b3: bv8, key: bv32) returns (c0: bv8, c1: bv8, c2: bv8, c3: bv8)
    ensures c0 == b0 ^ ByteOf32(key, 0) && c1 == b1 ^ ByteOf32(key, 1)
    ensures c2 == b2 ^ ByteOf32(key, 2) && c3 == b3 ^ ByteOf32(key, 3)
  {
    var word := LoadLE32(b0, b1, b2, b3) ^ key;
    XorWordBytes(b0, b1, b2, b3, key, 0);
    XorWordBytes(b0, b1, b2, b3, key, 1);
    XorWordBytes(b0, b1, b2, b3, key, 2);
    XorWordBytes(b0, b1, b2, b3, key, 3);
    c0, c1, c2, c3 := ByteOf32(word, 0), ByteOf32(word, 1), ByteOf32(word, 2), ByteOf32(word, 3);
  }

  /** `decompress()`'s effect on the bytes: replaced by the decoded stream when
      it ends properly, left as they are otherwise. */
  function Inflated(s: seq<bv8>, inflate: Inflater): (r: seq<bv8>)
    ensures inflate(s).Some? ==> r == inflate(s).value
    ensures inflate(s).None? ==> r == s
  {
    match inflate(s)
    case Some(out) => out
    case None => s
  }

  // ---- The buffer itself ----

  class KBuffer {
    var pos: nat
    var raw: array<bv8>

    /** `KBuffer()`: empty, at position 0. */
    constructor ()
      ensures pos == 0 && raw.Length == 0 && fresh(raw)
    {
      pos := 0;
      raw := new bv8[0];
    }

    /** `KBuffer(src, src_pos, src_size)`: a copy of `src[src_pos ..
        src_pos + src_size)` at position 0. The source copies without a bounds
        check, so the range must lie within `src`. */
    constructor Slice(src: array<bv8>, srcPos: nat, srcSize: nat)
      requires srcPos + srcSize <= src.Length
      ensures pos == 0 && fresh(raw)
      ensures raw[..] == src[srcPos..srcPos + srcSize]
    {
      pos := 0;
      var bytes := src[srcPos..srcPos + srcSize];
      raw := new bv8[srcSize](i requires 0 <= i < srcSize => bytes[i]);
    }

    /** `size()` of a read buffer (the write-buffer mode is never used). */
    function Size(): nat
      reads this
    {
      raw.Length
    }

    /** `read<T>()` for `sizeof(T) == width`. */
    method Read(width: nat) returns (word: seq<bv8>)
      modifies this`pos
      ensures ReadBytes(raw[..], old(pos), width) == Parsed(word, pos)
    {
      if pos + width > raw.Length {
        return Zeros(width);
      }
      word := raw[pos..pos + width];
      pos := pos + width;
    }

    method U8() returns (v: bv8)
      modifies this`pos
      ensures ReadU8(raw[..], old(pos)) == Parsed(v, pos)
    {
      var word := Read(1);
      v := word[0];
    }

    /** Loads the host-order word and swaps its two bytes. */
    method U16() returns (v: bv16)
      modifies this`pos
      ensures ReadU16(raw[..], old(pos)) == Parsed(v, pos)
    {
      var word := Read(2);
      var val := LoadLE16(word[0], word[1]);
      v := Swap16(val);
      SwapOfLoad(word[0], word[1], 0, 0);
    }

    /** Loads the host-order word and reverses its four bytes. */
    method U32() returns (v: bv32)
      modifies this`pos
      ensures ReadU32(raw[..], old(pos)) == Parsed(v, pos)
    {
      var word := Read(4);
      var val := LoadLE32(word[0], word[1], word[2], word[3]);
      v := Swap32(val);
      SwapOfLoad(word[0], word[1], word[2], word[3]);
    }

    method String() returns (s: string)
      modifies this`pos
      ensures ReadString(raw[..], old(pos)) == Parsed(s, pos)
    {
      ghost var bytes, start := raw[..], pos;
      var n := U16();
      assert ReadU16(bytes, start) == Parsed(n, pos);
      if pos + n as int > raw.Length {
        return "";
      }
      s := CharsAt(raw[..], pos, n as int);
      pos := pos + n as int;
    }

    /** `crypt(magic)` in place: 4-byte words XOR-ed with the running key
        while more than four bytes remain, then single bytes; the key steps
        at every multiple of 4 after the first. */
    method Crypt(seed: bv32)
      modifies raw
      ensures raw[..] == CryptSpec(old(raw[..]), seed)
    {
      var magic := seed;
      var i := 0;
      ghost var block: nat := 0;
      while i < raw.Length
        invariant 0 <= i <= raw.Length
        invariant i % 4 != 0 ==> raw.Length <= i + 4
        invariant magic == KeyAt(seed, block)
        invariant i == 0 ==> block == 0
        invariant i > 0 ==> 4 * block < i <= 4 * block + 4
        invariant CryptedUpTo(raw[..], old(raw[..]), seed, i)
      {
        if i % 4 == 0 && i > 0 {
          magic := NextKey(magic);
          block := block + 1;
        }
        assert i / 4 == block;
        if i + 4 < raw.Length {
          CryptWord(i, magic, old(raw[..]), seed);
          i := i + 4;
        } else {
          CryptByte(i, magic, old(raw[..]), seed);
          i := i + 1;
        }
      }
      CryptedAll(raw[..], old(raw[..]), seed);
    }

    /** The word branch of `crypt` at the aligned position `i`. */
    method CryptWord(i: nat, magic: bv32, ghost orig: seq<bv8>, ghost seed: bv32)
      requires CryptedUpTo(raw[..], orig, seed, i) && i % 4 == 0 && i + 4 <= raw.Length
      requires magic == KeyAt(seed, i / 4)
      modifies raw
      ensures CryptedUpTo(raw[..], orig, seed, i + 4)
    {
      ghost var before := raw[..];
      var c0, c1, c2, c3 := XorWord(raw[i], raw[i + 1], raw[i + 2], raw[i + 3], magic);
      raw[i], raw[i + 1], raw[i + 2], raw[i + 3] := c0, c1, c2, c3;
      BlockKeys(seed, i, magic);
      CryptedBlock(before, raw[..], orig, seed, i);
    }

    /** The byte branch of `crypt` at position `i`. */
    method CryptByte(i: nat, magic: bv32, ghost orig: seq<bv8>, ghost seed: bv32)
      requires CryptedUpTo(raw[..], orig, seed, i) && i < raw.Length
      requires magic == KeyAt(seed, i / 4)
      modifies raw
      ensures CryptedUpTo(raw[..], orig, seed, i + 1)
    {
      KeyByteAt(seed, i);
      raw[i] := raw[i] ^ ByteOf32(magic, i % 4);
    }

    /** `decompress()`: the whole buffer as one DEFLATE stream. */
    method Decompress(inflate: Inflater)
      modifies this`raw
      ensures raw[..] == Inflated(old(raw[..]), inflate)
      ensures inflate(old(raw[..])).None? ==> raw == old(raw)
      ensures inflate(old(raw[..])).Some? ==> fresh(raw)
    {
      match inflate(raw[..])
      case None =>
      case Some(out) =>
        raw := new bv8[|out|](i requires 0 <= i < |out| => out[i]);
    }

    /** `resize(write_size)`: grows to `pos + write_size + 256` bytes, keeping
        the contents and zero-filling, when `write_size` more bytes would not
        fit after the position. */
    method Resize(writeSize: nat)
      modifies this`raw
      ensures raw.Length >= pos + writeSize
      ensures old(pos) + writeSize <= old(raw.Length) ==> raw == old(raw)
      ensures old(pos) + writeSize > old(raw.Length) ==>
                fresh(raw) && raw.Length == pos + writeSize + 256 &&
                raw[..old(raw.Length)] == old(raw[..]) &&
                forall i :: old(raw.Length) <= i < raw.Length ==> raw[i] == 0
    {
      if pos + writeSize > raw.Length {
        var before := raw[..];
        raw := new bv8[pos + writeSize + 256](i => if 0 <= i < |before| then before[i] else 0);
      }
    }
  }
}
