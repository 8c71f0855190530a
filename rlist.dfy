// The range list (rlist): a singly linked chain of 512-byte chunks, each
// holding 126 32-bit header slots into which (type, length, base, offset,
// extra) entries are packed in an 8-, 16- or 24-byte form, the iterator that
// walks them back out (rlist_state) and the append state that packs them in
// (rlist_state_append).
//
// This module holds the packed format and the walk over a chain of chunk
// contents; rlist_state.dfy holds the list and its cursors.  u64 fields of
// the packed forms occupy two consecutive slots, low half first (a
// little-endian kernel).

module RlistFormat {
  import opened Errno
  import Bits

  const U32_LIMIT: nat := 0x1_0000_0000
  const U64_LIMIT: nat := 0x1_0000_0000_0000_0000

  type u32 = x: nat | x < 0x1_0000_0000
  type u64 = x: nat | x < 0x1_0000_0000_0000_0000
  /** The 2-bit `type` field of struct rlist_entry. */
  type u2 = x: nat | x < 4
  /** The 60-bit `length` field of struct rlist_entry. */
  type u60 = x: nat | x < 0x1000_0000_0000_0000

  /** The values of the 2-bit `encoding` field of struct rlist_hdr. */
  const ENCODING_8: nat := 0
  const ENCODING_16: nat := 1
  const ENCODING_24: nat := 2
  const END_PAD: nat := 3

  /** 2^RLIST_HDR_LENGTH_BITS: the header holds the low 28 bits of the length. */
  const HDR_LENGTH_LIMIT: nat := 0x1000_0000
  /** RLIST_16_MAX_LENGTH + 1 = 2^36 and RLIST_16_MAX_OFFSET + 1 = 2^24. */
  const LENGTH16_LIMIT: nat := 0x10_0000_0000
  const OFFSET16_LIMIT: nat := 0x100_0000

  /** RLIST_CHUNK_SIZE / sizeof(struct rlist_hdr) = (512 - 8) / 4 slots per chunk. */
  const CHUNK_SLOTS: nat := 126

  /** struct rlist_entry: `kind` is its 2-bit `type`. */
  datatype Entry = Entry(kind: u2, length: u60, base: u64, offset: u32, extra: u32)

  /** The value x leaves in a u64: unsigned addition wraps at 2^64. */
  function Wrap64(x: nat): u64
  {
    x % U64_LIMIT
  }

  function SumLen(es: seq<Entry>): nat
  {
    if es == [] then 0 else SumLen(es[..|es| - 1]) + es[|es| - 1].length
  }

  // ---- struct rlist_hdr -------------------------------------------------

  /** A header word: encoding in bits 1:0, type in bits 3:2, length in bits 31:4. */
  function Hdr(encoding: nat, kind: u2, length: nat): u32
    requires encoding < 4
  {
    encoding + 4 * kind + 16 * (length % 0x1000_0000)
  }

  function HdrEncoding(h: u32): nat { h % 4 }
  function HdrType(h: u32): u2 { (h / 4) % 4 }
  function HdrLength(h: u32): nat { h / 16 }

  /** Storing v into the 2-bit `type` bit-field of a header word. */
  function SetHdrType(h: u32, v: u2): (r: u32)
    ensures HdrEncoding(r) == HdrEncoding(h) && HdrType(r) == v && HdrLength(r) == HdrLength(h)
  {
    HdrSplit(h);
    HdrParts(h % 4, v, h / 16);
    h % 4 + 4 * v + 16 * (h / 16)
  }

  /** Storing v into the 2-bit `encoding` bit-field of a header word. */
  function SetHdrEncoding(h: u32, v: u2): (r: u32)
    ensures HdrEncoding(r) == v && HdrType(r) == HdrType(h) && HdrLength(r) == HdrLength(h)
  {
    HdrSplit(h);
    HdrParts(v, (h / 4) % 4, h / 16);
    v + 4 * ((h / 4) % 4) + 16 * (h / 16)
  }

  /** The three bit-fields of a 32-bit header word, read back, rebuild it. */
  lemma HdrSplit(h: u32)
    ensures h == h % 4 + 4 * ((h / 4) % 4) + 16 * (h / 16) && h / 16 < HDR_LENGTH_LIMIT
  {
    Bits.DivMul(h, 4);
    Bits.DivMul(h / 4, 4);
    Bits.DivModUnique(h, 16, (h / 4) / 4, h % 4 + 4 * ((h / 4) % 4));
  }

  /** Packing encoding e, type k and length l and reading the fields back gives e, k and l. */
  lemma HdrParts(e: nat, k: nat, l: nat)
    requires e < 4 && k < 4
    ensures (e + 4 * k + 16 * l) % 4 == e && ((e + 4 * k + 16 * l) / 4) % 4 == k && (e + 4 * k + 16 * l) / 16 == l
  {
    var h := e + 4 * k + 16 * l;
    assert h == (k + 4 * l) * 4 + e;
    Bits.DivModUnique(h, 4, k + 4 * l, e);
    Bits.DivModUnique(k + 4 * l, 4, l, k);
    assert h == l * 16 + (e + 4 * k);
    Bits.DivModUnique(h, 16, l, e + 4 * k);
  }

  lemma HdrFields(encoding: nat, kind: u2, length: nat)
    requires encoding < 4
    ensures HdrEncoding(Hdr(encoding, kind, length)) == encoding
    ensures HdrType(Hdr(encoding, kind, length)) == kind
    ensures HdrLength(Hdr(encoding, kind, length)) == length % HDR_LENGTH_LIMIT
  {
    HdrParts(encoding, kind, length % HDR_LENGTH_LIMIT);
  }

  // ---- rls_append's choice of form and rlist_decode ----------------------

  /** The 8-byte form (rlist_8) holds the entry. */
  predicate Fits8(e: Entry)
  {
    e.length < HDR_LENGTH_LIMIT && e.base < U32_LIMIT && e.offset == 0 && e.extra == 0
  }

  /** The 16-byte form (rlist_16) holds the entry; any base fits its u64. */
  predicate Fits16(e: Entry)
  {
    e.length < LENGTH16_LIMIT && e.offset < OFFSET16_LIMIT && e.extra == 0
  }

  /** The encoding rls_append picks for e. */
  function EncodingOf(e: Entry): nat
  {
    if Fits8(e) then ENCODING_8 else if Fits16(e) then ENCODING_16 else ENCODING_24
  }

  /** sizeof the chosen form in header slots. */
  function Size(e: Entry): nat
  {
    if Fits8(e) then 2 else if Fits16(e) then 4 else 6
  }

  /** The slots rls_append writes for e (lib/rlist.c:380-419). */
  function Encode(e: Entry): (ws: seq<u32>)
    ensures |ws| == Size(e) && HdrEncoding(ws[0]) == EncodingOf(e) && HdrType(ws[0]) == e.kind
  {
    HdrFields(EncodingOf(e), e.kind, e.length);
    if Fits8(e) then
      [Hdr(ENCODING_8, e.kind, e.length), e.base]
    else if Fits16(e) then
      [Hdr(ENCODING_16, e.kind, e.length), e.length / 0x1000_0000 + 256 * e.offset,
       e.base % 0x1_0000_0000, e.base / 0x1_0000_0000]
    else
      [Hdr(ENCODING_24, e.kind, e.length), e.offset, e.base % 0x1_0000_0000, e.base / 0x1_0000_0000,
       e.length / 0x1000_0000, e.extra]
  }

  /** What rlist_decode reports: the entry and its size in slots (0 for a bad encoding). */
  datatype Decoded = Decoded(entry: Entry, size: nat)

  /** Slot k of a chunk; a slot past the end reads as 0. */
  function Word(w: seq<u32>, k: nat): u32
  {
    if k < |w| then w[k] else 0
  }

  /** rlist_decode on the header h and the five slots after it. */
  function DecodeWords(h: u32, w1: u32, w2: u32, w3: u32, w4: u32, w5: u32): Decoded
  {
    var kind := HdrType(h);
    var length := HdrLength(h);
    if HdrEncoding(h) == ENCODING_8 then
      Decoded(Entry(kind, length, w1, 0, 0), 2)
    else if HdrEncoding(h) == ENCODING_16 then
      Decoded(Entry(kind, length + (w1 % 256) * 0x1000_0000, w2 + w3 * 0x1_0000_0000, w1 / 256, 0), 4)
    else if HdrEncoding(h) == ENCODING_24 then
      Decoded(Entry(kind, length + w4 * 0x1000_0000, w2 + w3 * 0x1_0000_0000, w1, w5), 6)
    else
      Decoded(Entry(0, 0, 0, 0, 0), 0)
  }

  /** rlist_decode of the header in slot i of chunk w. */
  function Decode(w: seq<u32>, i: nat): Decoded
  {
    DecodeWords(Word(w, i), Word(w, i + 1), Word(w, i + 2), Word(w, i + 3), Word(w, i + 4), Word(w, i + 5))
  }

  /** Slots [i, i + Size(e)) of w hold the encoding of e. */
  predicate EncodedAt(w: seq<u32>, i: nat, e: Entry)
  {
    i + Size(e) <= |w| && w[i..i + Size(e)] == Encode(e)
  }

  lemma Decode8(e: Entry, w2: u32, w3: u32, w4: u32, w5: u32)
    requires Fits8(e)
    ensures DecodeWords(Encode(e)[0], Encode(e)[1], w2, w3, w4, w5) == Decoded(e, 2)
  {
    HdrFields(ENCODING_8, e.kind, e.length);
  }

  lemma Decode16(e: Entry, w4: u32, w5: u32)
    requires !Fits8(e) && Fits16(e)
    ensures var enc := Encode(e); DecodeWords(enc[0], enc[1], enc[2], enc[3], w4, w5) == Decoded(e, 4)
  {
    var enc := Encode(e);
    var hi := e.length / 0x1000_0000;
    HdrFields(ENCODING_16, e.kind, e.length);
    LowByte(hi, e.offset);
    SplitLength(e.length);
    SplitBase(e.base);
    assert enc[1] == hi + 256 * e.offset;
    DecodeWords16(enc[0], enc[1], enc[2], enc[3], w4, w5, e);
  }

  /** The 16-byte branch of rlist_decode, on words whose fields are known. */
  lemma DecodeWords16(h: u32, w1: u32, w2: u32, w3: u32, w4: u32, w5: u32, e: Entry)
    requires HdrEncoding(h) == ENCODING_16 && HdrType(h) == e.kind
    requires HdrLength(h) + (w1 % 256) * 0x1000_0000 == e.length
    requires w2 + w3 * 0x1_0000_0000 == e.base && w1 / 256 == e.offset && e.extra == 0
    ensures DecodeWords(h, w1, w2, w3, w4, w5) == Decoded(e, 4)
  {
  }

  lemma Decode24(e: Entry)
    requires !Fits8(e) && !Fits16(e)
    ensures var enc := Encode(e); DecodeWords(enc[0], enc[1], enc[2], enc[3], enc[4], enc[5]) == Decoded(e, 6)
  {
    HdrFields(ENCODING_24, e.kind, e.length);
    SplitLength(e.length);
    SplitBase(e.base);
  }

  lemma LowByte(lo: nat, hi: nat)
    requires lo < 256
    ensures (lo + 256 * hi) % 256 == lo && (lo + 256 * hi) / 256 == hi
  {
  }

  lemma SplitLength(length: nat)
    ensures length % 0x1000_0000 + (length / 0x1000_0000) * 0x1000_0000 == length
  {
  }

  lemma SplitBase(base: nat)
    ensures base % 0x1_0000_0000 + (base / 0x1_0000_0000) * 0x1_0000_0000 == base
  {
  }

  /** Decoding the header written by rls_append gives back the entry and its size. */
  lemma DecodeEncoded(w: seq<u32>, i: nat, e: Entry)
    requires EncodedAt(w, i, e)
    ensures Decode(w, i) == Decoded(e, Size(e))
    ensures Size(e) == 2 * EncodingOf(e) + 2
  {
    var enc := Encode(e);
    forall k | 0 <= k < Size(e) ensures Word(w, i + k) == enc[k] {
      assert w[i..i + Size(e)][k] == enc[k];
    }
    if Fits8(e) {
      Decode8(e, Word(w, i + 2), Word(w, i + 3), Word(w, i + 4), Word(w, i + 5));
    } else if Fits16(e) {
      Decode16(e, Word(w, i + 4), Word(w, i + 5));
    } else {
      Decode24(e);
    }
  }

  /** rlist_decode(rls_append(e)) == e, reporting 2, 4 or 6 slots for encodings 0, 1, 2. */
  lemma DecodeEncode(e: Entry)
    ensures Decode(Encode(e), 0) == Decoded(e, Size(e))
    ensures HdrEncoding(Encode(e)[0]) == EncodingOf(e) && Size(e) == 2 * EncodingOf(e) + 2
  {
    DecodeEncoded(Encode(e), 0, e);
  }

  /** The three forms, in rls_append's order of preference. */
  lemma EncodingChoice(e: Entry)
    ensures EncodingOf(e) == ENCODING_8 <==>
      e.length < HDR_LENGTH_LIMIT && e.base < U32_LIMIT && e.offset == 0 && e.extra == 0
    ensures EncodingOf(e) == ENCODING_16 <==>
      !Fits8(e) && e.length < LENGTH16_LIMIT && e.offset < OFFSET16_LIMIT && e.extra == 0
    ensures EncodingOf(e) == ENCODING_24 <==> !Fits8(e) && !Fits16(e)
  {
  }

  // ---- rls_is_end and the walk of rls_reset / rls_next -------------------

  /**
   * Where the end-of-chunk marker END_PAD lives.  lib/rlist.c writes and
   * tests it in the 2-bit `type` field (TypeField), which a stored entry of
   * type 3 also matches; the rest of this model keeps it in the `encoding`
   * field (EncodingField), which no stored entry ever has equal to 3.
   */
  datatype EndField = TypeField | EncodingField

  /** rls_is_end: the slot index reached the chunk's end, or the slot holds END_PAD. */
  predicate IsEnd(w: seq<u32>, idx: nat, f: EndField)
  {
    idx >= |w| ||
    (if f == TypeField then HdrType(w[idx]) else HdrEncoding(w[idx])) == END_PAD
  }

  /** rls_mark_end's store of END_PAD into slot h's marker field. */
  function MarkEnd(h: u32, f: EndField): (r: u32)
    ensures IsEnd([r], 0, f)
  {
    if f == TypeField then SetHdrType(h, END_PAD) else SetHdrEncoding(h, END_PAD)
  }

  /**
   * The entries an iterator standing at slot idx of chunk c returns from
   * here on: rlist_decode of the current slot, then rls_next's step over
   * cur_entry_size slots, to slot 0 of the next chunk when rls_is_end holds;
   * a bad encoding or the end of the chain stops it.
   */
  function RestFrom(ws: seq<seq<u32>>, c: nat, idx: nat, f: EndField): seq<Entry>
    decreases |ws| - c, if c < |ws| then |ws[c]| - idx else 0
  {
    if c >= |ws| then []
    else
      var d := Decode(ws[c], idx);
      if d.size == 0 then []
      else if IsEnd(ws[c], idx + d.size, f) then [d.entry] + RestFrom(ws, c + 1, 0, f)
      else [d.entry] + RestFrom(ws, c, idx + d.size, f)
  }

  /** rlist_for_each_entry from rls_reset: slot 0 of the head chunk first. */
  function Iterate(ws: seq<seq<u32>>, f: EndField): seq<Entry>
  {
    if |ws| == 0 then [] else RestFrom(ws, 0, 0, f)
  }

  // ---- the chunk layout rls_append builds ------------------------------

  /** Slots from i on hold the encodings of es, one after the other. */
  predicate Stored(w: seq<u32>, i: nat, es: seq<Entry>)
    decreases |es|
  {
    es == [] || (EncodedAt(w, i, es[0]) && Stored(w, i + Size(es[0]), es[1..]))
  }

  /** The number of slots es takes. */
  function Used(es: seq<Entry>): nat
    decreases |es|
  {
    if es == [] then 0 else Size(es[0]) + Used(es[1..])
  }

  function Flatten(ls: seq<seq<Entry>>): seq<Entry>
  {
    if ls == [] then [] else ls[0] + Flatten(ls[1..])
  }

  /** No stored entry can be mistaken for END_PAD. */
  predicate Unambiguous(es: seq<Entry>, f: EndField)
  {
    f == EncodingField || forall k | 0 <= k < |es| :: es[k].kind != END_PAD
  }

  /**
   * The chain the append state maintains: chunk k holds the entries
   * layout[k] from slot 0 on (at least one per chunk); every chunk but the
   * last is closed by rls_is_end right after its entries; the current slot
   * index is the first free slot of the last chunk.
   */
  predicate Layout(ws: seq<seq<u32>>, layout: seq<seq<Entry>>, idx: nat, f: EndField)
  {
    |ws| == |layout| &&
    (forall k | 0 <= k < |ws| :: |ws[k]| == CHUNK_SLOTS && layout[k] != [] && Stored(ws[k], 0, layout[k])) &&
    (forall k | 0 <= k < |ws| - 1 :: IsEnd(ws[k], Used(layout[k]), f)) &&
    (|ws| > 0 ==> idx == Used(layout[|ws| - 1]))
  }

  /** The last chunk is closed too, as rls_append_end leaves it. */
  predicate Closed(ws: seq<seq<u32>>, idx: nat, f: EndField)
  {
    |ws| > 0 ==> IsEnd(ws[|ws| - 1], idx, f)
  }

  lemma {:induction false} StoredFits(w: seq<u32>, i: nat, es: seq<Entry>)
    requires Stored(w, i, es)
    ensures i + Used(es) <= |w| || es == []
    decreases |es|
  {
    if es != [] && es[1..] != [] {
      StoredFits(w, i + Size(es[0]), es[1..]);
    }
  }

  /** One step of the walk from an entry rls_append stored. */
  lemma RestFromStep(ws: seq<seq<u32>>, c: nat, i: nat, e: Entry, f: EndField)
    requires c < |ws| && EncodedAt(ws[c], i, e)
    ensures RestFrom(ws, c, i, f) == [e] +
      if IsEnd(ws[c], i + Size(e), f) then RestFrom(ws, c + 1, 0, f) else RestFrom(ws, c, i + Size(e), f)
  {
    DecodeEncoded(ws[c], i, e);
  }

  /** The walk over an entry followed by another in the same chunk. */
  lemma ChunkStep(ws: seq<seq<u32>>, c: nat, i: nat, es: seq<Entry>, f: EndField, tail: seq<Entry>)
    requires c < |ws| && |es| > 1 && EncodedAt(ws[c], i, es[0]) && EncodedAt(ws[c], i + Size(es[0]), es[1])
    requires f == EncodingField || es[1].kind != END_PAD
    requires RestFrom(ws, c, i + Size(es[0]), f) == es[1..] + tail
    ensures RestFrom(ws, c, i, f) == es + tail
  {
    RestFromStep(ws, c, i, es[0], f);
    NotEndAt(ws[c], i + Size(es[0]), es[1], f);
    ConsAppend(es, tail);
  }

  lemma ConsAppend(es: seq<Entry>, tail: seq<Entry>)
    requires es != []
    ensures [es[0]] + (es[1..] + tail) == es + tail
  {
    assert es == [es[0]] + es[1..];
  }

  /** A stored entry is not read as END_PAD (for TypeField, unless its type is 3). */
  lemma NotEndAt(w: seq<u32>, j: nat, e: Entry, f: EndField)
    requires EncodedAt(w, j, e) && (f == EncodingField || e.kind != END_PAD)
    ensures !IsEnd(w, j, f)
  {
    assert w[j] == w[j..j + Size(e)][0];
  }

  /** Within one chunk the walk returns the stored entries, then moves on. */
  lemma {:induction false} RestOfChunk(ws: seq<seq<u32>>, c: nat, i: nat, es: seq<Entry>, f: EndField)
    requires c < |ws| && es != [] && Stored(ws[c], i, es) && Unambiguous(es, f)
    requires IsEnd(ws[c], i + Used(es), f)
    ensures RestFrom(ws, c, i, f) == es + RestFrom(ws, c + 1, 0, f)
    decreases |es|
  {
    StoredCons(ws[c], i, es, f);
    if |es| == 1 {
      RestFromStep(ws, c, i, es[0], f);
    } else {
      RestOfChunk(ws, c, i + Size(es[0]), es[1..], f);
      ChunkStep(ws, c, i, es, f, RestFrom(ws, c + 1, 0, f));
    }
  }

  /** The first entry of a stored run, and the run after it. */
  lemma StoredCons(w: seq<u32>, i: nat, es: seq<Entry>, f: EndField)
    requires es != [] && Stored(w, i, es) && Unambiguous(es, f)
    ensures EncodedAt(w, i, es[0]) && Used(es) == Size(es[0]) + Used(es[1..])
    ensures |es| == 1 ==> Used(es) == Size(es[0]) && es == [es[0]]
    ensures |es| > 1 ==> Stored(w, i + Size(es[0]), es[1..]) && EncodedAt(w, i + Size(es[0]), es[1])
    ensures |es| > 1 ==> Unambiguous(es[1..], f) && (f == EncodingField || es[1].kind != END_PAD)
  {
    if |es| == 1 {
      assert es[1..] == [];
    }
  }

  /** The walk of a closed chain returns every stored entry in order. */
  lemma {:induction false} RestOfChain(ws: seq<seq<u32>>, layout: seq<seq<Entry>>, c: nat, idx: nat, f: EndField)
    requires Layout(ws, layout, idx, f) && Closed(ws, idx, f) && c <= |ws|
    requires forall k | 0 <= k < |layout| :: Unambiguous(layout[k], f)
    ensures RestFrom(ws, c, 0, f) == Flatten(layout[c..])
    decreases |ws| - c
  {
    if c == |ws| {
      assert layout[c..] == [];
    } else {
      RestOfChain(ws, layout, c + 1, idx, f);
      assert IsEnd(ws[c], Used(layout[c]), f);
      RestOfChunk(ws, c, 0, layout[c], f);
      assert layout[c..][1..] == layout[c + 1..];
    }
  }

  /**
   * What was appended is what the iterator returns: a chain built by
   * rls_append and closed by rls_append_end walks back to exactly its
   * entries, in order.
   */
  lemma IterateLayout(ws: seq<seq<u32>>, layout: seq<seq<Entry>>, idx: nat, f: EndField)
    requires Layout(ws, layout, idx, f) && Closed(ws, idx, f)
    requires forall k | 0 <= k < |layout| :: Unambiguous(layout[k], f)
    ensures Iterate(ws, f) == Flatten(layout)
  {
    RestOfChain(ws, layout, 0, idx, f);
    assert layout[0..] == layout;
    if |ws| == 0 {
      assert layout == [];
    }
  }

  // ---- how rls_alloc_entry, rls_append and rls_mark_end change the chain --

  /** w with slots [p, p + |enc|) overwritten by enc. */
  function Splice(w: seq<u32>, p: nat, enc: seq<u32>): (r: seq<u32>)
    requires p + |enc| <= |w|
    ensures |r| == |w|
  {
    w[..p] + enc + w[p + |enc|..]
  }

  /** rls_mark_end: END_PAD into the first free slot of the last chunk, unless it is full. */
  function Mark(ws: seq<seq<u32>>, idx: nat, f: EndField): seq<seq<u32>>
  {
    if |ws| > 0 && idx < |ws[|ws| - 1]| then
      var last: seq<u32> := ws[|ws| - 1];
      var marked: seq<u32> := last[idx := MarkEnd(last[idx], f)];
      ws[|ws| - 1 := marked]
    else ws
  }

  /** rls_mark_end touches the last chunk only. */
  lemma MarkFrame(ws: seq<seq<u32>>, idx: nat, f: EndField)
    ensures |Mark(ws, idx, f)| == |ws|
    ensures forall k | 0 <= k < |ws| - 1 :: Mark(ws, idx, f)[k] == ws[k]
  {
  }

  lemma {:induction false} StoredFrame(w: seq<u32>, w': seq<u32>, i: nat, es: seq<Entry>)
    requires Stored(w, i, es) && |w'| == |w|
    requires forall k | i <= k < i + Used(es) && k < |w| :: w'[k] == w[k]
    ensures Stored(w', i, es)
    decreases |es|
  {
    if es != [] {
      var n := Size(es[0]);
      assert w'[i..i + n] == w[i..i + n];
      StoredFrame(w, w', i + n, es[1..]);
    }
  }

  lemma {:induction false} StoredSnoc(w: seq<u32>, i: nat, es: seq<Entry>, e: Entry)
    requires Stored(w, i, es) && EncodedAt(w, i + Used(es), e)
    ensures Stored(w, i, es + [e]) && Used(es + [e]) == Used(es) + Size(e)
    decreases |es|
  {
    if es == [] {
      assert [e][1..] == [];
    } else {
      var n := Size(es[0]);
      SnocTail(es, e);
      assert Used(es) == n + Used(es[1..]);
      StoredSnoc(w, i + n, es[1..], e);
      assert Stored(w, i + n, (es + [e])[1..]);
    }
  }

  lemma SnocTail(es: seq<Entry>, e: Entry)
    requires es != []
    ensures (es + [e])[0] == es[0] && (es + [e])[1..] == es[1..] + [e]
  {
  }

  lemma {:induction false} FlattenSnoc(ls: seq<seq<Entry>>, x: seq<Entry>)
    ensures Flatten(ls + [x]) == Flatten(ls) + x
    decreases |ls|
  {
    if ls == [] {
      assert [x][1..] == [];
    } else {
      assert (ls + [x])[1..] == ls[1..] + [x];
      FlattenSnoc(ls[1..], x);
    }
  }

  lemma FlattenLast(ls: seq<seq<Entry>>, e: Entry)
    requires ls != []
    ensures Flatten(ls[|ls| - 1 := ls[|ls| - 1] + [e]]) == Flatten(ls) + [e]
  {
    var n := |ls| - 1;
    assert ls == ls[..n] + [ls[n]];
    assert ls[n := ls[n] + [e]] == ls[..n] + [ls[n] + [e]];
    FlattenSnoc(ls[..n], ls[n]);
    FlattenSnoc(ls[..n], ls[n] + [e]);
  }

  /** Writing e at the first free slot of the last chunk extends its entries by e. */
  lemma LayoutInPlace(ws: seq<seq<u32>>, layout: seq<seq<Entry>>, idx: nat, e: Entry, f: EndField)
    requires Layout(ws, layout, idx, f) && |ws| > 0 && idx + Size(e) <= CHUNK_SLOTS
    ensures Layout(ws[|ws| - 1 := Splice(ws[|ws| - 1], idx, Encode(e))],
                   layout[|ws| - 1 := layout[|ws| - 1] + [e]], idx + Size(e), f)
    ensures Flatten(layout[|ws| - 1 := layout[|ws| - 1] + [e]]) == Flatten(layout) + [e]
  {
    var n := |ws| - 1;
    var w' := Splice(ws[n], idx, Encode(e));
    var l' := layout[n] + [e];
    ChunkInPlace(ws[n], layout[n], idx, e);
    var ws' := ws[n := w'];
    var layout' := layout[n := l'];
    forall k | 0 <= k < |ws'|
      ensures |ws'[k]| == CHUNK_SLOTS && layout'[k] != [] && Stored(ws'[k], 0, layout'[k])
    {
      if k != n {
        assert ws'[k] == ws[k] && layout'[k] == layout[k];
      }
    }
    forall k | 0 <= k < |ws'| - 1
      ensures IsEnd(ws'[k], Used(layout'[k]), f)
    {
      assert ws'[k] == ws[k] && layout'[k] == layout[k];
    }
    FlattenLast(layout, e);
  }

  lemma ChunkInPlace(w: seq<u32>, es: seq<Entry>, idx: nat, e: Entry)
    requires Stored(w, 0, es) && idx == Used(es) && idx + Size(e) <= |w|
    ensures Stored(Splice(w, idx, Encode(e)), 0, es + [e]) && Used(es + [e]) == idx + Size(e)
  {
    var w' := Splice(w, idx, Encode(e));
    StoredFrame(w, w', 0, es);
    assert w'[idx..idx + Size(e)] == Encode(e);
    StoredSnoc(w', 0, es, e);
  }

  /** Marking the end keeps every entry and closes the last chunk. */
  lemma LayoutMark(ws: seq<seq<u32>>, layout: seq<seq<Entry>>, idx: nat, f: EndField)
    requires Layout(ws, layout, idx, f)
    ensures Layout(Mark(ws, idx, f), layout, idx, f) && Closed(Mark(ws, idx, f), idx, f)
  {
    if |ws| > 0 {
      var n := |ws| - 1;
      StoredFits(ws[n], 0, layout[n]);
      if idx < |ws[n]| {
        var w': seq<u32> := ws[n][idx := MarkEnd(ws[n][idx], f)];
        StoredFrame(ws[n], w', 0, layout[n]);
        assert IsEnd([w'[idx]], 0, f);
      }
    }
  }

  /** A fresh chunk holding just e, linked after a closed chain. */
  lemma LayoutNewChunk(ws: seq<seq<u32>>, layout: seq<seq<Entry>>, idx: nat, e: Entry,
                       stale: seq<u32>, f: EndField)
    requires Layout(ws, layout, idx, f) && Closed(ws, idx, f) && |stale| == CHUNK_SLOTS
    ensures Layout(ws + [Splice(stale, 0, Encode(e))], layout + [[e]], Size(e), f)
    ensures Flatten(layout + [[e]]) == Flatten(layout) + [e]
  {
    var w' := Splice(stale, 0, Encode(e));
    assert w'[0..Size(e)] == Encode(e);
    StoredSnoc(w', 0, [], e);
    assert [] + [e] == [e];
    FlattenSnoc(layout, [e]);
    var ws' := ws + [w'];
    var layout' := layout + [[e]];
    forall k | 0 <= k < |ws'| - 1
      ensures IsEnd(ws'[k], Used(layout'[k]), f)
    {
      assert ws'[k] == ws[k] && layout'[k] == layout[k];
    }
  }

  // ---- rlist_empty ------------------------------------------------------

  /**
   * rlist_empty as written: true for a NULL head, else what rls_reset
   * returns, which is true exactly when the head chunk starts with a
   * decodable entry.
   */
  predicate EmptyAsWritten(ws: seq<seq<u32>>)
  {
    |ws| == 0 || Decode(ws[0], 0).size != 0
  }

  /** Any list rls_append built reports itself empty. */
  lemma EmptyAsWrittenInverted(ws: seq<seq<u32>>, layout: seq<seq<Entry>>, idx: nat, f: EndField)
    requires Layout(ws, layout, idx, f) && |ws| > 0
    ensures EmptyAsWritten(ws) && Iterate(ws, f) != []
  {
    DecodeEncoded(ws[0], 0, layout[0][0]);
  }

  // ---- END_PAD against a stored type 3 ----------------------------------

  /**
   * With END_PAD in the type field, a second entry of type 3 (the type
   * rlist_cpu gives to PFN-encoded folios) in a chunk reads as the end of
   * that chunk: of two such entries appended and closed, the iterator
   * returns one.
   */
  lemma TypeFieldDropsType3(stale: seq<u32>)
    requires |stale| == CHUNK_SLOTS
    ensures var e := Entry(3, 1, 0, 0, 0);
            var w1 := Splice(stale, 0, Encode(e));
            var ws := Mark([Splice(w1, 2, Encode(e))], 4, TypeField);
            Layout(ws, [[e, e]], 4, TypeField) && Closed(ws, 4, TypeField) &&
            Iterate(ws, TypeField) == [e]
  {
    var e := Entry(3, 1, 0, 0, 0);
    assert Size(e) == 2;
    LayoutNewChunk([], [], 0, e, stale, TypeField);
    var w1 := Splice(stale, 0, Encode(e));
    assert [] + [Splice(stale, 0, Encode(e))] == [w1];
    assert [] + [[e]] == [[e]];
    LayoutInPlace([w1], [[e]], 2, e, TypeField);
    var w2 := Splice(w1, 2, Encode(e));
    assert [w1][0 := w2] == [w2];
    assert [e] + [e] == [e, e];
    assert [[e]][0 := [e] + [e]] == [[e, e]];
    LayoutMark([w2], [[e, e]], 4, TypeField);
    var ws := Mark([w2], 4, TypeField);
    var w := ws[0];
    assert Stored(w, 0, [e, e]);
    DecodeEncoded(w, 0, e);
    assert EncodedAt(w, 2, e) by { assert [e, e][1..] == [e]; }
    assert w[2] == Encode(e)[0];
    assert IsEnd(w, 2, TypeField);
    assert RestFrom(ws, 1, 0, TypeField) == [];
  }

  // ---- struct rlist ------------------------------------------------------

  /** struct rlist: the chain from head, one 126-slot array per chunk. */

  /** The walk below the cursor of rls_next: what is left after the current entry. */
  lemma NextCursor(ws: seq<seq<u32>>, c: nat, idx: nat, size: nat)
    requires c < |ws| && size != 0 && size == Decode(ws[c], idx).size
    ensures RestFrom(ws, c, idx, EncodingField) != []
    ensures IsEnd(ws[c], idx + size, EncodingField) && c + 1 == |ws| ==>
      RestFrom(ws, c, idx, EncodingField)[1..] == []
    ensures IsEnd(ws[c], idx + size, EncodingField) && c + 1 < |ws| ==>
      RestFrom(ws, c, idx, EncodingField)[1..] == RestFrom(ws, c + 1, 0, EncodingField)
    ensures !IsEnd(ws[c], idx + size, EncodingField) ==>
      RestFrom(ws, c, idx, EncodingField)[1..] == RestFrom(ws, c, idx + size, EncodingField)
  {
    var d := Decode(ws[c], idx);
    var tail := if IsEnd(ws[c], idx + size, EncodingField) then RestFrom(ws, c + 1, 0, EncodingField)
      else RestFrom(ws, c, idx + size, EncodingField);
    assert RestFrom(ws, c, idx, EncodingField) == [d.entry] + tail;
    TailOfCons(d.entry, tail);
  }

  /** The walk from a cursor starts with what rlist_decode reads there, if anything. */
  lemma HeadOfRest(ws: seq<seq<u32>>, c: nat, idx: nat)
    requires c < |ws|
    ensures RestFrom(ws, c, idx, EncodingField) != [] <==> Decode(ws[c], idx).size != 0
    ensures Decode(ws[c], idx).size != 0 ==> RestFrom(ws, c, idx, EncodingField)[0] == Decode(ws[c], idx).entry
  {
  }

  lemma TailOfCons(x: Entry, tail: seq<Entry>)
    ensures ([x] + tail)[1..] == tail && [x] + tail != []
  {
  }

  lemma PositionStep(es: seq<Entry>, e: Entry, p: nat)
    requires p == Wrap64(SumLen(es))
    ensures Wrap64(p + e.length) == Wrap64(SumLen(es + [e]))
  {
    assert (es + [e])[..|es|] == es;
  }

  lemma SnocRest<T>(es: seq<T>, rest: seq<T>, all: seq<T>)
    requires all == es + rest && rest != []
    ensures all == (es + [rest[0]]) + rest[1..]
  {
    assert rest == [rest[0]] + rest[1..];
  }
}
