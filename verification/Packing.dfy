/** The first word of a `Storage` value on a 64-bit little-endian machine. Its two low bits name the
    encoding; above them lies the offset of a shared window, or, for inline bytes, a six-bit length
    in the lowest byte and data in the seven bytes above. */
module Packing {

  const KIND_STEXT: bv64 := 0
  const KIND_VEC: bv64 := 1
  const KIND_INLINE: bv64 := 2
  const KIND_STATIC: bv64 := 3
  const KIND_MASK: bv64 := 3
  const INLINE_LEN_MASK: bv64 := 0xFC
  const DATA_MASK: bv64 := 0xFFFF_FFFF_FFFF_FF00
  const MAX_OFFSET: bv64 := 0x4000_0000_0000_0000

  function Kind(w: bv64): bv64 {
    w & KIND_MASK
  }

  function InlineLen(w: bv64): bv64 {
    (w & INLINE_LEN_MASK) >> 2
  }

  function VecOffset(w: bv64): bv64 {
    w >> 2
  }

  /** An offset below 2^62 survives packing, and the word reads as shared storage. */
  function PackVec(offset: bv64): (w: bv64)
    requires offset < MAX_OFFSET
    ensures Kind(w) == KIND_VEC && VecOffset(w) == offset
  {
    (offset << 2) ^ KIND_VEC
  }

  /** `set_start` on a shared window moves the packed offset and keeps the kind. */
  function AdvanceVec(w: bv64, start: bv64): (r: bv64)
    requires Kind(w) == KIND_VEC && start < MAX_OFFSET && VecOffset(w) + start < MAX_OFFSET
    ensures Kind(r) == KIND_VEC && VecOffset(r) == VecOffset(w) + start
  {
    PackVec(VecOffset(w) + start)
  }

  /** Setting the inline length touches neither the kind nor the seven data bytes of the word. */
  function SetInlineLen(w: bv64, len: bv64): (r: bv64)
    requires len <= 23
    ensures InlineLen(r) == len
    ensures Kind(r) == Kind(w)
    ensures r & DATA_MASK == w & DATA_MASK
  {
    InlineLenReads(w, len);
    InlineLenKeepsRest(w, len);
    (w & !INLINE_LEN_MASK) | (len << 2)
  }

  lemma InlineLenReads(w: bv64, len: bv64)
    requires len <= 23
    ensures InlineLen((w & !INLINE_LEN_MASK) | (len << 2)) == len
  {
  }

  lemma InlineLenKeepsRest(w: bv64, len: bv64)
    requires len <= 23
    ensures Kind((w & !INLINE_LEN_MASK) | (len << 2)) == Kind(w)
    ensures ((w & !INLINE_LEN_MASK) | (len << 2)) & DATA_MASK == w & DATA_MASK
  {
  }

  /** A vtable address, being word aligned, reads as external storage, and no two kinds are confused. */
  lemma KindsDistinct(vtable: bv64, offset: bv64, w: bv64, len: bv64)
    requires vtable & 7 == 0 && offset < MAX_OFFSET && len <= 23
    ensures Kind(vtable) == KIND_STEXT
    ensures vtable != PackVec(offset) && vtable != SetInlineLen(KIND_INLINE | (w << 8), len)
    ensures PackVec(offset) != SetInlineLen(KIND_INLINE | (w << 8), len)
    ensures Kind(SetInlineLen(KIND_INLINE | (w << 8), len)) == KIND_INLINE
    ensures KIND_STATIC != vtable && KIND_STATIC != PackVec(offset)
    ensures KIND_STATIC != SetInlineLen(KIND_INLINE | (w << 8), len) && Kind(KIND_STATIC) == KIND_STATIC
  {
  }
}
