/** What the skipper accepts, and what the decoder accepts and makes of it. */
module Decoding {
  import opened Wrappers
  import opened Words
  import opened Varint
  import opened Wire
  import opened Grammar
  import opened Codec

  /** The skipper succeeds within its input exactly when a well-formed field stands at the start of it, and returns
      the length of that field. */
  lemma SkipIsOneField(s: seq<u8>)
    requires IsSlice(s)
    ensures var r := Skip(SkipItem, s, 0, 0);
            && (r.err.None? && r.end <= |s| <==> exists f :: StartsWithField(s, f))
            && (forall f :: StartsWithField(s, f) ==> r == Skipped(|Bytes(f)|, None))
  {
    SkipsOneField(SkipItem, s);
  }

  /** The decoder succeeds exactly on the concatenations of legal fields, and merges those fields. */
  lemma UnmarshalMergesFields(s: seq<u8>, m: Msg)
    requires IsSlice(s)
    ensures Unmarshaled(s, m).err.None? <==> exists fs :: AllLegal(fs) && AllBytes(fs) == s
    ensures forall fs :: AllLegal(fs) && AllBytes(fs) == s ==> Unmarshaled(s, m) == Decoded(MergeAll(m, fs), None)
  {
    DecodesFields(DecodeField, s, m);
  }
}
