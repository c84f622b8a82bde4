/** Transparent compression. The gzip library is a parameter; its laws are premises. */
module Compression {
  import opened Machine

  datatype Gzip = Gzip(compress: Bytes -> Bytes, decompress: Bytes -> Option<Bytes>)

  predicate IsGzipped(data: Bytes) {
    |data| >= 2 && data[0] == 0x1f && data[1] == 0x8b
  }

  /** What RFC 1952 promises of a writer and a reader: the magic bytes and the round trip. */
  ghost predicate Lawful(g: Gzip) {
    forall p: Bytes :: IsGzipped(g.compress(p)) && g.decompress(g.compress(p)) == Some(p)
  }

  function MaybeCompress(g: Gzip, data: Bytes, threshold: int): Bytes {
    if threshold <= 0 || |data| < threshold then data else g.compress(data)
  }

  function MaybeDecompress(g: Gzip, data: Bytes): Option<Bytes> {
    if !IsGzipped(data) then Some(data) else g.decompress(data)
  }

  /** The magic bytes ID1 and ID2 of section 2.3.1 of RFC 1952, and nothing else. */
  lemma MagicIs(data: Bytes)
    ensures IsGzipped(data) <==> [31, 139] <= data
  {
    assert IsGzipped(data) ==> data[..2] == [31, 139];
  }

  /**
   What is written: a payload below the threshold, or any when the threshold is not positive,
   as it is; every other one in gzip form, which for a payload that does not itself start
   with the magic bytes is never the payload.
   */
  lemma CompressedFromThreshold(g: Gzip, payload: Bytes, threshold: int)
    requires Lawful(g)
    ensures var stored := MaybeCompress(g, payload, threshold);
            && (threshold <= 0 || |payload| < threshold ==> stored == payload)
            && (threshold > 0 && |payload| >= threshold ==> stored == g.compress(payload) && IsGzipped(stored))
            && (!IsGzipped(payload) ==>
                 && (stored == payload <==> threshold <= 0 || |payload| < threshold)
                 && (IsGzipped(stored) <==> threshold > 0 && |payload| >= threshold))
  {
  }

  /**
   Reading back what was written gives the payload, unless the payload was left
   uncompressed and itself starts with the magic bytes: then it is taken for compressed.
   */
  lemma CompressionRoundTrip(g: Gzip, payload: Bytes, threshold: int)
    requires Lawful(g)
    ensures var taken := IsGzipped(payload) && !(0 < threshold <= |payload|);
            MaybeDecompress(g, MaybeCompress(g, payload, threshold)) ==
            if taken then g.decompress(payload) else Some(payload)
  {
  }

  /** Such a payload exists for every lawful gzip: what it compressed itself comes back unwrapped. */
  lemma GzippedPayloadIsUnwrapped(g: Gzip, inner: Bytes)
    requires Lawful(g)
    ensures MaybeDecompress(g, MaybeCompress(g, g.compress(inner), 0)) == Some(inner)
  {
  }
}
