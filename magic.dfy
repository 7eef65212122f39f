/**
 * Signature gates of the `aamp`, `byml` and `sarc` decoders: an optional
 * Yaz0 unwrap followed by a comparison of the leading magic bytes.
 */
module Magic {
  import opened Wrappers

  newtype byte = x: int | 0 <= x < 256
  type Bytes = seq<byte>

  /**
   * `oead.yaz0.decompress`, left uninterpreted. `None` stands for the
   * RuntimeError it raises on a malformed stream.
   */
  type Decompressor = Bytes -> Option<Bytes>

  const YAZ0: Bytes := [0x59, 0x61, 0x7A, 0x30]  // "Yaz0"
  const AAMP: Bytes := [0x41, 0x41, 0x4D, 0x50]  // "AAMP"
  const SARC: Bytes := [0x53, 0x41, 0x52, 0x43]  // "SARC"
  const BY: Bytes := [0x42, 0x59]                // "BY", big-endian BYML
  const YB: Bytes := [0x59, 0x42]                // "YB", little-endian BYML

  /** The outcome of a gate: the payload to decode, or why the file was skipped. */
  datatype Verdict =
    | Accepted(payload: Bytes)
    | WrongMagic        // warning, early return
    | TooShort          // SARC only: missing buffer or fewer than 4 bytes
    | DecompressFailed  // RuntimeError from the Yaz0 decompressor, caught by the decoder

  /** The reference notion: `s` begins with the marker `m`. */
  predicate StartsWith(s: Bytes, m: Bytes)
  {
    |m| <= |s| && s[..|m|] == m
  }

  /** Python's slice `data[0:n]`: it is cut short, never an error, on a short buffer. */
  function Head(data: Bytes, n: nat): (r: Bytes)
    ensures |r| == if |data| < n then |data| else n
    ensures r == data[..|r|]
  {
    if |data| < n then data else data[..n]
  }

  /** Comparing a Python slice with a marker is the same as a prefix test. */
  lemma HeadIsStartsWith(m: Bytes)
    ensures forall s :: Head(s, |m|) == m <==> StartsWith(s, m)
  {
    forall s ensures Head(s, |m|) == m <==> StartsWith(s, m) {
      if |s| < |m| {
        assert |Head(s, |m|)| < |m|;
      }
    }
  }

  /** The buffer the magic check looks at: decompressed when it carries the Yaz0 marker. */
  function Unwrap(data: Bytes, yaz0: Decompressor): (r: Option<Bytes>)
    ensures !StartsWith(data, YAZ0) ==> r == Some(data)
    ensures StartsWith(data, YAZ0) ==> r == yaz0(data)
  {
    HeadIsStartsWith(YAZ0);
    if Head(data, 4) == YAZ0 then yaz0(data) else Some(data)
  }

  predicate IsAamp(p: Bytes)
  {
    Head(p, 4) == AAMP
  }

  /** `data[0:2] != b"BY" and data[0:2] != b"YB"` rejects, so either marker is accepted. */
  predicate IsByml(p: Bytes)
  {
    !(Head(p, 2) != BY && Head(p, 2) != YB)
  }

  predicate IsSarc(p: Bytes)
  {
    Head(p, 4) == SARC
  }

  /** The shape shared by the three gates: unwrap, then test the magic. */
  function Gate(data: Bytes, yaz0: Decompressor, accepts: Bytes -> bool): Verdict
  {
    match Unwrap(data, yaz0)
    case None => DecompressFailed
    case Some(p) => if accepts(p) then Accepted(p) else WrongMagic
  }

  /** The gate of `aamp`. */
  function AampGate(data: Bytes, yaz0: Decompressor): (v: Verdict)
    ensures v != TooShort
    ensures v == DecompressFailed <==> StartsWith(data, YAZ0) && yaz0(data).None?
    ensures !StartsWith(data, YAZ0) ==>
      v == if StartsWith(data, AAMP) then Accepted(data) else WrongMagic
    ensures StartsWith(data, YAZ0) && yaz0(data).Some? ==>
      v == if StartsWith(yaz0(data).value, AAMP) then Accepted(yaz0(data).value) else WrongMagic
  {
    HeadIsStartsWith(AAMP);
    Gate(data, yaz0, IsAamp)
  }

  /** The gate of `byml`: either byte-order marker passes, even on a 2- or 3-byte buffer. */
  function BymlGate(data: Bytes, yaz0: Decompressor): (v: Verdict)
    ensures v != TooShort
    ensures v == DecompressFailed <==> StartsWith(data, YAZ0) && yaz0(data).None?
    ensures !StartsWith(data, YAZ0) ==>
      v == if StartsWith(data, BY) || StartsWith(data, YB) then Accepted(data) else WrongMagic
    ensures StartsWith(data, YAZ0) && yaz0(data).Some? ==>
      var p := yaz0(data).value;
      v == if StartsWith(p, BY) || StartsWith(p, YB) then Accepted(p) else WrongMagic
  {
    HeadIsStartsWith(BY);
    HeadIsStartsWith(YB);
    Gate(data, yaz0, IsByml)
  }

  /**
   * The gate of `sarc`. `None` is the missing buffer of the `data == None`
   * test; it and a buffer under 4 bytes are refused before any decompression.
   */
  function SarcGate(data: Option<Bytes>, yaz0: Decompressor): (v: Verdict)
    ensures v == TooShort <==> data.None? || |data.value| < 4
    ensures v == DecompressFailed <==>
      data.Some? && StartsWith(data.value, YAZ0) && yaz0(data.value).None?
    ensures data.Some? && 4 <= |data.value| && !StartsWith(data.value, YAZ0) ==>
      v == if StartsWith(data.value, SARC) then Accepted(data.value) else WrongMagic
    ensures data.Some? && StartsWith(data.value, YAZ0) && yaz0(data.value).Some? ==>
      var p := yaz0(data.value).value;
      v == if StartsWith(p, SARC) then Accepted(p) else WrongMagic
  {
    if data.None? || |data.value| < 4 then
      TooShort
    else
      HeadIsStartsWith(SARC);
      Gate(data.value, yaz0, IsSarc)
  }

  /** Whatever any gate passes on carries the magic it was checked for. */
  lemma AcceptedCarriesMagic(data: Bytes, yaz0: Decompressor)
    ensures AampGate(data, yaz0).Accepted? ==> StartsWith(AampGate(data, yaz0).payload, AAMP)
    ensures BymlGate(data, yaz0).Accepted? ==>
      var p := BymlGate(data, yaz0).payload;
      StartsWith(p, BY) || StartsWith(p, YB)
    ensures SarcGate(Some(data), yaz0).Accepted? ==> StartsWith(SarcGate(Some(data), yaz0).payload, SARC)
  {
  }

  /**
   * A buffer that already starts with a decoder's own magic is accepted as it
   * is, whatever the decompressor: no format magic begins with "Yaz0".
   */
  lemma PlainMagicIsAcceptedAsIs(data: Bytes, yaz0: Decompressor)
    ensures StartsWith(data, AAMP) ==> AampGate(data, yaz0) == Accepted(data)
    ensures StartsWith(data, BY) || StartsWith(data, YB) ==> BymlGate(data, yaz0) == Accepted(data)
    ensures StartsWith(data, SARC) ==> SarcGate(Some(data), yaz0) == Accepted(data)
  {
    if StartsWith(data, AAMP) || StartsWith(data, SARC) || StartsWith(data, BY) || StartsWith(data, YB) {
      // the second byte is 'A', 'Y' or 'B', never the 'a' of "Yaz0"
      assert data[1] == data[..2][1];
      assert !StartsWith(data, YAZ0);
    }
  }

  /**
   * The SARC length test comes before the decompressor: a short or missing
   * buffer gets the same verdict whatever the decompressor would do.
   */
  lemma SarcShortIgnoresDecompressor(data: Option<Bytes>, y1: Decompressor, y2: Decompressor)
    requires data.None? || |data.value| < 4
    ensures SarcGate(data, y1) == SarcGate(data, y2) == TooShort
  {
  }

  /** Fewer than two bytes can never pass as BYML, and an empty buffer passes no gate. */
  lemma ShortBuffersRejected(data: Bytes, yaz0: Decompressor)
    ensures |data| < 2 ==> BymlGate(data, yaz0) == WrongMagic
    ensures |data| < 4 ==> AampGate(data, yaz0) == WrongMagic
    ensures |data| < 4 ==> SarcGate(Some(data), yaz0) == TooShort
  {
  }
}
