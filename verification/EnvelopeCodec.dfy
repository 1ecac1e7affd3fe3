/**
 The envelope column: `[keyIdLen u8][keyId][wrappedDataKeyLen u16][wrappedDataKey][ciphertext]`, lengths
 big-endian. The key id is its UTF-8 bytes.
 */
module EnvelopeCodec {
  type Byte = x: int | 0 <= x < 256

  datatype Envelope = Envelope(keyId: seq<Byte>, wrappedDataKey: seq<Byte>, ciphertext: seq<Byte>)

  datatype PackResult = Packed(bytes: seq<Byte>) | KeyIdTooLong | WrappedDataKeyTooLong

  datatype UnpackResult = Unpacked(envelope: Envelope) | EmptyBlob | TruncatedHeader | TruncatedWrappedDataKey

  const MAX_KEY_ID_LEN := 0xff
  const MAX_WDK_LEN := 0xffff

  predicate Fits(e: Envelope) {
    |e.keyId| <= MAX_KEY_ID_LEN && |e.wrappedDataKey| <= MAX_WDK_LEN
  }

  function Layout(e: Envelope): seq<Byte>
    requires Fits(e)
  {
    [|e.keyId|] + e.keyId + [|e.wrappedDataKey| / 256, |e.wrappedDataKey| % 256] + e.wrappedDataKey + e.ciphertext
  }

  /** `packEnvelope`: the header is filled in place, then the three buffers are joined. */
  method PackEnvelope(e: Envelope) returns (r: PackResult)
    ensures |e.keyId| > MAX_KEY_ID_LEN ==> r == KeyIdTooLong
    ensures |e.keyId| <= MAX_KEY_ID_LEN && |e.wrappedDataKey| > MAX_WDK_LEN ==> r == WrappedDataKeyTooLong
    ensures Fits(e) ==> r == Packed(Layout(e))
  {
    if |e.keyId| > MAX_KEY_ID_LEN {
      return KeyIdTooLong;
    }
    if |e.wrappedDataKey| > MAX_WDK_LEN {
      return WrappedDataKeyTooLong;
    }
    var k, n := |e.keyId|, |e.wrappedDataKey|;
    var header := new Byte[1 + k + 2](_ => 0);
    header[0] := k;
    for i := 0 to k
      invariant header[0] == k && header[1..1 + i] == e.keyId[..i]
    {
      header[1 + i] := e.keyId[i];
    }
    header[1 + k], header[1 + k + 1] := n / 256, n % 256;
    assert header[..] == [header[0]] + header[1..1 + k] + [header[1 + k], header[1 + k + 1]];
    return Packed(header[..] + e.wrappedDataKey + e.ciphertext);
  }

  function UInt16BE(b: seq<Byte>, offset: nat): nat
    requires offset + 1 < |b|
  {
    256 * (b[offset] as int) + b[offset + 1] as int
  }

  /** What a blob says, by absolute position. */
  function Parsed(b: seq<Byte>): UnpackResult {
    if b == [] then EmptyBlob
    else
      var k: int := b[0];
      if |b| < 3 + k then TruncatedHeader
      else
        var n := UInt16BE(b, 1 + k);
        if |b| < 3 + k + n then TruncatedWrappedDataKey
        else Unpacked(Envelope(b[1..1 + k], b[3 + k..3 + k + n], b[3 + k + n..]))
  }

  /** `unpackEnvelope`, reading forward from `offset`; each error exactly when the bytes run out there. */
  method UnpackEnvelope(packed: seq<Byte>) returns (r: UnpackResult)
    ensures r == Parsed(packed)
  {
    if |packed| < 1 {
      return EmptyBlob;
    }
    var keyIdLen: int := packed[0];
    var offset := 1;
    if |packed| < offset + keyIdLen + 2 {
      return TruncatedHeader;
    }
    var keyId := packed[offset..offset + keyIdLen];
    offset := offset + keyIdLen;
    var wdkLen := UInt16BE(packed, offset);
    offset := offset + 2;
    if |packed| < offset + wdkLen {
      return TruncatedWrappedDataKey;
    }
    var wrappedDataKey := packed[offset..offset + wdkLen];
    offset := offset + wdkLen;
    return Unpacked(Envelope(keyId, wrappedDataKey, packed[offset..]));
  }

  lemma LayoutParts(e: Envelope)
    requires Fits(e)
    ensures var b, k, n := Layout(e), |e.keyId|, |e.wrappedDataKey|;
            && |b| == 3 + k + n + |e.ciphertext| && b[0] == k && b[1..1 + k] == e.keyId
            && b[1 + k] == n / 256 && b[2 + k] == n % 256
            && b[3 + k..3 + k + n] == e.wrappedDataKey && b[3 + k + n..] == e.ciphertext
  {
    var b, k, n := Layout(e), |e.keyId|, |e.wrappedDataKey|;
    var header := [k] + e.keyId + [n / 256, n % 256];
    assert b == header + (e.wrappedDataKey + e.ciphertext);
  }

  /** Unpacking what was packed gives the envelope back. */
  lemma UnpackPacked(e: Envelope)
    requires Fits(e)
    ensures Parsed(Layout(e)) == Unpacked(e)
  {
    LayoutParts(e);
  }

  /** Every blob that unpacks is the packing of what it unpacks to, so no two blobs mean the same envelope. */
  lemma PackUnpacked(b: seq<Byte>)
    requires Parsed(b).Unpacked?
    ensures Fits(Parsed(b).envelope) && Layout(Parsed(b).envelope) == b
  {
    var k: int := b[0];
    var n := UInt16BE(b, 1 + k);
    assert [n / 256, n % 256] == b[1 + k..3 + k];
    assert b == [k] + b[1..1 + k] + b[1 + k..3 + k] + b[3 + k..3 + k + n] + b[3 + k + n..];
  }

  /** Cutting a packed envelope anywhere before its ciphertext is noticed. */
  lemma TruncationIsNoticed(e: Envelope, n: nat)
    requires Fits(e) && n < 3 + |e.keyId| + |e.wrappedDataKey|
    ensures !Parsed(Layout(e)[..n]).Unpacked?
  {
    LayoutParts(e);
    var b, c := Layout(e), Layout(e)[..n];
    assert n > 0 ==> c[0] == b[0];
    assert n >= 3 + |e.keyId| ==> c[1 + |e.keyId|] == b[1 + |e.keyId|] && c[2 + |e.keyId|] == b[2 + |e.keyId|];
  }
}
