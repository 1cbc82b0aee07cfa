/**
 * The format sniff run on the first 24 bytes of a download: the PEM boundary
 * of a CRL (section 6 of RFC 7468) or the start of a DER CertificateList
 * (section 5 of RFC 5280), a SEQUENCE whose length takes the long form with
 * two or three length octets (ITU-T X.690, section 8.1.3.5).
 */
module CrlFormat {
  import opened Streams

  /** Number of bytes read before the sniff. */
  const HeadSize: nat := 24

  const X509CRLPEMHeader: string := "-----BEGIN X509 CRL-----"

  /** The ASCII bytes of X509CRLPEMHeader. */
  const PemHeader: seq<byte> := [
    0x2D, 0x2D, 0x2D, 0x2D, 0x2D,           // -----
    0x42, 0x45, 0x47, 0x49, 0x4E, 0x20,     // BEGIN
    0x58, 0x35, 0x30, 0x39, 0x20,           // X509
    0x43, 0x52, 0x4C,                       // CRL
    0x2D, 0x2D, 0x2D, 0x2D, 0x2D]           // -----

  /** Identifier octet of a universal, constructed SEQUENCE (X.690 8.9). */
  const SequenceTag: byte := 0x30

  /**
   * How many length octets follow an initial length octet in the long form
   * (X.690 8.1.3.5: bit 8 set, bits 7 to 1 the count); -1 for the short form.
   */
  function LongFormCount(b: byte): (k: int)
    ensures -1 <= k < 128
  {
    if b >= 0x80 then b as int - 0x80 else -1
  }

  /** The bytes of a string whose characters are all below 256, one per character. */
  function Latin1(s: string): (r: seq<byte>)
    requires forall i :: 0 <= i < |s| ==> s[i] as int < 256
    ensures |r| == |s| && forall i :: 0 <= i < |s| ==> r[i] as int == s[i] as int
  {
    seq(|s|, i requires 0 <= i < |s| => s[i] as int as byte)
  }

  lemma PemHeaderIsAscii()
    ensures Latin1(X509CRLPEMHeader) == PemHeader && |PemHeader| == HeadSize
  {
  }

  /** isCRL (cmd/crl-updater/main.go, and identically crl-updater.go). */
  function IsCRL(b: seq<byte>): (r: bool)
    requires |b| >= 2
    ensures r <==> b == PemHeader || (b[0] == SequenceTag && 2 <= LongFormCount(b[1]) <= 3)
  {
    b == PemHeader || (b[0] == 0x30 && (b[1] == 0x82 || b[1] == 0x83))
  }

  function Pow256(k: nat): (p: nat)
    ensures p >= 1
  {
    if k == 0 then 1 else 256 * Pow256(k - 1)
  }

  /** The minimal big-endian base-256 digits of n: no leading zero octet. */
  function BigEndian(n: nat): (r: seq<byte>)
    ensures n > 0 ==> |r| > 0 && r[0] != 0
    ensures n == 0 ==> r == []
  {
    if n == 0 then [] else BigEndian(n / 256) + [(n % 256) as byte]
  }

  /** BigEndian(n) has at most k octets exactly when n < 256^k. */
  lemma {:induction false} BigEndianLength(n: nat, k: nat)
    ensures |BigEndian(n)| <= k <==> n < Pow256(k)
  {
    if n > 0 {
      if k > 0 {
        BigEndianLength(n / 256, k - 1);
        assert n / 256 < Pow256(k - 1) <==> n < 256 * Pow256(k - 1);
      }
    }
  }

  /** The DER definite-form length octets of a content length (X.690 8.1.3.3-8.1.3.5, 10.1). */
  function LengthOctets(len: nat): (r: seq<byte>)
    requires len < Pow256(126)
    ensures |r| >= 1
  {
    if len < 128 then [len as byte]
    else
      BigEndianLength(len, 126);
      [(0x80 + |BigEndian(len)|) as byte] + BigEndian(len)
  }

  /** A head that opens with a SEQUENCE tag is not the PEM boundary, so only its length octet decides. */
  lemma SequenceHeadSniff(head: seq<byte>)
    requires |head| == HeadSize && head[0] == SequenceTag
    ensures IsCRL(head) <==> 2 <= LongFormCount(head[1]) <= 3
  {
  }

  /**
   * A DER SEQUENCE passes the sniff exactly when its content length needs two
   * or three length octets: 256 to 16777215 bytes.
   */
  lemma {:induction false} DerSequenceSniff(len: nat, rest: seq<byte>)
    requires len < Pow256(126)
    requires |[SequenceTag] + LengthOctets(len) + rest| >= HeadSize
    ensures IsCRL(([SequenceTag] + LengthOctets(len) + rest)[..HeadSize]) <==> 256 <= len < 16777216
  {
    var head := ([SequenceTag] + LengthOctets(len) + rest)[..HeadSize];
    assert head[0] == SequenceTag;
    assert head[1] == LengthOctets(len)[0];
    SequenceHeadSniff(head);
    if len < 128 {
      assert LongFormCount(head[1]) == -1;
    } else {
      BigEndianLength(len, 1);
      BigEndianLength(len, 3);
      assert Pow256(3) == 16777216;
      assert LongFormCount(head[1]) == |BigEndian(len)|;
    }
  }

  /** The PEM boundary passes the sniff whatever follows it. */
  lemma PemSniff(body: seq<byte>)
    requires |body| >= HeadSize && body[..HeadSize] == PemHeader
    ensures IsCRL(body[..HeadSize])
  {
  }
}
