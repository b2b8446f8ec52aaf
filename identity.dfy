/**
 * Identity derivation: the current id of a (contract, owner) pair
 * (`hashOfPosition`) and the id of a historical snapshot
 * (`hashOfPositionNew`), both as the hex rendering of a Keccak-256 digest
 * over a concatenation of zero-padded hex fields.
 */
module Identity {
  import opened Hex
  import opened Runtime

  /** The hex string `hashOfPosition` decodes and hashes. */
  function PositionPreimage(host: Host, contract: Bytes, owner: Bytes): (r: string)
    ensures |r| >= 80
  {
    PadHex(host.bytesToHex(contract), 40) + PadHex(Substr(host.bytesToHex(owner), 2), 40)
  }

  function HashOfPosition(host: Host, contract: Bytes, owner: Bytes): Bytes
  {
    host.keccak256(host.bytesFromHex(PositionPreimage(host, contract, owner)))
  }

  /** The key of the current record: `hashOfPosition(...).toHex()`. */
  function PositionId(host: Host, contract: Bytes, owner: Bytes): string
  {
    host.bytesToHex(HashOfPosition(host, contract, owner))
  }

  /**
   * The hex string `hashOfPositionNew` decodes and hashes. `logIndex` is
   * accepted and never used; the owner is rendered a second time, padded to
   * 64, where the log index would be expected.
   */
  function SnapshotPreimage(host: Host, contract: Bytes, owner: Bytes, blockNumber: nat, logIndex: nat): (r: string)
    ensures PositionPreimage(host, contract, owner) <= r
    ensures |r| >= |PositionPreimage(host, contract, owner)| + 128
  {
    PositionPreimage(host, contract, owner)
      + PadHex(host.bigIntToHex(blockNumber), 64)
      + PadHex(host.bytesToHex(owner), 64)
  }

  function HashOfPositionNew(host: Host, contract: Bytes, owner: Bytes, blockNumber: nat, logIndex: nat): Bytes
  {
    host.keccak256(host.bytesFromHex(SnapshotPreimage(host, contract, owner, blockNumber, logIndex)))
  }

  /** The key of a historical snapshot: `hashOfPositionNew(...).toHex()`. */
  function SnapshotId(host: Host, contract: Bytes, owner: Bytes, blockNumber: nat, logIndex: nat): string
  {
    host.bytesToHex(HashOfPositionNew(host, contract, owner, blockNumber, logIndex))
  }

  /**
   * A way of deriving the two record keys from event fields. The handlers'
   * behaviour is stated for any such derivation; `Keys` is the one the
   * mapping uses.
   */
  datatype KeyScheme = KeyScheme(
    current: (Bytes, Bytes) -> string,
    snapshot: (Bytes, Bytes, nat, nat) -> string)

  function Keys(host: Host): KeyScheme
  {
    KeyScheme(
      (contract: Bytes, owner: Bytes) => PositionId(host, contract, owner),
      (contract: Bytes, owner: Bytes, blockNumber: nat, logIndex: nat) => SnapshotId(host, contract, owner, blockNumber, logIndex))
  }

  /** The snapshot id is the same for every log index within one block. */
  lemma SnapshotIdIgnoresLogIndex(host: Host, contract: Bytes, owner: Bytes, blockNumber: nat, i: nat, j: nat)
    ensures SnapshotPreimage(host, contract, owner, blockNumber, i) == SnapshotPreimage(host, contract, owner, blockNumber, j)
    ensures SnapshotId(host, contract, owner, blockNumber, i) == SnapshotId(host, contract, owner, blockNumber, j)
    ensures Keys(host).snapshot(contract, owner, blockNumber, i) == Keys(host).snapshot(contract, owner, blockNumber, j)
  {
  }

  /** The digits of a rendered value, without its `0x`. */
  function Digits(h: string): string
  {
    Substr(h, 2)
  }

  /** The host renders `a` as a 20-byte address: `0x` and 40 lowercase hex digits. */
  predicate RendersAsAddress(host: Host, a: Bytes)
  {
    var h := host.bytesToHex(a);
    |h| == 42 && HasHexPrefix(h) && IsHexDigits(h[2..])
  }

  /** The host renders `n` as `0x` and at most 64 lowercase hex digits. */
  predicate RendersAsWord(host: Host, n: nat)
  {
    var h := host.bigIntToHex(n);
    2 <= |h| <= 66 && HasHexPrefix(h) && IsHexDigits(h[2..])
  }

  /**
   * For real addresses both paddings are no-ops, so the current-id preimage
   * is exactly the 40 digits of the contract followed by the 40 of the owner.
   */
  lemma PositionPreimageOfAddresses(host: Host, contract: Bytes, owner: Bytes)
    requires RendersAsAddress(host, contract) && RendersAsAddress(host, owner)
    ensures PositionPreimage(host, contract, owner)
         == Digits(host.bytesToHex(contract)) + Digits(host.bytesToHex(owner))
    ensures |PositionPreimage(host, contract, owner)| == 80
  {
    var c, o := host.bytesToHex(contract), host.bytesToHex(owner);
    assert c == "0x" + c[2..];
    assert o == "0x" + o[2..];
    PadHexDigits(c[2..], 40);
    PadHexDigits(o[2..], 40);
  }

  /**
   * For real addresses the current-id preimage determines both renderings:
   * two pairs share a preimage only if they render identically.
   * (Whether their digests differ is up to Keccak-256, not modelled.)
   */
  lemma PositionPreimageInjective(host: Host, c1: Bytes, o1: Bytes, c2: Bytes, o2: Bytes)
    requires RendersAsAddress(host, c1) && RendersAsAddress(host, o1)
    requires RendersAsAddress(host, c2) && RendersAsAddress(host, o2)
    requires PositionPreimage(host, c1, o1) == PositionPreimage(host, c2, o2)
    ensures host.bytesToHex(c1) == host.bytesToHex(c2)
    ensures host.bytesToHex(o1) == host.bytesToHex(o2)
  {
    PositionPreimageOfAddresses(host, c1, o1);
    PositionPreimageOfAddresses(host, c2, o2);
    var p := PositionPreimage(host, c1, o1);
    var h1, h2 := host.bytesToHex(c1), host.bytesToHex(c2);
    var g1, g2 := host.bytesToHex(o1), host.bytesToHex(o2);
    assert p[..40] == h1[2..] && p[..40] == h2[2..];
    assert p[40..] == g1[2..] && p[40..] == g2[2..];
    assert h1 == "0x" + h1[2..] && h2 == "0x" + h2[2..];
    assert g1 == "0x" + g1[2..] && g2 == "0x" + g2[2..];
  }

  /**
   * Layout of the snapshot preimage for a real address pair and a block
   * number of at most 64 digits, field by field: the 80 digits of the
   * current-id preimage, the block number zero-padded to 64, then the owner
   * again zero-padded to 64; 208 characters and no trace of the log index.
   */
  lemma SnapshotPreimageOfAddresses(host: Host, contract: Bytes, owner: Bytes, blockNumber: nat, logIndex: nat)
    requires RendersAsAddress(host, contract) && RendersAsAddress(host, owner)
    requires RendersAsWord(host, blockNumber)
    ensures var b, o := Digits(host.bigIntToHex(blockNumber)), Digits(host.bytesToHex(owner));
      SnapshotPreimage(host, contract, owner, blockNumber, logIndex)
        == (Digits(host.bytesToHex(contract)) + o) + (Zeros(64 - |b|) + b) + (Zeros(24) + o)
    ensures |SnapshotPreimage(host, contract, owner, blockNumber, logIndex)| == 208
  {
    PositionPreimageOfAddresses(host, contract, owner);
    PadHexOfRendering(host.bigIntToHex(blockNumber), 64);
    PadHexOfRendering(host.bytesToHex(owner), 64);
  }

  /** A rendering `0x` + digits that fit is padded to the zero fill and its digits. */
  lemma PadHexOfRendering(h: string, length: nat)
    requires |h| >= 2 && HasHexPrefix(h) && IsHexDigits(h[2..]) && |h| - 2 <= length
    ensures PadHex(h, length) == Zeros(length - (|h| - 2)) + Digits(h)
  {
    assert h == "0x" + h[2..];
    PadHexDigits(h[2..], length);
  }
}
