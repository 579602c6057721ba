/** The identity prefix that may follow the salt of a client's first frame. Digests are parameters;
    only their lengths matter here. */
module SnellIdentity {
  import opened Bytes

  const EXPORTER_SIZE := 32
  const ID_HEADER_SIZE := 16
  const ID_TAG_SIZE := 16
  const V1_PREFIX_SIZE := 24
  const V2_PREFIX_SIZE := 40
  const MAGIC_V1: Bytes := [0x44, 0x4C, 0x53, 0x4E, 0x49, 0x44, 0x30, 0x31]
  const MAGIC_V2: Bytes := [0x44, 0x4C, 0x53, 0x4E, 0x49, 0x44, 0x30, 0x32]

  /** BLAKE3-512 of the key, and the two HMAC-SHA-256 values of version 2. */
  datatype DigestFunctions = DigestFunctions(
    blake: Bytes -> Bytes, expand: Bytes -> Bytes, mac: (Bytes, Bytes, Bytes) -> Bytes)
  {
    ghost predicate Sized() {
      && (forall p: Bytes :: |blake(p)| == 64)
      && (forall p: Bytes :: |expand(p)| == 32)
      && (forall p: Bytes, e: Bytes, s: Bytes :: |mac(p, e, s)| == 32)
    }
  }

  const ZERO_DIGESTS := DigestFunctions(
    (p: Bytes) => Repeat(64, 0), (p: Bytes) => Repeat(32, 0), (p: Bytes, e: Bytes, s: Bytes) => Repeat(32, 0))

  type Digests = d: DigestFunctions | d.Sized() ghost witness ZERO_DIGESTS

  datatype Identity = Identity(version: int, psk: Bytes, exporter: Bytes, digests: Digests) {
    /** The length the payload limit budgets for. */
    function WireLength(): nat {
      if version == 1 then V1_PREFIX_SIZE
      else if |exporter| == EXPORTER_SIZE then V2_PREFIX_SIZE
      else 0
    }

    /** The bytes written after the salt; None is the version 2 error for an empty key. The bytes
        emitted always fill the budget exactly. */
    function Prefix(salt: Bytes): (r: Option<Bytes>)
      ensures r.Some? ==> |r.value| == WireLength()
      ensures r.None? <==> version != 1 && |exporter| == EXPORTER_SIZE && psk == []
    {
      if version == 1 then Some(MAGIC_V1 + digests.blake(psk)[..ID_HEADER_SIZE])
      else if |exporter| == EXPORTER_SIZE then
        if psk == [] then None
        else
          var tag := digests.mac(psk, exporter, salt)[..ID_TAG_SIZE];
          Some(MAGIC_V2 + digests.expand(psk)[..ID_HEADER_SIZE] + tag)
      else Some([])
    }
  }

  /** The bytes after the salt: "DLSNID01" and sixteen bytes that tell the key; or, when there is an exporter of 32
      bytes, "DLSNID02", sixteen such bytes and the first half of an authentication code over exporter and salt. */
  lemma PrefixBytes(id: Identity, salt: Bytes)
    requires id.Prefix(salt).Some?
    ensures var r := id.Prefix(salt).value;
      if id.version == 1 then
        && |r| == 24 && r[..7] == [68, 76, 83, 78, 73, 68, 48] && r[7] == 49
        && forall i :: 0 <= i < 16 ==> r[8 + i] == id.digests.blake(id.psk)[i]
      else if |id.exporter| == 32 then
        && |r| == 40 && r[..7] == [68, 76, 83, 78, 73, 68, 48] && r[7] == 50
        && (forall i :: 0 <= i < 16 ==> r[8 + i] == id.digests.expand(id.psk)[i])
        && (forall i :: 0 <= i < 16 ==> r[24 + i] == id.digests.mac(id.psk, id.exporter, salt)[i])
      else r == []
  {
  }
}
