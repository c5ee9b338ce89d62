/** The header a mining thread works on, applications/tari_miner/src/difficulty.rs. */
module Hasher {
  import opened Bytes
  import opened Wrappers

  const U64: nat := 0x1_0000_0000_0000_0000
  type u64 = n: nat | n < U64 witness 0

  /** A block header; `rest` is every field mining leaves alone. */
  datatype Header = Header(height: u64, timestamp: u64, nonce: u64, rest: seq<byte>)

  /** A header as it is sent: it carries its hash, which nothing checks on receipt. */
  datatype WireHeader = WireHeader(header: Header, hash: seq<byte>)

  datatype HeaderError = NotConvertible

  /** The difficulty a header achieves: the proof-of-work hash, taken as any function of the header. */
  type Difficulty = Header -> u64

  datatype Hashing = Hashing(header: Header, hashes: u64) {

    function Forward(timestamp: u64): Hashing {
      if timestamp > header.timestamp then this.(header := header.(timestamp := timestamp)) else this
    }

    function NextNonce(): Hashing {
      this.(header := header.(nonce := (header.nonce + 1) % U64))
    }

    function Counted(): Hashing {
      this.(hashes := if hashes == U64 - 1 then hashes else hashes + 1)
    }
  }

  class BlockHeaderSha3 {
    var header: Header
    var hashes: u64

    function State(): Hashing
      reads this
    {
      Hashing(header, hashes)
    }

    constructor (header: Header)
      ensures State() == Hashing(header, 0)
    {
      this.header := header;
      hashes := 0;
    }

    /** The received header, if it converts; `converts` says which do. */
    static method New(received: WireHeader, converts: Header -> bool) returns (r: Result<BlockHeaderSha3, HeaderError>)
      ensures r.Ok? <==> converts(received.header)
      ensures r.Ok? ==> fresh(r.value) && r.value.State() == Hashing(received.header, 0)
    {
      if !converts(received.header) {
        return Err(NotConvertible);
      }
      var hasher := new BlockHeaderSha3(received.header);
      r := Ok(hasher);
    }

    /** The header to be sent: its hash is computed anew. */
    method CreateHeader(hash: Header -> seq<byte>) returns (r: WireHeader)
      ensures r.header == header && r.hash == hash(r.header)
    {
      r := WireHeader(header, hash(header));
    }

    /** The timestamp only ever moves forward. */
    method SetForwardTimestamp(timestamp: u64)
      modifies this
      ensures State() == old(State()).Forward(timestamp)
      ensures header.timestamp >= old(header.timestamp) && header.timestamp >= timestamp
      ensures header.timestamp == old(header.timestamp) || header.timestamp == timestamp
      ensures header == old(header).(timestamp := header.timestamp) && hashes == old(hashes)
    {
      if timestamp > header.timestamp {
        header := header.(timestamp := timestamp);
      }
    }

    method RandomNonce(nonce: u64)
      modifies this
      ensures State() == Hashing(old(header).(nonce := nonce), old(hashes))
    {
      header := header.(nonce := nonce);
    }

    method IncNonce()
      modifies this
      ensures State() == old(State()).NextNonce()
    {
      header := header.(nonce := if header.nonce == U64 - 1 then 0 else header.nonce + 1);
    }

    method ComputeDifficulty(difficulty: Difficulty) returns (d: u64)
      modifies this
      ensures State() == old(State()).Counted()
      ensures d == difficulty(header)
    {
      hashes := if hashes + 1 < U64 then hashes + 1 else U64 - 1;
      d := difficulty(header);
    }
  }
}
