/**
 * The record store the benchmark talks to, reduced to what the workload needs:
 * a table of byte records keyed by id, with point `get`/`put` and a positional
 * byte-range splice. The store's encoding, reference counting and transactions
 * are not modelled.
 */
module Store {
  import opened Wrappers

  /** One unsigned byte (`u8`). */
  type Byte = x: int | 0 <= x < 256

  /** `u8::overflowing_add` with the overflow flag dropped: addition modulo 256. */
  function OverflowingAdd(a: Byte, b: Byte): (r: Byte)
    ensures a + b < 256 ==> r == a + b
    ensures a + b >= 256 ==> r == a + b - 256
  {
    (a + b) % 256
  }

  /** Replaces `bytes[offset .. offset + |patch|)` with `patch`. */
  function Splice(bytes: seq<Byte>, offset: nat, patch: seq<Byte>): (r: seq<Byte>)
    requires offset + |patch| <= |bytes|
    ensures |r| == |bytes|
    ensures r[offset..offset + |patch|] == patch
    ensures forall k :: 0 <= k < |bytes| && !(offset <= k < offset + |patch|) ==> r[k] == bytes[k]
  {
    bytes[..offset] + patch + bytes[offset + |patch|..]
  }

  /** A one-byte splice is a point update. */
  lemma SpliceOne(bytes: seq<Byte>, offset: nat, b: Byte)
    requires offset < |bytes|
    ensures Splice(bytes, offset, [b]) == bytes[offset := b]
  {
    var r := Splice(bytes, offset, [b]);
    assert r[offset] == r[offset..offset + 1][0];
  }

  /** The `bindata` space: records keyed by id. */
  class Space {
    var records: map<nat, seq<Byte>>

    constructor (initial: map<nat, seq<Byte>>)
      ensures records == initial
    {
      records := initial;
    }

    /** Inserts or replaces the record under `id`. */
    method Put(id: nat, data: seq<Byte>)
      modifies this
      ensures records == old(records)[id := data]
    {
      records := records[id := data];
    }

    /** Reads the record under `id`, if there is one. */
    method Get(id: nat) returns (r: Option<seq<Byte>>)
      ensures r.Some? <==> id in records
      ensures r.Some? ==> r.value == records[id]
    {
      r := if id in records then Some(records[id]) else None;
    }

    /** Replaces `|patch|` bytes of record `id` starting at `offset`. */
    method SpliceBindata(id: nat, offset: nat, patch: seq<Byte>)
      requires id in records && offset + |patch| <= |records[id]|
      modifies this
      ensures records == old(records)[id := Splice(old(records)[id], offset, patch)]
    {
      records := records[id := Splice(records[id], offset, patch)];
    }
  }
}
