/** Writing into fixed-size buffers, and reading from sources that may return less than asked for. */
module Buffers {
  import opened Bits
  import opened Endian

  /** Copies `x` into the buffer at `o`. */
  method Overwrite(blk: array<u8>, o: nat, x: Bytes)
    requires o + |x| <= blk.Length
    modifies blk
    ensures blk[..] == old(blk[..o]) + x + old(blk[o + |x|..])
  {
    forall j | 0 <= j < |x| {
      blk[o + j] := x[j];
    }
  }

  /** A byte source that may return fewer bytes than asked for, but none only at its end. */
  class Source {
    var rest: Bytes

    constructor (bytes: Bytes)
      ensures rest == bytes
    {
      rest := bytes;
    }

    method Read(max: nat) returns (chunk: Bytes)
      modifies this
      ensures old(rest) == chunk + rest && |chunk| <= max
      ensures chunk == [] <==> max == 0 || old(rest) == []
    {
      if max == 0 || rest == [] {
        return [];
      }
      var n: nat :| 1 <= n <= max && n <= |rest|;
      chunk, rest := rest[..n], rest[n..];
    }
  }
}
