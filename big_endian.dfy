/**
 * The big-endian layout of a 64-bit word, as Go's encoding/binary package
 * writes it (BigEndian.PutUint64) and reads it back (BigEndian.Uint64).
 */
module BigEndian {

  /** The eight bytes of `v`, most significant first. */
  function Bytes(v: bv64): (b: seq<bv8>)
    ensures |b| == 8
  {
    [ (v >> 56) as bv8,
      ((v >> 48) & 0xFF) as bv8,
      ((v >> 40) & 0xFF) as bv8,
      ((v >> 32) & 0xFF) as bv8,
      ((v >> 24) & 0xFF) as bv8,
      ((v >> 16) & 0xFF) as bv8,
      ((v >> 8) & 0xFF) as bv8,
      (v & 0xFF) as bv8 ]
  }

  /** The word whose big-endian bytes are `b`. */
  function Uint64(b: seq<bv8>): bv64
    requires |b| == 8
  {
    ((b[0] as bv64) << 56) | ((b[1] as bv64) << 48) | ((b[2] as bv64) << 40) | ((b[3] as bv64) << 32) |
    ((b[4] as bv64) << 24) | ((b[5] as bv64) << 16) | ((b[6] as bv64) << 8) | (b[7] as bv64)
  }

  /** Reading back the bytes of a word gives the word. */
  lemma DecodeEncode(v: bv64)
    ensures Uint64(Bytes(v)) == v
  {
  }

  /** Every eight-byte string is the layout of exactly one word. */
  lemma EncodeDecode(b: seq<bv8>)
    requires |b| == 8
    ensures Bytes(Uint64(b)) == b
  {
  }

  /** Writes the big-endian bytes of `v` into an eight-byte buffer. */
  method PutUint64(buf: array<bv8>, v: bv64)
    requires buf.Length == 8
    modifies buf
    ensures buf[..] == Bytes(v)
  {
    buf[0] := (v >> 56) as bv8;
    buf[1] := ((v >> 48) & 0xFF) as bv8;
    buf[2] := ((v >> 40) & 0xFF) as bv8;
    buf[3] := ((v >> 32) & 0xFF) as bv8;
    buf[4] := ((v >> 24) & 0xFF) as bv8;
    buf[5] := ((v >> 16) & 0xFF) as bv8;
    buf[6] := ((v >> 8) & 0xFF) as bv8;
    buf[7] := (v & 0xFF) as bv8;
  }
}
