/** Raw volume bytes, the short-read behaviour of a seek followed by a read,
    the fixed-width integers `struct.unpack_from` takes out of a buffer
    ('<H', '<L', '>H', '>L'), and byte-substring search. */
module Bytes {

  type byte = b: int | 0 <= b < 0x100

  function Min(a: int, b: int): int
  {
    if a <= b then a else b
  }

  /** `seek(offset)` then `read(length)` on the volume: the bytes from
      `offset` on, at most `length` of them, fewer (none at all past the
      end) when the volume ends first. A read never fails by itself. */
  function Read(volume: seq<byte>, offset: nat, length: nat): (r: seq<byte>)
    ensures |r| == if offset < |volume| then Min(length, |volume| - offset) else 0
    ensures forall i :: 0 <= i < |r| ==> r[i] == volume[offset + i]
  {
    if |volume| <= offset then []
    else if offset + length <= |volume| then volume[offset..offset + length]
    else volume[offset..]
  }

  // ----- little-endian ('<H', '<L') -----

  function U16LE(s: seq<byte>, off: nat): (r: nat)
    requires off + 2 <= |s|
    ensures r < 0x1_0000
  {
    s[off] as int + 0x100 * s[off + 1] as int
  }

  function U32LE(s: seq<byte>, off: nat): (r: nat)
    requires off + 4 <= |s|
    ensures r < 0x1_0000_0000
  {
    U16LE(s, off) + 0x1_0000 * U16LE(s, off + 2)
  }

  /** The two bytes '<H' packs `v` into. */
  function LE16(v: nat): (w: seq<byte>)
    requires v < 0x1_0000
  {
    [v % 0x100, v / 0x100]
  }

  /** The four bytes '<L' packs `v` into. */
  function LE32(v: nat): (w: seq<byte>)
    requires v < 0x1_0000_0000
  {
    LE16(v % 0x1_0000) + LE16(v / 0x1_0000)
  }

  // ----- big-endian ('>H', '>L') -----

  function U16BE(s: seq<byte>, off: nat): (r: nat)
    requires off + 2 <= |s|
    ensures r < 0x1_0000
  {
    0x100 * s[off] as int + s[off + 1] as int
  }

  function U32BE(s: seq<byte>, off: nat): (r: nat)
    requires off + 4 <= |s|
    ensures r < 0x1_0000_0000
  {
    0x1_0000 * U16BE(s, off) + U16BE(s, off + 2)
  }

  /** The two bytes '>H' packs `v` into. */
  function BE16(v: nat): (w: seq<byte>)
    requires v < 0x1_0000
  {
    [v / 0x100, v % 0x100]
  }

  // ----- round trips -----

  /** Unpacking '<H' over bytes that '<H' packed gives the value back. */
  lemma U16LEOfLE16(s: seq<byte>, off: nat, v: nat)
    requires v < 0x1_0000 && off + 2 <= |s|
    requires s[off..off + 2] == LE16(v)
    ensures U16LE(s, off) == v
  {
    assert s[off] == s[off..off + 2][0] && s[off + 1] == s[off..off + 2][1];
  }

  /** Packing what '<H' unpacked gives the same two bytes. */
  lemma LE16OfU16LE(s: seq<byte>, off: nat)
    requires off + 2 <= |s|
    ensures LE16(U16LE(s, off)) == s[off..off + 2]
  {
    var v := U16LE(s, off);
    assert v % 0x100 == s[off] && v / 0x100 == s[off + 1];
  }

  lemma U32LEOfLE32(s: seq<byte>, off: nat, v: nat)
    requires v < 0x1_0000_0000 && off + 4 <= |s|
    requires s[off..off + 4] == LE32(v)
    ensures U32LE(s, off) == v
  {
    assert s[off..off + 2] == s[off..off + 4][..2] == LE16(v % 0x1_0000);
    assert s[off + 2..off + 4] == s[off..off + 4][2..] == LE16(v / 0x1_0000);
    U16LEOfLE16(s, off, v % 0x1_0000);
    U16LEOfLE16(s, off + 2, v / 0x1_0000);
  }

  lemma LE32OfU32LE(s: seq<byte>, off: nat)
    requires off + 4 <= |s|
    ensures LE32(U32LE(s, off)) == s[off..off + 4]
  {
    var lo, hi := U16LE(s, off), U16LE(s, off + 2);
    var v := U32LE(s, off);
    assert v % 0x1_0000 == lo && v / 0x1_0000 == hi;
    LE16OfU16LE(s, off);
    LE16OfU16LE(s, off + 2);
    assert s[off..off + 4] == s[off..off + 2] + s[off + 2..off + 4];
  }

  /** A '>H' field holds `v` exactly when its two bytes are those of `v`,
      high byte first. */
  lemma U16BEIs(s: seq<byte>, off: nat, v: nat)
    requires off + 2 <= |s| && v < 0x1_0000
    ensures U16BE(s, off) == v <==> s[off..off + 2] == BE16(v)
  {
    if U16BE(s, off) == v {
      assert s[off] == v / 0x100 && s[off + 1] == v % 0x100;
    }
    if s[off..off + 2] == BE16(v) {
      assert s[off] == s[off..off + 2][0] && s[off + 1] == s[off..off + 2][1];
    }
  }

  /** A '<L' field holds `v` exactly when its four bytes are those of `v`,
      low byte first. */
  lemma U32LEIs(s: seq<byte>, off: nat, v: nat)
    requires off + 4 <= |s| && v < 0x1_0000_0000
    ensures U32LE(s, off) == v <==> s[off..off + 4] == LE32(v)
  {
    if U32LE(s, off) == v {
      LE32OfU32LE(s, off);
    }
    if s[off..off + 4] == LE32(v) {
      U32LEOfLE32(s, off, v);
    }
  }

  /** A '>H' at the start of `s` equals the value of the bytes `x y`
      exactly when `s` starts with them. */
  lemma U16BEPrefix(s: seq<byte>, x: byte, y: byte)
    requires |s| >= 2
    ensures U16BE(s, 0) == 0x100 * x + y <==> s[..2] == [x, y]
  {
    if s[..2] == [x, y] {
      assert s[0] == s[..2][0] && s[1] == s[..2][1];
    }
  }

  /** A '>L' at the start of `s` equals the value of the bytes `w x y z`
      exactly when `s` starts with them. */
  lemma U32BEPrefix(s: seq<byte>, w: byte, x: byte, y: byte, z: byte)
    requires |s| >= 4
    ensures U32BE(s, 0) == 0x100_0000 * w + 0x1_0000 * x + 0x100 * y + z <==> s[..4] == [w, x, y, z]
  {
    var v := U32BE(s, 0);
    assert v == 0x100_0000 * s[0] as int + 0x1_0000 * s[1] as int + 0x100 * s[2] as int + s[3] as int;
    if v == 0x100_0000 * w + 0x1_0000 * x + 0x100 * y + z {
      assert s[0] == w;
      assert s[1] == x;
      assert s[2] == y;
      assert s[..4] == [s[0], s[1], s[2], s[3]];
    }
    if s[..4] == [w, x, y, z] {
      assert s[0] == s[..4][0] && s[1] == s[..4][1] && s[2] == s[..4][2] && s[3] == s[..4][3];
    }
  }

  // ----- substring search -----

  /** `needle` occurs in `hay` starting at index `i`. */
  ghost predicate OccursAt(hay: seq<byte>, needle: seq<byte>, i: int)
  {
    0 <= i && i + |needle| <= |hay| && hay[i..i + |needle|] == needle
  }

  /** Python's `needle in hay`: a left-to-right scan for a contiguous run. */
  function Contains(hay: seq<byte>, needle: seq<byte>): bool
    decreases |hay|
  {
    if |hay| < |needle| then false
    else if hay[..|needle|] == needle then true
    else Contains(hay[1..], needle)
  }

  /** A run of `hay[1..]` is the run of `hay` one place further on. */
  lemma SliceOfTail(hay: seq<byte>, i: nat, n: nat)
    requires 1 <= i && i + n <= |hay|
    ensures hay[i..i + n] == hay[1..][i - 1..i - 1 + n]
  {
    var here, there := hay[i..i + n], hay[1..][i - 1..i - 1 + n];
    forall t | 0 <= t < n ensures here[t] == there[t] {
    }
  }

  /** The scan finds the needle exactly when it occurs somewhere. */
  lemma {:induction false} ContainsIff(hay: seq<byte>, needle: seq<byte>)
    ensures Contains(hay, needle) <==> exists i :: OccursAt(hay, needle, i)
    decreases |hay|
  {
    if |hay| < |needle| {
      forall i | OccursAt(hay, needle, i) ensures false { }
    } else if hay[..|needle|] == needle {
      assert OccursAt(hay, needle, 0);
    } else {
      var tail := hay[1..];
      ContainsIff(tail, needle);
      forall i | OccursAt(tail, needle, i) ensures OccursAt(hay, needle, i + 1) {
        SliceOfTail(hay, i + 1, |needle|);
      }
      forall i | OccursAt(hay, needle, i) ensures OccursAt(tail, needle, i - 1) {
        assert i != 0;
        SliceOfTail(hay, i, |needle|);
      }
    }
  }
}
