// Bytes, and whole numbers in little-endian order.
module Bytes {

  type Byte = b: int | 0 <= b < 256

  function Pow256(n: nat): nat {
    if n == 0 then 1 else 256 * Pow256(n - 1)
  }

  // The `width` low bytes of a number, the lowest first.
  function LittleEndian(n: nat, width: nat): seq<Byte> {
    if width == 0 then [] else [n % 256] + LittleEndian(n / 256, width - 1)
  }

  function FromLittleEndian(bytes: seq<Byte>): nat {
    if |bytes| == 0 then 0 else bytes[0] + 256 * FromLittleEndian(bytes[1..])
  }

  lemma {:induction false} LittleEndianLength(n: nat, width: nat)
    ensures |LittleEndian(n, width)| == width
  {
    if width > 0 {
      LittleEndianLength(n / 256, width - 1);
    }
  }

  lemma {:induction false} LittleEndianRead(n: nat, width: nat)
    requires n < Pow256(width)
    ensures |LittleEndian(n, width)| == width && FromLittleEndian(LittleEndian(n, width)) == n
  {
    if width > 0 {
      LittleEndianRead(n / 256, width - 1);
      assert LittleEndian(n, width)[1..] == LittleEndian(n / 256, width - 1);
    }
  }

  lemma {:induction false} LittleEndianWritten(bytes: seq<Byte>)
    ensures FromLittleEndian(bytes) < Pow256(|bytes|)
    ensures LittleEndian(FromLittleEndian(bytes), |bytes|) == bytes
  {
    if bytes != [] {
      LittleEndianWritten(bytes[1..]);
      assert bytes == [bytes[0]] + bytes[1..];
    }
  }

  // Four bytes as one number, the lowest first.
  function Wide(a: int, b: int, c: int, d: int): int {
    a + 0x100 * b + 0x1_0000 * c + 0x100_0000 * d
  }

  lemma FirstByte(bytes: seq<Byte>, at: nat)
    requires at < |bytes|
    ensures FromLittleEndian(bytes[at..]) == bytes[at] + 256 * FromLittleEndian(bytes[at + 1..])
  {
    assert bytes[at..][1..] == bytes[at + 1..];
  }

  lemma FewBytes(bytes: seq<Byte>)
    ensures |bytes| == 0 ==> FromLittleEndian(bytes) == 0
    ensures |bytes| == 2 ==> FromLittleEndian(bytes) == Wide(bytes[0], bytes[1], 0, 0)
    ensures |bytes| == 3 ==> FromLittleEndian(bytes) == Wide(bytes[0], bytes[1], bytes[2], 0)
    ensures |bytes| == 4 ==> FromLittleEndian(bytes) == Wide(bytes[0], bytes[1], bytes[2], bytes[3])
  {
    assert bytes[0..] == bytes && bytes[|bytes|..] == [];
    if 2 <= |bytes| <= 4 {
      FirstByte(bytes, 0);
      FirstByte(bytes, 1);
      if |bytes| > 2 {
        FirstByte(bytes, 2);
      }
      if |bytes| > 3 {
        FirstByte(bytes, 3);
      }
    }
  }

  lemma EightBytes(bytes: seq<Byte>)
    requires |bytes| == 8
    ensures FromLittleEndian(bytes) == FromLittleEndian(bytes[..4]) + 0x1_0000_0000 * FromLittleEndian(bytes[4..])
  {
    hide FromLittleEndian;
    FewBytes(bytes[..4]);
    assert bytes[0..] == bytes;
    FirstByte(bytes, 0);
    FirstByte(bytes, 1);
    FirstByte(bytes, 2);
    FirstByte(bytes, 3);
  }
}
