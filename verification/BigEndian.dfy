/** 32-bit numbers as four bytes, most significant first. */
module BigEndian {
  import opened Arithmetic

  function Zeros(k: nat): seq<Byte> { seq(k, _ => 0) }

  function Be32(x: nat): (b: seq<Byte>)
    ensures |b| == 4
  {
    [x / 0x100_0000 % 256, x / 0x1_0000 % 256, x / 0x100 % 256, x % 256]
  }

  function WordOf(b0: Byte, b1: Byte, b2: Byte, b3: Byte): (w: nat)
    ensures w <= 0xffff_ffff
  {
    ((b0 as int * 256 + b1) * 256 + b2) * 256 + b3
  }

  lemma WordOfBytes(x: nat)
    requires x <= 0xffff_ffff
    ensures var b := Be32(x); WordOf(b[0], b[1], b[2], b[3]) == x
  {
    assert x == x / 0x100 * 0x100 + x % 0x100;
    assert x / 0x100 == x / 0x1_0000 * 0x100 + x / 0x100 % 0x100;
    assert x / 0x1_0000 == x / 0x100_0000 * 0x100 + x / 0x1_0000 % 0x100;
  }

  lemma BytesOfWord(b0: Byte, b1: Byte, b2: Byte, b3: Byte)
    ensures Be32(WordOf(b0, b1, b2, b3)) == [b0, b1, b2, b3]
  {
    var w: int := WordOf(b0, b1, b2, b3);
    DivModUnique(w, 0x100, (b0 as int * 256 + b1) * 256 + b2, b3);
    DivModUnique(w, 0x1_0000, b0 as int * 256 + b1, b2 as int * 256 + b3);
    DivModUnique(w, 0x100_0000, b0, b1 as int * 0x1_0000 + b2 as int * 256 + b3);
  }

  lemma Be32Injective(x: nat, y: nat)
    requires x <= 0xffff_ffff && y <= 0xffff_ffff && Be32(x) == Be32(y)
    ensures x == y
  {
    hide Be32;
    WordOfBytes(x);
    WordOfBytes(y);
  }
}
