/** The frame format of section 5.2 of RFC 6455, as `chrome/ws.py` writes and reads it. */
module Wire {
  import opened Options

  type Byte = bv8
  type Bytes = seq<Byte>

  const TEXT: Byte := 0x1
  const BINARY: Byte := 0x2
  const CLOSE: Byte := 0x8
  const PING: Byte := 0x9
  const PONG: Byte := 0xA
  const FIN: Byte := 0x80
  const MASK: Byte := 0x80

  // ---------------------------------------------------------------- numbers

  function Power256(k: nat): nat { if k == 0 then 1 else 256 * Power256(k - 1) }

  /** `struct.pack("!H")` and `struct.pack("!Q")`: k bytes, most significant first. */
  function Pack(n: nat, k: nat): (s: Bytes)
    ensures |s| == k
  {
    if k == 0 then [] else Pack(n / 256, k - 1) + [(n % 256) as bv8]
  }

  function Unpack(s: Bytes): nat {
    if s == [] then 0 else Unpack(s[..|s| - 1]) * 256 + s[|s| - 1] as nat
  }

  lemma NextByte(b: Byte)
    ensures b as int < 255 ==> (b + 1) as int == b as int + 1
  {
  }

  lemma {:induction false} ByteOf(n: nat) returns (b: Byte)
    requires n < 256
    ensures b as int == n
  {
    if n == 0 {
      b := 0;
    } else {
      var a := ByteOf(n - 1);
      NextByte(a);
      b := a + 1;
    }
  }

  lemma ByteBack(b: Byte)
    ensures (b as int) as bv8 == b
  {
  }

  lemma ByteValue(n: nat)
    requires n < 256
    ensures (n as bv8) as int == n
  {
    var b := ByteOf(n);
    ByteBack(b);
  }

  lemma {:induction false} UnpackPack(n: nat, k: nat)
    requires n < Power256(k)
    ensures Unpack(Pack(n, k)) == n
  {
    if k > 0 {
      UnpackPack(n / 256, k - 1);
      ByteValue(n % 256);
      assert Pack(n, k)[..k - 1] == Pack(n / 256, k - 1);
    }
  }

  lemma Powers()
    ensures Power256(2) == 0x1_0000 && Power256(8) == 0x1_0000_0000_0000_0000
  {
    assert Power256(1) == 0x100;
    assert Power256(2) == 0x1_0000;
    assert Power256(4) == 256 * Power256(3) == 0x1_0000_0000;
    assert Power256(6) == 256 * Power256(5) == 0x1_0000_0000_0000;
    assert Power256(8) == 256 * Power256(7);
  }

  // ---------------------------------------------------------------- masking

  /** Section 5.3: byte i is combined with byte i mod 4 of the masking key. */
  function Masked(data: Bytes, mask: Bytes): (r: Bytes)
    requires |mask| == 4
    ensures |r| == |data|
  {
    seq(|data|, i requires 0 <= i < |data| => data[i] ^ mask[i % 4])
  }

  lemma MaskTwice(data: Bytes, mask: Bytes)
    requires |mask| == 4
    ensures Masked(Masked(data, mask), mask) == data
  {
    forall i | 0 <= i < |data| ensures (data[i] ^ mask[i % 4]) ^ mask[i % 4] == data[i] {
      XorTwice(data[i], mask[i % 4]);
    }
  }

  lemma XorTwice(x: Byte, m: Byte)
    ensures (x ^ m) ^ m == x
  {
  }

  // ---------------------------------------------------------------- the format

  datatype Frame = Frame(fin: bool, opcode: Byte, payload: Bytes)

  /** The payload length field, with the mask bit as given: the shortest of the three forms. */
  function LengthField(size: nat, maskBit: Byte): (s: Bytes)
    requires size < 0x1_0000_0000_0000_0000
    ensures |s| == if size < 126 then 1 else if size < 65536 then 3 else 9
  {
    if size < 126 then [maskBit | (size as bv8)]
    else if size < 65536 then [maskBit | 126] + Pack(size, 2)
    else [maskBit | 127] + Pack(size, 8)
  }

  /** How many bytes follow the second header byte to give the length. */
  function ExtraLength(b: Byte): nat {
    if b & 0x7F == 126 then 2 else if b & 0x7F == 127 then 8 else 0
  }

  /** The payload length announced by the second header byte and the bytes after it. */
  function Announced(b: Byte, more: Bytes): nat
    requires |more| == ExtraLength(b)
  {
    if more == [] then (b & 0x7F) as nat else Unpack(more)
  }

  /** Section 5.2, strictly: the first frame of a stream and what follows it.
      The shortest length form must be used, and a 64-bit length has its top bit clear. */
  function Decode(s: Bytes): Option<(Frame, bool, Bytes)> {
    if |s| < 2 then None
    else
      var masked := s[1] & MASK != 0;
      var k := ExtraLength(s[1]);
      var body := 2 + k + if masked then 4 else 0;
      if |s| < body then None
      else
        var size := Announced(s[1], s[2..2 + k]);
        if (k == 2 && size < 126) || (k == 8 && !(65536 <= size < 0x8000_0000_0000_0000)) || |s| < body + size then None
        else
          var data := s[body..body + size];
          var payload := if masked then Masked(data, s[2 + k..2 + k + 4]) else data;
          Some((Frame(s[0] & FIN != 0, s[0] & 0x0F, payload), masked, s[body + size..]))
  }

  lemma HeadByte(fin: bool, opcode: Byte)
    requires opcode < 16
    ensures var b := (if fin then FIN else 0) | opcode; b & 0x0F == opcode && (b & FIN != 0 <==> fin)
  {
  }

  lemma SizeByte(size: nat, maskBit: Byte)
    requires size < 128 && (maskBit == MASK || maskBit == 0)
    ensures var b := maskBit | (size as bv8); (b & 0x7F) as nat == size && (b & MASK != 0 <==> maskBit == MASK)
  {
    var x := size as bv8;
    ByteValue(size);
    OrSeven(x, maskBit);
    Low7(x);
  }

  lemma OrSeven(x: Byte, maskBit: Byte)
    requires x < 128 && (maskBit == MASK || maskBit == 0)
    ensures (maskBit | x) & 0x7F == x && ((maskBit | x) & MASK != 0 <==> maskBit == MASK)
  {
  }

  lemma Low7(x: Byte)
    ensures (x & 0x7F) as nat == x as nat % 128
  {
  }

  /** Reading a length field back. */
  lemma LengthRoundTrip(size: nat, maskBit: Byte)
    requires size < 0x1_0000_0000_0000_0000 && (maskBit == MASK || maskBit == 0)
    ensures var s := LengthField(size, maskBit); var k := ExtraLength(s[0]);
      && |s| == 1 + k && Announced(s[0], s[1..]) == size && (s[0] & MASK != 0 <==> maskBit == MASK)
      && (k == 0 <==> size < 126) && (k == 2 <==> 126 <= size < 65536)
  {
    Powers();
    if size < 126 {
      SizeByte(size, maskBit);
    } else if size < 65536 {
      SizeByte(126, maskBit);
      UnpackPack(size, 2);
      assert LengthField(size, maskBit)[1..] == Pack(size, 2);
    } else {
      SizeByte(127, maskBit);
      UnpackPack(size, 8);
      assert LengthField(size, maskBit)[1..] == Pack(size, 8);
    }
  }

}
