/** The CRC-32 of the utility library: a table-driven register, and the bit-by-bit register it stands for. */
module Crc32 {
  import opened Bits

  const INITIAL: bv32 := 0xFFFF_FFFF

  function Xor(x: bv32, y: bv32): bv32
  {
    x ^ y
  }

  function DropByte(x: bv32): bv32
  {
    x >> 8
  }

  /** The feedback of the reflected generator polynomial when the lowest bit is shifted out. */
  function Feedback(r: bv32): bv32
  {
    0xEDB88320 & (0 - (r & 1))
  }

  /** The register after one bit is shifted out. */
  function ShiftBit(r: bv32): bv32
  {
    (r >> 1) ^ Feedback(r)
  }

  /** The register after the eight bits of a byte are shifted out. */
  function ShiftByte(r: bv32): bv32
  {
    ShiftBit(ShiftBit(ShiftBit(ShiftBit(ShiftBit(ShiftBit(ShiftBit(ShiftBit(r))))))))
  }

  /** The definition of the checksum: bytes are added to the low end of the register, least significant bit first. */
  function Register(r: bv32, s: seq<byte>): bv32
    decreases |s|
  {
    if s == [] then r else Register(AddByte(r, s[0]), s[1..])
  }

  function AddByte(r: bv32, b: byte): bv32
  {
    ShiftByte(Xor(r, b as bv32))
  }

  /** The register does not depend on how the input is split. */
  lemma {:induction false} RegisterSplit(r: bv32, a: seq<byte>, b: seq<byte>)
    ensures Register(r, a + b) == Register(Register(r, a), b)
    decreases |a|
  {
    hide AddByte;
    if a == [] {
      assert a + b == b;
    } else {
      assert (a + b)[1..] == a[1..] + b;
      RegisterSplit(AddByte(r, a[0]), a[1..], b);
    }
  }

  // ------------------------------------------------------------- linearity

  lemma FeedbackLinear(x: bv32, y: bv32)
    ensures Feedback(x ^ y) == Feedback(x) ^ Feedback(y)
  {
    MaskLinear(x, y);
    AndLinear(0 - (x & 1), 0 - (y & 1), 0xEDB88320);
  }

  lemma MaskLinear(x: bv32, y: bv32)
    ensures 0 - ((x ^ y) & 1) == (0 - (x & 1)) ^ (0 - (y & 1))
  {
  }

  lemma AndLinear(x: bv32, y: bv32, k: bv32)
    ensures k & (x ^ y) == (k & x) ^ (k & y)
  {
  }

  lemma HalfLinear(x: bv32, y: bv32)
    ensures (x ^ y) >> 1 == (x >> 1) ^ (y >> 1)
  {
  }

  lemma Regroup(a: bv32, b: bv32, c: bv32, d: bv32)
    ensures (a ^ b) ^ (c ^ d) == (a ^ c) ^ (b ^ d)
  {
  }

  lemma ShiftBitLinear(x: bv32, y: bv32)
    ensures ShiftBit(Xor(x, y)) == Xor(ShiftBit(x), ShiftBit(y))
  {
    hide Feedback;
    FeedbackLinear(x, y);
    HalfLinear(x, y);
    Regroup(x >> 1, y >> 1, Feedback(x), Feedback(y));
  }

  lemma ShiftByteLinear(x: bv32, y: bv32)
    ensures ShiftByte(Xor(x, y)) == Xor(ShiftByte(x), ShiftByte(y))
  {
    hide ShiftBit, Xor;
    ShiftBitLinear(x, y);
    var x1, y1 := ShiftBit(x), ShiftBit(y);
    ShiftBitLinear(x1, y1);
    var x2, y2 := ShiftBit(x1), ShiftBit(y1);
    ShiftBitLinear(x2, y2);
    var x3, y3 := ShiftBit(x2), ShiftBit(y2);
    ShiftBitLinear(x3, y3);
    var x4, y4 := ShiftBit(x3), ShiftBit(y3);
    ShiftBitLinear(x4, y4);
    var x5, y5 := ShiftBit(x4), ShiftBit(y4);
    ShiftBitLinear(x5, y5);
    var x6, y6 := ShiftBit(x5), ShiftBit(y5);
    ShiftBitLinear(x6, y6);
    var x7, y7 := ShiftBit(x6), ShiftBit(y6);
    ShiftBitLinear(x7, y7);
  }

  function High(x: bv32): bv32
  {
    x & 0xFFFF_FF00
  }

  function Low(x: bv32): bv32
  {
    x & 0xFF
  }

  // Clear bits are shifted out without feedback.

  lemma ShiftClear0(x: bv32)
    ensures ShiftBit(High(x)) == High(x) >> 1
  {
  }

  lemma ShiftClear1(x: bv32)
    ensures ShiftBit(High(x) >> 1) == High(x) >> 2
  {
  }

  lemma ShiftClear2(x: bv32)
    ensures ShiftBit(High(x) >> 2) == High(x) >> 3
  {
  }

  lemma ShiftClear3(x: bv32)
    ensures ShiftBit(High(x) >> 3) == High(x) >> 4
  {
  }

  lemma ShiftClear4(x: bv32)
    ensures ShiftBit(High(x) >> 4) == High(x) >> 5
  {
  }

  lemma ShiftClear5(x: bv32)
    ensures ShiftBit(High(x) >> 5) == High(x) >> 6
  {
  }

  lemma ShiftClear6(x: bv32)
    ensures ShiftBit(High(x) >> 6) == High(x) >> 7
  {
  }

  lemma ShiftClear7(x: bv32)
    ensures ShiftBit(High(x) >> 7) == x >> 8
  {
  }

  lemma ShiftHigh(x: bv32)
    ensures ShiftByte(High(x)) == DropByte(x)
  {
    hide ShiftBit, High;
    ShiftClear0(x);
    ShiftClear1(x);
    ShiftClear2(x);
    ShiftClear3(x);
    ShiftClear4(x);
    ShiftClear5(x);
    ShiftClear6(x);
    ShiftClear7(x);
  }

  lemma LowAndHigh(x: bv32)
    ensures Xor(High(x), Low(x)) == x
  {
  }

  /** Only the low byte of the register selects the feedback of a whole byte. */
  lemma ShiftByteSplits(x: bv32)
    ensures ShiftByte(x) == Xor(DropByte(x), ShiftByte(Low(x)))
  {
    hide ShiftByte, High, Low, Xor, DropByte;
    ShiftByteLinear(High(x), Low(x));
    ShiftHigh(x);
    LowAndHigh(x);
  }

  // ----------------------------------------------------------------- table

  function Row0(i: bv32): bv32
  {
    if i == 0x00 then 0x00000000
    else if i == 0x01 then 0x77073096
    else if i == 0x02 then 0xEE0E612C
    else if i == 0x03 then 0x990951BA
    else if i == 0x04 then 0x076DC419
    else if i == 0x05 then 0x706AF48F
    else if i == 0x06 then 0xE963A535
    else if i == 0x07 then 0x9E6495A3
    else if i == 0x08 then 0x0EDB8832
    else if i == 0x09 then 0x79DCB8A4
    else if i == 0x0A then 0xE0D5E91E
    else if i == 0x0B then 0x97D2D988
    else if i == 0x0C then 0x09B64C2B
    else if i == 0x0D then 0x7EB17CBD
    else if i == 0x0E then 0xE7B82D07
    else if i == 0x0F then 0x90BF1D91
    else if i == 0x10 then 0x1DB71064
    else if i == 0x11 then 0x6AB020F2
    else if i == 0x12 then 0xF3B97148
    else if i == 0x13 then 0x84BE41DE
    else if i == 0x14 then 0x1ADAD47D
    else if i == 0x15 then 0x6DDDE4EB
    else if i == 0x16 then 0xF4D4B551
    else if i == 0x17 then 0x83D385C7
    else if i == 0x18 then 0x136C9856
    else if i == 0x19 then 0x646BA8C0
    else if i == 0x1A then 0xFD62F97A
    else if i == 0x1B then 0x8A65C9EC
    else if i == 0x1C then 0x14015C4F
    else if i == 0x1D then 0x63066CD9
    else if i == 0x1E then 0xFA0F3D63
    else 0x8D080DF5
  }

  function Row1(i: bv32): bv32
  {
    if i == 0x20 then 0x3B6E20C8
    else if i == 0x21 then 0x4C69105E
    else if i == 0x22 then 0xD56041E4
    else if i == 0x23 then 0xA2677172
    else if i == 0x24 then 0x3C03E4D1
    else if i == 0x25 then 0x4B04D447
    else if i == 0x26 then 0xD20D85FD
    else if i == 0x27 then 0xA50AB56B
    else if i == 0x28 then 0x35B5A8FA
    else if i == 0x29 then 0x42B2986C
    else if i == 0x2A then 0xDBBBC9D6
    else if i == 0x2B then 0xACBCF940
    else if i == 0x2C then 0x32D86CE3
    else if i == 0x2D then 0x45DF5C75
    else if i == 0x2E then 0xDCD60DCF
    else if i == 0x2F then 0xABD13D59
    else if i == 0x30 then 0x26D930AC
    else if i == 0x31 then 0x51DE003A
    else if i == 0x32 then 0xC8D75180
    else if i == 0x33 then 0xBFD06116
    else if i == 0x34 then 0x21B4F4B5
    else if i == 0x35 then 0x56B3C423
    else if i == 0x36 then 0xCFBA9599
    else if i == 0x37 then 0xB8BDA50F
    else if i == 0x38 then 0x2802B89E
    else if i == 0x39 then 0x5F058808
    else if i == 0x3A then 0xC60CD9B2
    else if i == 0x3B then 0xB10BE924
    else if i == 0x3C then 0x2F6F7C87
    else if i == 0x3D then 0x58684C11
    else if i == 0x3E then 0xC1611DAB
    else 0xB6662D3D
  }

  function Row2(i: bv32): bv32
  {
    if i == 0x40 then 0x76DC4190
    else if i == 0x41 then 0x01DB7106
    else if i == 0x42 then 0x98D220BC
    else if i == 0x43 then 0xEFD5102A
    else if i == 0x44 then 0x71B18589
    else if i == 0x45 then 0x06B6B51F
    else if i == 0x46 then 0x9FBFE4A5
    else if i == 0x47 then 0xE8B8D433
    else if i == 0x48 then 0x7807C9A2
    else if i == 0x49 then 0x0F00F934
    else if i == 0x4A then 0x9609A88E
    else if i == 0x4B then 0xE10E9818
    else if i == 0x4C then 0x7F6A0DBB
    else if i == 0x4D then 0x086D3D2D
    else if i == 0x4E then 0x91646C97
    else if i == 0x4F then 0xE6635C01
    else if i == 0x50 then 0x6B6B51F4
    else if i == 0x51 then 0x1C6C6162
    else if i == 0x52 then 0x856530D8
    else if i == 0x53 then 0xF262004E
    else if i == 0x54 then 0x6C0695ED
    else if i == 0x55 then 0x1B01A57B
    else if i == 0x56 then 0x8208F4C1
    else if i == 0x57 then 0xF50FC457
    else if i == 0x58 then 0x65B0D9C6
    else if i == 0x59 then 0x12B7E950
    else if i == 0x5A then 0x8BBEB8EA
    else if i == 0x5B then 0xFCB9887C
    else if i == 0x5C then 0x62DD1DDF
    else if i == 0x5D then 0x15DA2D49
    else if i == 0x5E then 0x8CD37CF3
    else 0xFBD44C65
  }

  function Row3(i: bv32): bv32
  {
    if i == 0x60 then 0x4DB26158
    else if i == 0x61 then 0x3AB551CE
    else if i == 0x62 then 0xA3BC0074
    else if i == 0x63 then 0xD4BB30E2
    else if i == 0x64 then 0x4ADFA541
    else if i == 0x65 then 0x3DD895D7
    else if i == 0x66 then 0xA4D1C46D
    else if i == 0x67 then 0xD3D6F4FB
    else if i == 0x68 then 0x4369E96A
    else if i == 0x69 then 0x346ED9FC
    else if i == 0x6A then 0xAD678846
    else if i == 0x6B then 0xDA60B8D0
    else if i == 0x6C then 0x44042D73
    else if i == 0x6D then 0x33031DE5
    else if i == 0x6E then 0xAA0A4C5F
    else if i == 0x6F then 0xDD0D7CC9
    else if i == 0x70 then 0x5005713C
    else if i == 0x71 then 0x270241AA
    else if i == 0x72 then 0xBE0B1010
    else if i == 0x73 then 0xC90C2086
    else if i == 0x74 then 0x5768B525
    else if i == 0x75 then 0x206F85B3
    else if i == 0x76 then 0xB966D409
    else if i == 0x77 then 0xCE61E49F
    else if i == 0x78 then 0x5EDEF90E
    else if i == 0x79 then 0x29D9C998
    else if i == 0x7A then 0xB0D09822
    else if i == 0x7B then 0xC7D7A8B4
    else if i == 0x7C then 0x59B33D17
    else if i == 0x7D then 0x2EB40D81
    else if i == 0x7E then 0xB7BD5C3B
    else 0xC0BA6CAD
  }

  function Row4(i: bv32): bv32
  {
    if i == 0x80 then 0xEDB88320
    else if i == 0x81 then 0x9ABFB3B6
    else if i == 0x82 then 0x03B6E20C
    else if i == 0x83 then 0x74B1D29A
    else if i == 0x84 then 0xEAD54739
    else if i == 0x85 then 0x9DD277AF
    else if i == 0x86 then 0x04DB2615
    else if i == 0x87 then 0x73DC1683
    else if i == 0x88 then 0xE3630B12
    else if i == 0x89 then 0x94643B84
    else if i == 0x8A then 0x0D6D6A3E
    else if i == 0x8B then 0x7A6A5AA8
    else if i == 0x8C then 0xE40ECF0B
    else if i == 0x8D then 0x9309FF9D
    else if i == 0x8E then 0x0A00AE27
    else if i == 0x8F then 0x7D079EB1
    else if i == 0x90 then 0xF00F9344
    else if i == 0x91 then 0x8708A3D2
    else if i == 0x92 then 0x1E01F268
    else if i == 0x93 then 0x6906C2FE
    else if i == 0x94 then 0xF762575D
    else if i == 0x95 then 0x806567CB
    else if i == 0x96 then 0x196C3671
    else if i == 0x97 then 0x6E6B06E7
    else if i == 0x98 then 0xFED41B76
    else if i == 0x99 then 0x89D32BE0
    else if i == 0x9A then 0x10DA7A5A
    else if i == 0x9B then 0x67DD4ACC
    else if i == 0x9C then 0xF9B9DF6F
    else if i == 0x9D then 0x8EBEEFF9
    else if i == 0x9E then 0x17B7BE43
    else 0x60B08ED5
  }

  function Row5(i: bv32): bv32
  {
    if i == 0xA0 then 0xD6D6A3E8
    else if i == 0xA1 then 0xA1D1937E
    else if i == 0xA2 then 0x38D8C2C4
    else if i == 0xA3 then 0x4FDFF252
    else if i == 0xA4 then 0xD1BB67F1
    else if i == 0xA5 then 0xA6BC5767
    else if i == 0xA6 then 0x3FB506DD
    else if i == 0xA7 then 0x48B2364B
    else if i == 0xA8 then 0xD80D2BDA
    else if i == 0xA9 then 0xAF0A1B4C
    else if i == 0xAA then 0x36034AF6
    else if i == 0xAB then 0x41047A60
    else if i == 0xAC then 0xDF60EFC3
    else if i == 0xAD then 0xA867DF55
    else if i == 0xAE then 0x316E8EEF
    else if i == 0xAF then 0x4669BE79
    else if i == 0xB0 then 0xCB61B38C
    else if i == 0xB1 then 0xBC66831A
    else if i == 0xB2 then 0x256FD2A0
    else if i == 0xB3 then 0x5268E236
    else if i == 0xB4 then 0xCC0C7795
    else if i == 0xB5 then 0xBB0B4703
    else if i == 0xB6 then 0x220216B9
    else if i == 0xB7 then 0x5505262F
    else if i == 0xB8 then 0xC5BA3BBE
    else if i == 0xB9 then 0xB2BD0B28
    else if i == 0xBA then 0x2BB45A92
    else if i == 0xBB then 0x5CB36A04
    else if i == 0xBC then 0xC2D7FFA7
    else if i == 0xBD then 0xB5D0CF31
    else if i == 0xBE then 0x2CD99E8B
    else 0x5BDEAE1D
  }

  function Row6(i: bv32): bv32
  {
    if i == 0xC0 then 0x9B64C2B0
    else if i == 0xC1 then 0xEC63F226
    else if i == 0xC2 then 0x756AA39C
    else if i == 0xC3 then 0x026D930A
    else if i == 0xC4 then 0x9C0906A9
    else if i == 0xC5 then 0xEB0E363F
    else if i == 0xC6 then 0x72076785
    else if i == 0xC7 then 0x05005713
    else if i == 0xC8 then 0x95BF4A82
    else if i == 0xC9 then 0xE2B87A14
    else if i == 0xCA then 0x7BB12BAE
    else if i == 0xCB then 0x0CB61B38
    else if i == 0xCC then 0x92D28E9B
    else if i == 0xCD then 0xE5D5BE0D
    else if i == 0xCE then 0x7CDCEFB7
    else if i == 0xCF then 0x0BDBDF21
    else if i == 0xD0 then 0x86D3D2D4
    else if i == 0xD1 then 0xF1D4E242
    else if i == 0xD2 then 0x68DDB3F8
    else if i == 0xD3 then 0x1FDA836E
    else if i == 0xD4 then 0x81BE16CD
    else if i == 0xD5 then 0xF6B9265B
    else if i == 0xD6 then 0x6FB077E1
    else if i == 0xD7 then 0x18B74777
    else if i == 0xD8 then 0x88085AE6
    else if i == 0xD9 then 0xFF0F6A70
    else if i == 0xDA then 0x66063BCA
    else if i == 0xDB then 0x11010B5C
    else if i == 0xDC then 0x8F659EFF
    else if i == 0xDD then 0xF862AE69
    else if i == 0xDE then 0x616BFFD3
    else 0x166CCF45
  }

  function Row7(i: bv32): bv32
  {
    if i == 0xE0 then 0xA00AE278
    else if i == 0xE1 then 0xD70DD2EE
    else if i == 0xE2 then 0x4E048354
    else if i == 0xE3 then 0x3903B3C2
    else if i == 0xE4 then 0xA7672661
    else if i == 0xE5 then 0xD06016F7
    else if i == 0xE6 then 0x4969474D
    else if i == 0xE7 then 0x3E6E77DB
    else if i == 0xE8 then 0xAED16A4A
    else if i == 0xE9 then 0xD9D65ADC
    else if i == 0xEA then 0x40DF0B66
    else if i == 0xEB then 0x37D83BF0
    else if i == 0xEC then 0xA9BCAE53
    else if i == 0xED then 0xDEBB9EC5
    else if i == 0xEE then 0x47B2CF7F
    else if i == 0xEF then 0x30B5FFE9
    else if i == 0xF0 then 0xBDBDF21C
    else if i == 0xF1 then 0xCABAC28A
    else if i == 0xF2 then 0x53B39330
    else if i == 0xF3 then 0x24B4A3A6
    else if i == 0xF4 then 0xBAD03605
    else if i == 0xF5 then 0xCDD70693
    else if i == 0xF6 then 0x54DE5729
    else if i == 0xF7 then 0x23D967BF
    else if i == 0xF8 then 0xB3667A2E
    else if i == 0xF9 then 0xC4614AB8
    else if i == 0xFA then 0x5D681B02
    else if i == 0xFB then 0x2A6F2B94
    else if i == 0xFC then 0xB40BBE37
    else if i == 0xFD then 0xC30C8EA1
    else if i == 0xFE then 0x5A05DF1B
    else 0x2D02EF8D
  }

  /** Entry i of the lookup table. */
  function Table(i: bv32): bv32
  {
    if i < 32 then Row0(i) else if i < 64 then Row1(i) else if i < 96 then Row2(i) else if i < 128 then Row3(i)
    else if i < 160 then Row4(i) else if i < 192 then Row5(i) else if i < 224 then Row6(i) else Row7(i)
  }

  lemma Row0Entries(i: bv32)
    requires 0 <= i < 32
    ensures Row0(i) == ShiftByte(i)
  {
    hide ShiftByte;
    Bytes0();
    Bytes16();
  }

  lemma Bytes0()
    ensures ShiftByte(0) == 0x00000000
    ensures ShiftByte(1) == 0x77073096
    ensures ShiftByte(2) == 0xEE0E612C
    ensures ShiftByte(3) == 0x990951BA
    ensures ShiftByte(4) == 0x076DC419
    ensures ShiftByte(5) == 0x706AF48F
    ensures ShiftByte(6) == 0xE963A535
    ensures ShiftByte(7) == 0x9E6495A3
    ensures ShiftByte(8) == 0x0EDB8832
    ensures ShiftByte(9) == 0x79DCB8A4
    ensures ShiftByte(10) == 0xE0D5E91E
    ensures ShiftByte(11) == 0x97D2D988
    ensures ShiftByte(12) == 0x09B64C2B
    ensures ShiftByte(13) == 0x7EB17CBD
    ensures ShiftByte(14) == 0xE7B82D07
    ensures ShiftByte(15) == 0x90BF1D91
  {
  }

  lemma Bytes16()
    ensures ShiftByte(16) == 0x1DB71064
    ensures ShiftByte(17) == 0x6AB020F2
    ensures ShiftByte(18) == 0xF3B97148
    ensures ShiftByte(19) == 0x84BE41DE
    ensures ShiftByte(20) == 0x1ADAD47D
    ensures ShiftByte(21) == 0x6DDDE4EB
    ensures ShiftByte(22) == 0xF4D4B551
    ensures ShiftByte(23) == 0x83D385C7
    ensures ShiftByte(24) == 0x136C9856
    ensures ShiftByte(25) == 0x646BA8C0
    ensures ShiftByte(26) == 0xFD62F97A
    ensures ShiftByte(27) == 0x8A65C9EC
    ensures ShiftByte(28) == 0x14015C4F
    ensures ShiftByte(29) == 0x63066CD9
    ensures ShiftByte(30) == 0xFA0F3D63
    ensures ShiftByte(31) == 0x8D080DF5
  {
  }

  lemma Row1Entries(i: bv32)
    requires 32 <= i < 64
    ensures Row1(i) == ShiftByte(i)
  {
    hide ShiftByte;
    Bytes32();
    Bytes48();
  }

  lemma Bytes32()
    ensures ShiftByte(32) == 0x3B6E20C8
    ensures ShiftByte(33) == 0x4C69105E
    ensures ShiftByte(34) == 0xD56041E4
    ensures ShiftByte(35) == 0xA2677172
    ensures ShiftByte(36) == 0x3C03E4D1
    ensures ShiftByte(37) == 0x4B04D447
    ensures ShiftByte(38) == 0xD20D85FD
    ensures ShiftByte(39) == 0xA50AB56B
    ensures ShiftByte(40) == 0x35B5A8FA
    ensures ShiftByte(41) == 0x42B2986C
    ensures ShiftByte(42) == 0xDBBBC9D6
    ensures ShiftByte(43) == 0xACBCF940
    ensures ShiftByte(44) == 0x32D86CE3
    ensures ShiftByte(45) == 0x45DF5C75
    ensures ShiftByte(46) == 0xDCD60DCF
    ensures ShiftByte(47) == 0xABD13D59
  {
  }

  lemma Bytes48()
    ensures ShiftByte(48) == 0x26D930AC
    ensures ShiftByte(49) == 0x51DE003A
    ensures ShiftByte(50) == 0xC8D75180
    ensures ShiftByte(51) == 0xBFD06116
    ensures ShiftByte(52) == 0x21B4F4B5
    ensures ShiftByte(53) == 0x56B3C423
    ensures ShiftByte(54) == 0xCFBA9599
    ensures ShiftByte(55) == 0xB8BDA50F
    ensures ShiftByte(56) == 0x2802B89E
    ensures ShiftByte(57) == 0x5F058808
    ensures ShiftByte(58) == 0xC60CD9B2
    ensures ShiftByte(59) == 0xB10BE924
    ensures ShiftByte(60) == 0x2F6F7C87
    ensures ShiftByte(61) == 0x58684C11
    ensures ShiftByte(62) == 0xC1611DAB
    ensures ShiftByte(63) == 0xB6662D3D
  {
  }

  lemma Row2Entries(i: bv32)
    requires 64 <= i < 96
    ensures Row2(i) == ShiftByte(i)
  {
    hide ShiftByte;
    Bytes64();
    Bytes80();
  }

  lemma Bytes64()
    ensures ShiftByte(64) == 0x76DC4190
    ensures ShiftByte(65) == 0x01DB7106
    ensures ShiftByte(66) == 0x98D220BC
    ensures ShiftByte(67) == 0xEFD5102A
    ensures ShiftByte(68) == 0x71B18589
    ensures ShiftByte(69) == 0x06B6B51F
    ensures ShiftByte(70) == 0x9FBFE4A5
    ensures ShiftByte(71) == 0xE8B8D433
    ensures ShiftByte(72) == 0x7807C9A2
    ensures ShiftByte(73) == 0x0F00F934
    ensures ShiftByte(74) == 0x9609A88E
    ensures ShiftByte(75) == 0xE10E9818
    ensures ShiftByte(76) == 0x7F6A0DBB
    ensures ShiftByte(77) == 0x086D3D2D
    ensures ShiftByte(78) == 0x91646C97
    ensures ShiftByte(79) == 0xE6635C01
  {
  }

  lemma Bytes80()
    ensures ShiftByte(80) == 0x6B6B51F4
    ensures ShiftByte(81) == 0x1C6C6162
    ensures ShiftByte(82) == 0x856530D8
    ensures ShiftByte(83) == 0xF262004E
    ensures ShiftByte(84) == 0x6C0695ED
    ensures ShiftByte(85) == 0x1B01A57B
    ensures ShiftByte(86) == 0x8208F4C1
    ensures ShiftByte(87) == 0xF50FC457
    ensures ShiftByte(88) == 0x65B0D9C6
    ensures ShiftByte(89) == 0x12B7E950
    ensures ShiftByte(90) == 0x8BBEB8EA
    ensures ShiftByte(91) == 0xFCB9887C
    ensures ShiftByte(92) == 0x62DD1DDF
    ensures ShiftByte(93) == 0x15DA2D49
    ensures ShiftByte(94) == 0x8CD37CF3
    ensures ShiftByte(95) == 0xFBD44C65
  {
  }

  lemma Row3Entries(i: bv32)
    requires 96 <= i < 128
    ensures Row3(i) == ShiftByte(i)
  {
    hide ShiftByte;
    Bytes96();
    Bytes112();
  }

  lemma Bytes96()
    ensures ShiftByte(96) == 0x4DB26158
    ensures ShiftByte(97) == 0x3AB551CE
    ensures ShiftByte(98) == 0xA3BC0074
    ensures ShiftByte(99) == 0xD4BB30E2
    ensures ShiftByte(100) == 0x4ADFA541
    ensures ShiftByte(101) == 0x3DD895D7
    ensures ShiftByte(102) == 0xA4D1C46D
    ensures ShiftByte(103) == 0xD3D6F4FB
    ensures ShiftByte(104) == 0x4369E96A
    ensures ShiftByte(105) == 0x346ED9FC
    ensures ShiftByte(106) == 0xAD678846
    ensures ShiftByte(107) == 0xDA60B8D0
    ensures ShiftByte(108) == 0x44042D73
    ensures ShiftByte(109) == 0x33031DE5
    ensures ShiftByte(110) == 0xAA0A4C5F
    ensures ShiftByte(111) == 0xDD0D7CC9
  {
  }

  lemma Bytes112()
    ensures ShiftByte(112) == 0x5005713C
    ensures ShiftByte(113) == 0x270241AA
    ensures ShiftByte(114) == 0xBE0B1010
    ensures ShiftByte(115) == 0xC90C2086
    ensures ShiftByte(116) == 0x5768B525
    ensures ShiftByte(117) == 0x206F85B3
    ensures ShiftByte(118) == 0xB966D409
    ensures ShiftByte(119) == 0xCE61E49F
    ensures ShiftByte(120) == 0x5EDEF90E
    ensures ShiftByte(121) == 0x29D9C998
    ensures ShiftByte(122) == 0xB0D09822
    ensures ShiftByte(123) == 0xC7D7A8B4
    ensures ShiftByte(124) == 0x59B33D17
    ensures ShiftByte(125) == 0x2EB40D81
    ensures ShiftByte(126) == 0xB7BD5C3B
    ensures ShiftByte(127) == 0xC0BA6CAD
  {
  }

  lemma Row4Entries(i: bv32)
    requires 128 <= i < 160
    ensures Row4(i) == ShiftByte(i)
  {
    hide ShiftByte;
    Bytes128();
    Bytes144();
  }

  lemma Bytes128()
    ensures ShiftByte(128) == 0xEDB88320
    ensures ShiftByte(129) == 0x9ABFB3B6
    ensures ShiftByte(130) == 0x03B6E20C
    ensures ShiftByte(131) == 0x74B1D29A
    ensures ShiftByte(132) == 0xEAD54739
    ensures ShiftByte(133) == 0x9DD277AF
    ensures ShiftByte(134) == 0x04DB2615
    ensures ShiftByte(135) == 0x73DC1683
    ensures ShiftByte(136) == 0xE3630B12
    ensures ShiftByte(137) == 0x94643B84
    ensures ShiftByte(138) == 0x0D6D6A3E
    ensures ShiftByte(139) == 0x7A6A5AA8
    ensures ShiftByte(140) == 0xE40ECF0B
    ensures ShiftByte(141) == 0x9309FF9D
    ensures ShiftByte(142) == 0x0A00AE27
    ensures ShiftByte(143) == 0x7D079EB1
  {
  }

  lemma Bytes144()
    ensures ShiftByte(144) == 0xF00F9344
    ensures ShiftByte(145) == 0x8708A3D2
    ensures ShiftByte(146) == 0x1E01F268
    ensures ShiftByte(147) == 0x6906C2FE
    ensures ShiftByte(148) == 0xF762575D
    ensures ShiftByte(149) == 0x806567CB
    ensures ShiftByte(150) == 0x196C3671
    ensures ShiftByte(151) == 0x6E6B06E7
    ensures ShiftByte(152) == 0xFED41B76
    ensures ShiftByte(153) == 0x89D32BE0
    ensures ShiftByte(154) == 0x10DA7A5A
    ensures ShiftByte(155) == 0x67DD4ACC
    ensures ShiftByte(156) == 0xF9B9DF6F
    ensures ShiftByte(157) == 0x8EBEEFF9
    ensures ShiftByte(158) == 0x17B7BE43
    ensures ShiftByte(159) == 0x60B08ED5
  {
  }

  lemma Row5Entries(i: bv32)
    requires 160 <= i < 192
    ensures Row5(i) == ShiftByte(i)
  {
    hide ShiftByte;
    Bytes160();
    Bytes176();
  }

  lemma Bytes160()
    ensures ShiftByte(160) == 0xD6D6A3E8
    ensures ShiftByte(161) == 0xA1D1937E
    ensures ShiftByte(162) == 0x38D8C2C4
    ensures ShiftByte(163) == 0x4FDFF252
    ensures ShiftByte(164) == 0xD1BB67F1
    ensures ShiftByte(165) == 0xA6BC5767
    ensures ShiftByte(166) == 0x3FB506DD
    ensures ShiftByte(167) == 0x48B2364B
    ensures ShiftByte(168) == 0xD80D2BDA
    ensures ShiftByte(169) == 0xAF0A1B4C
    ensures ShiftByte(170) == 0x36034AF6
    ensures ShiftByte(171) == 0x41047A60
    ensures ShiftByte(172) == 0xDF60EFC3
    ensures ShiftByte(173) == 0xA867DF55
    ensures ShiftByte(174) == 0x316E8EEF
    ensures ShiftByte(175) == 0x4669BE79
  {
  }

  lemma Bytes176()
    ensures ShiftByte(176) == 0xCB61B38C
    ensures ShiftByte(177) == 0xBC66831A
    ensures ShiftByte(178) == 0x256FD2A0
    ensures ShiftByte(179) == 0x5268E236
    ensures ShiftByte(180) == 0xCC0C7795
    ensures ShiftByte(181) == 0xBB0B4703
    ensures ShiftByte(182) == 0x220216B9
    ensures ShiftByte(183) == 0x5505262F
    ensures ShiftByte(184) == 0xC5BA3BBE
    ensures ShiftByte(185) == 0xB2BD0B28
    ensures ShiftByte(186) == 0x2BB45A92
    ensures ShiftByte(187) == 0x5CB36A04
    ensures ShiftByte(188) == 0xC2D7FFA7
    ensures ShiftByte(189) == 0xB5D0CF31
    ensures ShiftByte(190) == 0x2CD99E8B
    ensures ShiftByte(191) == 0x5BDEAE1D
  {
  }

  lemma Row6Entries(i: bv32)
    requires 192 <= i < 224
    ensures Row6(i) == ShiftByte(i)
  {
    hide ShiftByte;
    Bytes192();
    Bytes208();
  }

  lemma Bytes192()
    ensures ShiftByte(192) == 0x9B64C2B0
    ensures ShiftByte(193) == 0xEC63F226
    ensures ShiftByte(194) == 0x756AA39C
    ensures ShiftByte(195) == 0x026D930A
    ensures ShiftByte(196) == 0x9C0906A9
    ensures ShiftByte(197) == 0xEB0E363F
    ensures ShiftByte(198) == 0x72076785
    ensures ShiftByte(199) == 0x05005713
    ensures ShiftByte(200) == 0x95BF4A82
    ensures ShiftByte(201) == 0xE2B87A14
    ensures ShiftByte(202) == 0x7BB12BAE
    ensures ShiftByte(203) == 0x0CB61B38
    ensures ShiftByte(204) == 0x92D28E9B
    ensures ShiftByte(205) == 0xE5D5BE0D
    ensures ShiftByte(206) == 0x7CDCEFB7
    ensures ShiftByte(207) == 0x0BDBDF21
  {
  }

  lemma Bytes208()
    ensures ShiftByte(208) == 0x86D3D2D4
    ensures ShiftByte(209) == 0xF1D4E242
    ensures ShiftByte(210) == 0x68DDB3F8
    ensures ShiftByte(211) == 0x1FDA836E
    ensures ShiftByte(212) == 0x81BE16CD
    ensures ShiftByte(213) == 0xF6B9265B
    ensures ShiftByte(214) == 0x6FB077E1
    ensures ShiftByte(215) == 0x18B74777
    ensures ShiftByte(216) == 0x88085AE6
    ensures ShiftByte(217) == 0xFF0F6A70
    ensures ShiftByte(218) == 0x66063BCA
    ensures ShiftByte(219) == 0x11010B5C
    ensures ShiftByte(220) == 0x8F659EFF
    ensures ShiftByte(221) == 0xF862AE69
    ensures ShiftByte(222) == 0x616BFFD3
    ensures ShiftByte(223) == 0x166CCF45
  {
  }

  lemma Row7Entries(i: bv32)
    requires 224 <= i < 256
    ensures Row7(i) == ShiftByte(i)
  {
    hide ShiftByte;
    Bytes224();
    Bytes240();
  }

  lemma Bytes224()
    ensures ShiftByte(224) == 0xA00AE278
    ensures ShiftByte(225) == 0xD70DD2EE
    ensures ShiftByte(226) == 0x4E048354
    ensures ShiftByte(227) == 0x3903B3C2
    ensures ShiftByte(228) == 0xA7672661
    ensures ShiftByte(229) == 0xD06016F7
    ensures ShiftByte(230) == 0x4969474D
    ensures ShiftByte(231) == 0x3E6E77DB
    ensures ShiftByte(232) == 0xAED16A4A
    ensures ShiftByte(233) == 0xD9D65ADC
    ensures ShiftByte(234) == 0x40DF0B66
    ensures ShiftByte(235) == 0x37D83BF0
    ensures ShiftByte(236) == 0xA9BCAE53
    ensures ShiftByte(237) == 0xDEBB9EC5
    ensures ShiftByte(238) == 0x47B2CF7F
    ensures ShiftByte(239) == 0x30B5FFE9
  {
  }

  lemma Bytes240()
    ensures ShiftByte(240) == 0xBDBDF21C
    ensures ShiftByte(241) == 0xCABAC28A
    ensures ShiftByte(242) == 0x53B39330
    ensures ShiftByte(243) == 0x24B4A3A6
    ensures ShiftByte(244) == 0xBAD03605
    ensures ShiftByte(245) == 0xCDD70693
    ensures ShiftByte(246) == 0x54DE5729
    ensures ShiftByte(247) == 0x23D967BF
    ensures ShiftByte(248) == 0xB3667A2E
    ensures ShiftByte(249) == 0xC4614AB8
    ensures ShiftByte(250) == 0x5D681B02
    ensures ShiftByte(251) == 0x2A6F2B94
    ensures ShiftByte(252) == 0xB40BBE37
    ensures ShiftByte(253) == 0xC30C8EA1
    ensures ShiftByte(254) == 0x5A05DF1B
    ensures ShiftByte(255) == 0x2D02EF8D
  {
  }

  /** The table holds the effect of shifting out each byte. */
  lemma TableEntries(i: bv32)
    requires i < 256
    ensures Table(i) == ShiftByte(i)
  {
    hide ShiftByte, Row0, Row1, Row2, Row3, Row4, Row5, Row6, Row7;
    if i < 32 { Row0Entries(i); }
    else if i < 64 { Row1Entries(i); }
    else if i < 96 { Row2Entries(i); }
    else if i < 128 { Row3Entries(i); }
    else if i < 160 { Row4Entries(i); }
    else if i < 192 { Row5Entries(i); }
    else if i < 224 { Row6Entries(i); }
    else { Row7Entries(i); }
  }

  // ---------------------------------------------------------------- update

  /** One byte by table look-up. */
  function TableStep(cs: bv32, b: byte): bv32
  {
    Xor(DropByte(cs), Table(Low(Xor(cs, b as bv32))))
  }

  lemma LowIsByte(x: bv32)
    ensures Low(x) < 256
  {
  }

  lemma ByteIsSmall(b: byte)
    ensures b as bv32 < 256
  {
  }

  lemma ByteIsLow(x: bv32, b: bv32)
    requires b < 256
    ensures DropByte(Xor(x, b)) == DropByte(x)
  {
  }

  /** A table step is eight single-bit steps. */
  lemma TableStepIsAddByte(cs: bv32, b: byte)
    ensures TableStep(cs, b) == AddByte(cs, b)
  {
    hide ShiftByte, Table, Xor, Low, DropByte;
    ByteIsSmall(b);
    ByteIsLow(cs, b as bv32);
    ShiftByteSplits(Xor(cs, b as bv32));
    LowIsByte(Xor(cs, b as bv32));
    TableEntries(Low(Xor(cs, b as bv32)));
  }

  lemma Steps(r: bv32, b: byte, s: seq<byte>)
    ensures Register(r, [b] + s) == Register(AddByte(r, b), s)
  {
    hide AddByte;
    assert ([b] + s)[1..] == s;
  }

  lemma NothingAdded(r: bv32)
    ensures Register(r, []) == r
  {
  }

  lemma ByteAdded(r: bv32, b: byte, x: bv32)
    requires b as bv32 == x
    ensures AddByte(r, b) == ShiftByte(Xor(r, x))
  {
  }

  lemma Check1()
    ensures AddByte(0xFFFF_FFFF, 49) == 0x7C23_1048
  {
    hide AddByte;
    ByteAdded(0xFFFF_FFFF, 49, 49);
  }

  lemma Check2()
    ensures AddByte(0x7C23_1048, 50) == 0xB0AC_BB32
  {
    hide AddByte;
    ByteAdded(0x7C23_1048, 50, 50);
  }

  lemma Check3()
    ensures AddByte(0xB0AC_BB32, 51) == 0x77B7_9C2D
  {
    hide AddByte;
    ByteAdded(0xB0AC_BB32, 51, 51);
  }

  lemma Check4()
    ensures AddByte(0x77B7_9C2D, 52) == 0x641C_1F5C
  {
    hide AddByte;
    ByteAdded(0x77B7_9C2D, 52, 52);
  }

  lemma Check5()
    ensures AddByte(0x641C_1F5C, 53) == 0x340A_C5E3
  {
    hide AddByte;
    ByteAdded(0x641C_1F5C, 53, 53);
  }

  lemma Check6()
    ensures AddByte(0x340A_C5E3, 54) == 0xF68D_2C9E
  {
    hide AddByte;
    ByteAdded(0x340A_C5E3, 54, 54);
  }

  lemma Check7()
    ensures AddByte(0xF68D_2C9E, 55) == 0xAFFC_9660
  {
    hide AddByte;
    ByteAdded(0xF68D_2C9E, 55, 55);
  }

  lemma Check8()
    ensures AddByte(0xAFFC_9660, 56) == 0x651F_2550
  {
    hide AddByte;
    ByteAdded(0xAFFC_9660, 56, 56);
  }

  lemma Check9()
    ensures AddByte(0x651F_2550, 57) == 0x340B_C6D9
  {
    hide AddByte;
    ByteAdded(0x651F_2550, 57, 57);
  }

  /** The register after the digits 1 to 9: the check value of the CRC catalogue, whose final inversion this library leaves out. */
  lemma CheckValue()
    ensures Register(INITIAL, [49, 50, 51, 52, 53, 54, 55, 56, 57]) == 0x340B_C6D9
  {
    hide AddByte, Register;
    NothingAdded(0x340B_C6D9);
    Check1();
    Steps(0xFFFF_FFFF, 49, [50, 51, 52, 53, 54, 55, 56, 57]);
    assert [49] + [50, 51, 52, 53, 54, 55, 56, 57] == [49, 50, 51, 52, 53, 54, 55, 56, 57];
    Check2();
    Steps(0x7C23_1048, 50, [51, 52, 53, 54, 55, 56, 57]);
    assert [50] + [51, 52, 53, 54, 55, 56, 57] == [50, 51, 52, 53, 54, 55, 56, 57];
    Check3();
    Steps(0xB0AC_BB32, 51, [52, 53, 54, 55, 56, 57]);
    assert [51] + [52, 53, 54, 55, 56, 57] == [51, 52, 53, 54, 55, 56, 57];
    Check4();
    Steps(0x77B7_9C2D, 52, [53, 54, 55, 56, 57]);
    assert [52] + [53, 54, 55, 56, 57] == [52, 53, 54, 55, 56, 57];
    Check5();
    Steps(0x641C_1F5C, 53, [54, 55, 56, 57]);
    assert [53] + [54, 55, 56, 57] == [53, 54, 55, 56, 57];
    Check6();
    Steps(0x340A_C5E3, 54, [55, 56, 57]);
    assert [54] + [55, 56, 57] == [54, 55, 56, 57];
    Check7();
    Steps(0xF68D_2C9E, 55, [56, 57]);
    assert [55] + [56, 57] == [55, 56, 57];
    Check8();
    Steps(0xAFFC_9660, 56, [57]);
    assert [56] + [57] == [56, 57];
    Check9();
    Steps(0x651F_2550, 57, []);
    assert [57] + [] == [57];
  }

  /** Updates a checksum with a buffer. */
  method UpdateCrc32(checksum: bv32, buffer: seq<byte>) returns (cs: bv32)
    ensures cs == Register(checksum, buffer)
  {
    hide AddByte, TableStep;
    cs := checksum;
    var p := 0;
    while p != |buffer|
      invariant p <= |buffer| && Register(cs, buffer[p..]) == Register(checksum, buffer)
      decreases |buffer| - p
    {
      assert buffer[p..][1..] == buffer[p + 1..];
      TableStepIsAddByte(cs, buffer[p]);
      cs := TableStep(cs, buffer[p]);
      p := p + 1;
    }
  }

  /** The compile-time checksum of the first length bytes, by recursion on the position. */
  function CalculateConstexpr(bytes: seq<byte>, length: nat, previous: bv32, position: nat): bv32
    requires position <= length <= |bytes|
    decreases length - position
  {
    if position == length then previous
    else CalculateConstexpr(bytes, length, TableStep(previous, bytes[position]), position + 1)
  }

  /** Compile-time and run-time checksums agree. */
  lemma {:induction false} ConstexprIsRegister(bytes: seq<byte>, length: nat, previous: bv32, position: nat)
    requires position <= length <= |bytes|
    ensures CalculateConstexpr(bytes, length, previous, position) == Register(previous, bytes[position..length])
    decreases length - position
  {
    hide TableStep, AddByte;
    if position < length {
      TableStepIsAddByte(previous, bytes[position]);
      ConstexprIsRegister(bytes, length, TableStep(previous, bytes[position]), position + 1);
      assert bytes[position..length][1..] == bytes[position + 1..length];
    }
  }

  /** A checksum as a value, and the checksum of more bytes. */
  datatype Sum = Sum(register: bv32)

  const START := Sum(INITIAL)

  function Add(c: Sum, s: seq<byte>): Sum
  {
    Sum(Register(c.register, s))
  }

  lemma AddSplit(c: Sum, a: seq<byte>, b: seq<byte>)
    ensures Add(c, a + b) == Add(Add(c, a), b)
  {
    RegisterSplit(c.register, a, b);
  }

  /** An incremental checksum. */
  class Checksum {
    var checksum: bv32

    ghost function Value(): Sum
      reads this
    {
      Sum(checksum)
    }

    constructor ()
      ensures Value() == START
    {
      checksum := INITIAL;
    }

    method Update(buffer: seq<byte>)
      modifies this
      ensures Value() == Add(old(Value()), buffer)
    {
      checksum := UpdateCrc32(checksum, buffer);
    }
  }
}
