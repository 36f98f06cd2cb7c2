/** crc64.c: the checksum by table, and the division it stands for. */
module Crc64 {

  type Octets = seq<bv8>

  function Xor(x: bv64, y: bv64): bv64 { x ^ y }
  function Half(x: bv64): bv64 { x >> 1 }
  function Wide(b: bv8): bv64 { b as bv64 }
  function LowByte(x: bv64): bv8 { (x & 0xff) as bv8 }
  function HighBytes(x: bv64): bv64 { x & 0xffff_ffff_ffff_ff00 }
  function Shift8(x: bv64): bv64 { x >> 8 }

  // ----- the division

  /** The generator 0xad93d23594c935a9 with its bits in reverse order, the order of the register. */
  const POLY: bv64 := 0x95ac9329ac4bc9b5

  function Subtrahend(x: bv64): bv64 { if x & 1 == 1 then POLY else 0 }

  /** One bit: shift it out, and subtract the generator if it was set. */
  function Bit(x: bv64): bv64 { Xor(Half(x), Subtrahend(x)) }

  function Bits(x: bv64, n: nat): bv64
    decreases n
  {
    if n == 0 then x else Bits(Bit(x), n - 1)
  }

  /** The register after one more byte of the message. */
  function Step(crc: bv64, b: bv8): bv64 { Bits(Xor(crc, Wide(b)), 8) }

  /** The remainder after dividing a message, beginning with the register crc. */
  function Crc(crc: bv64, s: Octets): bv64
    decreases |s|
  {
    if s == [] then crc else Crc(Step(crc, s[0]), s[1..])
  }

  // ----- the table

  function Row0(j: bv8): bv64 {
    if j == 0 then 0x0000000000000000 else if j == 1 then 0x7ad870c830358979
    else if j == 2 then 0xf5b0e190606b12f2 else if j == 3 then 0x8f689158505e9b8b
    else if j == 4 then 0xc038e5739841b68f else if j == 5 then 0xbae095bba8743ff6
    else if j == 6 then 0x358804e3f82aa47d else if j == 7 then 0x4f50742bc81f2d04
    else if j == 8 then 0xab28ecb46814fe75 else if j == 9 then 0xd1f09c7c5821770c
    else if j == 10 then 0x5e980d24087fec87 else if j == 11 then 0x24407dec384a65fe
    else if j == 12 then 0x6b1009c7f05548fa else if j == 13 then 0x11c8790fc060c183
    else if j == 14 then 0x9ea0e857903e5a08 else 0xe478989fa00bd371
  }

  function Row1(j: bv8): bv64 {
    if j == 0 then 0x7d08ff3b88be6f81 else if j == 1 then 0x07d08ff3b88be6f8
    else if j == 2 then 0x88b81eabe8d57d73 else if j == 3 then 0xf2606e63d8e0f40a
    else if j == 4 then 0xbd301a4810ffd90e else if j == 5 then 0xc7e86a8020ca5077
    else if j == 6 then 0x4880fbd87094cbfc else if j == 7 then 0x32588b1040a14285
    else if j == 8 then 0xd620138fe0aa91f4 else if j == 9 then 0xacf86347d09f188d
    else if j == 10 then 0x2390f21f80c18306 else if j == 11 then 0x594882d7b0f40a7f
    else if j == 12 then 0x1618f6fc78eb277b else if j == 13 then 0x6cc0863448deae02
    else if j == 14 then 0xe3a8176c18803589 else 0x997067a428b5bcf0
  }

  function Row2(j: bv8): bv64 {
    if j == 0 then 0xfa11fe77117cdf02 else if j == 1 then 0x80c98ebf2149567b
    else if j == 2 then 0x0fa11fe77117cdf0 else if j == 3 then 0x75796f2f41224489
    else if j == 4 then 0x3a291b04893d698d else if j == 5 then 0x40f16bccb908e0f4
    else if j == 6 then 0xcf99fa94e9567b7f else if j == 7 then 0xb5418a5cd963f206
    else if j == 8 then 0x513912c379682177 else if j == 9 then 0x2be1620b495da80e
    else if j == 10 then 0xa489f35319033385 else if j == 11 then 0xde51839b2936bafc
    else if j == 12 then 0x9101f7b0e12997f8 else if j == 13 then 0xebd98778d11c1e81
    else if j == 14 then 0x64b116208142850a else 0x1e6966e8b1770c73
  }

  function Row3(j: bv8): bv64 {
    if j == 0 then 0x8719014c99c2b083 else if j == 1 then 0xfdc17184a9f739fa
    else if j == 2 then 0x72a9e0dcf9a9a271 else if j == 3 then 0x08719014c99c2b08
    else if j == 4 then 0x4721e43f0183060c else if j == 5 then 0x3df994f731b68f75
    else if j == 6 then 0xb29105af61e814fe else if j == 7 then 0xc849756751dd9d87
    else if j == 8 then 0x2c31edf8f1d64ef6 else if j == 9 then 0x56e99d30c1e3c78f
    else if j == 10 then 0xd9810c6891bd5c04 else if j == 11 then 0xa3597ca0a188d57d
    else if j == 12 then 0xec09088b6997f879 else if j == 13 then 0x96d1784359a27100
    else if j == 14 then 0x19b9e91b09fcea8b else 0x636199d339c963f2
  }

  function Row4(j: bv8): bv64 {
    if j == 0 then 0xdf7adabd7a6e2d6f else if j == 1 then 0xa5a2aa754a5ba416
    else if j == 2 then 0x2aca3b2d1a053f9d else if j == 3 then 0x50124be52a30b6e4
    else if j == 4 then 0x1f423fcee22f9be0 else if j == 5 then 0x659a4f06d21a1299
    else if j == 6 then 0xeaf2de5e82448912 else if j == 7 then 0x902aae96b271006b
    else if j == 8 then 0x74523609127ad31a else if j == 9 then 0x0e8a46c1224f5a63
    else if j == 10 then 0x81e2d7997211c1e8 else if j == 11 then 0xfb3aa75142244891
    else if j == 12 then 0xb46ad37a8a3b6595 else if j == 13 then 0xceb2a3b2ba0eecec
    else if j == 14 then 0x41da32eaea507767 else 0x3b024222da65fe1e
  }

  function Row5(j: bv8): bv64 {
    if j == 0 then 0xa2722586f2d042ee else if j == 1 then 0xd8aa554ec2e5cb97
    else if j == 2 then 0x57c2c41692bb501c else if j == 3 then 0x2d1ab4dea28ed965
    else if j == 4 then 0x624ac0f56a91f461 else if j == 5 then 0x1892b03d5aa47d18
    else if j == 6 then 0x97fa21650afae693 else if j == 7 then 0xed2251ad3acf6fea
    else if j == 8 then 0x095ac9329ac4bc9b else if j == 9 then 0x7382b9faaaf135e2
    else if j == 10 then 0xfcea28a2faafae69 else if j == 11 then 0x8632586aca9a2710
    else if j == 12 then 0xc9622c4102850a14 else if j == 13 then 0xb3ba5c8932b0836d
    else if j == 14 then 0x3cd2cdd162ee18e6 else 0x460abd1952db919f
  }

  function Row6(j: bv8): bv64 {
    if j == 0 then 0x256b24ca6b12f26d else if j == 1 then 0x5fb354025b277b14
    else if j == 2 then 0xd0dbc55a0b79e09f else if j == 3 then 0xaa03b5923b4c69e6
    else if j == 4 then 0xe553c1b9f35344e2 else if j == 5 then 0x9f8bb171c366cd9b
    else if j == 6 then 0x10e3202993385610 else if j == 7 then 0x6a3b50e1a30ddf69
    else if j == 8 then 0x8e43c87e03060c18 else if j == 9 then 0xf49bb8b633338561
    else if j == 10 then 0x7bf329ee636d1eea else if j == 11 then 0x012b592653589793
    else if j == 12 then 0x4e7b2d0d9b47ba97 else if j == 13 then 0x34a35dc5ab7233ee
    else if j == 14 then 0xbbcbcc9dfb2ca865 else 0xc113bc55cb19211c
  }

  function Row7(j: bv8): bv64 {
    if j == 0 then 0x5863dbf1e3ac9dec else if j == 1 then 0x22bbab39d3991495
    else if j == 2 then 0xadd33a6183c78f1e else if j == 3 then 0xd70b4aa9b3f20667
    else if j == 4 then 0x985b3e827bed2b63 else if j == 5 then 0xe2834e4a4bd8a21a
    else if j == 6 then 0x6debdf121b863991 else if j == 7 then 0x1733afda2bb3b0e8
    else if j == 8 then 0xf34b37458bb86399 else if j == 9 then 0x8993478dbb8deae0
    else if j == 10 then 0x06fbd6d5ebd3716b else if j == 11 then 0x7c23a61ddbe6f812
    else if j == 12 then 0x3373d23613f9d516 else if j == 13 then 0x49aba2fe23cc5c6f
    else if j == 14 then 0xc6c333a67392c7e4 else 0xbc1b436e43a74e9d
  }

  function Row8(j: bv8): bv64 {
    if j == 0 then 0x95ac9329ac4bc9b5 else if j == 1 then 0xef74e3e19c7e40cc
    else if j == 2 then 0x601c72b9cc20db47 else if j == 3 then 0x1ac40271fc15523e
    else if j == 4 then 0x5594765a340a7f3a else if j == 5 then 0x2f4c0692043ff643
    else if j == 6 then 0xa02497ca54616dc8 else if j == 7 then 0xdafce7026454e4b1
    else if j == 8 then 0x3e847f9dc45f37c0 else if j == 9 then 0x445c0f55f46abeb9
    else if j == 10 then 0xcb349e0da4342532 else if j == 11 then 0xb1eceec59401ac4b
    else if j == 12 then 0xfebc9aee5c1e814f else if j == 13 then 0x8464ea266c2b0836
    else if j == 14 then 0x0b0c7b7e3c7593bd else 0x71d40bb60c401ac4
  }

  function Row9(j: bv8): bv64 {
    if j == 0 then 0xe8a46c1224f5a634 else if j == 1 then 0x927c1cda14c02f4d
    else if j == 2 then 0x1d148d82449eb4c6 else if j == 3 then 0x67ccfd4a74ab3dbf
    else if j == 4 then 0x289c8961bcb410bb else if j == 5 then 0x5244f9a98c8199c2
    else if j == 6 then 0xdd2c68f1dcdf0249 else if j == 7 then 0xa7f41839ecea8b30
    else if j == 8 then 0x438c80a64ce15841 else if j == 9 then 0x3954f06e7cd4d138
    else if j == 10 then 0xb63c61362c8a4ab3 else if j == 11 then 0xcce411fe1cbfc3ca
    else if j == 12 then 0x83b465d5d4a0eece else if j == 13 then 0xf96c151de49567b7
    else if j == 14 then 0x76048445b4cbfc3c else 0x0cdcf48d84fe7545
  }

  function RowA(j: bv8): bv64 {
    if j == 0 then 0x6fbd6d5ebd3716b7 else if j == 1 then 0x15651d968d029fce
    else if j == 2 then 0x9a0d8ccedd5c0445 else if j == 3 then 0xe0d5fc06ed698d3c
    else if j == 4 then 0xaf85882d2576a038 else if j == 5 then 0xd55df8e515432941
    else if j == 6 then 0x5a3569bd451db2ca else if j == 7 then 0x20ed197575283bb3
    else if j == 8 then 0xc49581ead523e8c2 else if j == 9 then 0xbe4df122e51661bb
    else if j == 10 then 0x3125607ab548fa30 else if j == 11 then 0x4bfd10b2857d7349
    else if j == 12 then 0x04ad64994d625e4d else if j == 13 then 0x7e7514517d57d734
    else if j == 14 then 0xf11d85092d094cbf else 0x8bc5f5c11d3cc5c6
  }

  function RowB(j: bv8): bv64 {
    if j == 0 then 0x12b5926535897936 else if j == 1 then 0x686de2ad05bcf04f
    else if j == 2 then 0xe70573f555e26bc4 else if j == 3 then 0x9ddd033d65d7e2bd
    else if j == 4 then 0xd28d7716adc8cfb9 else if j == 5 then 0xa85507de9dfd46c0
    else if j == 6 then 0x273d9686cda3dd4b else if j == 7 then 0x5de5e64efd965432
    else if j == 8 then 0xb99d7ed15d9d8743 else if j == 9 then 0xc3450e196da80e3a
    else if j == 10 then 0x4c2d9f413df695b1 else if j == 11 then 0x36f5ef890dc31cc8
    else if j == 12 then 0x79a59ba2c5dc31cc else if j == 13 then 0x037deb6af5e9b8b5
    else if j == 14 then 0x8c157a32a5b7233e else 0xf6cd0afa9582aa47
  }

  function RowC(j: bv8): bv64 {
    if j == 0 then 0x4ad64994d625e4da else if j == 1 then 0x300e395ce6106da3
    else if j == 2 then 0xbf66a804b64ef628 else if j == 3 then 0xc5bed8cc867b7f51
    else if j == 4 then 0x8aeeace74e645255 else if j == 5 then 0xf036dc2f7e51db2c
    else if j == 6 then 0x7f5e4d772e0f40a7 else if j == 7 then 0x05863dbf1e3ac9de
    else if j == 8 then 0xe1fea520be311aaf else if j == 9 then 0x9b26d5e88e0493d6
    else if j == 10 then 0x144e44b0de5a085d else if j == 11 then 0x6e963478ee6f8124
    else if j == 12 then 0x21c640532670ac20 else if j == 13 then 0x5b1e309b16452559
    else if j == 14 then 0xd476a1c3461bbed2 else 0xaeaed10b762e37ab
  }

  function RowD(j: bv8): bv64 {
    if j == 0 then 0x37deb6af5e9b8b5b else if j == 1 then 0x4d06c6676eae0222
    else if j == 2 then 0xc26e573f3ef099a9 else if j == 3 then 0xb8b627f70ec510d0
    else if j == 4 then 0xf7e653dcc6da3dd4 else if j == 5 then 0x8d3e2314f6efb4ad
    else if j == 6 then 0x0256b24ca6b12f26 else if j == 7 then 0x788ec2849684a65f
    else if j == 8 then 0x9cf65a1b368f752e else if j == 9 then 0xe62e2ad306bafc57
    else if j == 10 then 0x6946bb8b56e467dc else if j == 11 then 0x139ecb4366d1eea5
    else if j == 12 then 0x5ccebf68aecec3a1 else if j == 13 then 0x2616cfa09efb4ad8
    else if j == 14 then 0xa97e5ef8cea5d153 else 0xd3a62e30fe90582a
  }

  function RowE(j: bv8): bv64 {
    if j == 0 then 0xb0c7b7e3c7593bd8 else if j == 1 then 0xca1fc72bf76cb2a1
    else if j == 2 then 0x45775673a732292a else if j == 3 then 0x3faf26bb9707a053
    else if j == 4 then 0x70ff52905f188d57 else if j == 5 then 0x0a2722586f2d042e
    else if j == 6 then 0x854fb3003f739fa5 else if j == 7 then 0xff97c3c80f4616dc
    else if j == 8 then 0x1bef5b57af4dc5ad else if j == 9 then 0x61372b9f9f784cd4
    else if j == 10 then 0xee5fbac7cf26d75f else if j == 11 then 0x9487ca0fff135e26
    else if j == 12 then 0xdbd7be24370c7322 else if j == 13 then 0xa10fceec0739fa5b
    else if j == 14 then 0x2e675fb4576761d0 else 0x54bf2f7c6752e8a9
  }

  function RowF(j: bv8): bv64 {
    if j == 0 then 0xcdcf48d84fe75459 else if j == 1 then 0xb71738107fd2dd20
    else if j == 2 then 0x387fa9482f8c46ab else if j == 3 then 0x42a7d9801fb9cfd2
    else if j == 4 then 0x0df7adabd7a6e2d6 else if j == 5 then 0x772fdd63e7936baf
    else if j == 6 then 0xf8474c3bb7cdf024 else if j == 7 then 0x829f3cf387f8795d
    else if j == 8 then 0x66e7a46c27f3aa2c else if j == 9 then 0x1c3fd4a417c62355
    else if j == 10 then 0x935745fc4798b8de else if j == 11 then 0xe98f353477ad31a7
    else if j == 12 then 0xa6df411fbfb21ca3 else if j == 13 then 0xdc0731d78f8795da
    else if j == 14 then 0x536fa08fdfd90e51 else 0x29b7d047efec8728
  }

  function Rows0To3(r: bv8, j: bv8): bv64 {
    if r == 0 then Row0(j) else if r == 1 then Row1(j) else if r == 2 then Row2(j) else Row3(j)
  }

  function Rows4To7(r: bv8, j: bv8): bv64 {
    if r == 4 then Row4(j) else if r == 5 then Row5(j) else if r == 6 then Row6(j) else Row7(j)
  }

  function Rows8ToB(r: bv8, j: bv8): bv64 {
    if r == 8 then Row8(j) else if r == 9 then Row9(j) else if r == 10 then RowA(j) else RowB(j)
  }

  function RowsCToF(r: bv8, j: bv8): bv64 {
    if r == 12 then RowC(j) else if r == 13 then RowD(j) else if r == 14 then RowE(j) else RowF(j)
  }

  function Row(r: bv8, j: bv8): bv64 {
    var q := r & 12;
    if q == 0 then Rows0To3(r, j) else if q == 4 then Rows4To7(r, j)
    else if q == 8 then Rows8ToB(r, j) else RowsCToF(r, j)
  }

  function HighNibble(i: bv8): bv8 { i >> 4 }
  function LowNibble(i: bv8): bv8 { i & 15 }

  function RowStart(r: bv8): bv64 { Wide(r << 4) }

  /** crc64_tab, sixteen entries in a row. */
  function Table(i: bv8): bv64 { Row(HighNibble(i), LowNibble(i)) }

  // ----- exclusive or

  lemma XorAssoc(x: bv64, y: bv64, z: bv64)
    ensures Xor(Xor(x, y), z) == Xor(x, Xor(y, z))
  {
  }

  lemma XorComm(x: bv64, y: bv64)
    ensures Xor(x, y) == Xor(y, x)
  {
  }

  lemma XorZero(x: bv64)
    ensures Xor(x, 0) == x && Xor(x, x) == 0
  {
  }

  lemma XorSwap(a: bv64, b: bv64, c: bv64, d: bv64)
    ensures Xor(Xor(a, b), Xor(c, d)) == Xor(Xor(a, c), Xor(b, d))
  {
    XorAssoc(a, b, Xor(c, d));
    XorAssoc(b, c, d);
    XorComm(b, c);
    XorAssoc(c, b, d);
    XorAssoc(a, c, Xor(b, d));
  }

  // ----- one bit at a time: linear, and nothing is lost

  lemma HalfLinear(x: bv64, y: bv64)
    ensures Half(Xor(x, y)) == Xor(Half(x), Half(y))
  {
  }

  lemma LowBit(x: bv64, y: bv64)
    ensures (x ^ y) & 1 == (x & 1) ^ (y & 1)
    ensures x & 1 == 0 || x & 1 == 1
  {
  }

  lemma SubtrahendLinear(x: bv64, y: bv64)
    ensures Subtrahend(Xor(x, y)) == Xor(Subtrahend(x), Subtrahend(y))
  {
    LowBit(x, y);
    LowBit(y, x);
  }

  lemma BitLinear(x: bv64, y: bv64)
    ensures Bit(Xor(x, y)) == Xor(Bit(x), Bit(y))
  {
    HalfLinear(x, y);
    SubtrahendLinear(x, y);
    XorSwap(Half(x), Half(y), Subtrahend(x), Subtrahend(y));
  }

  lemma {:induction false} BitsLinear(x: bv64, y: bv64, n: nat)
    ensures Bits(Xor(x, y), n) == Xor(Bits(x, n), Bits(y, n))
    decreases n
  {
    if n > 0 {
      BitLinear(x, y);
      BitsLinear(Bit(x), Bit(y), n - 1);
    }
  }

  /** The lowest coefficient of the generator is set, so only zero is shifted to zero. */
  lemma BitKernel(x: bv64)
    ensures Bit(x) == 0 <==> x == 0
  {
  }

  lemma {:induction false} BitsKernel(x: bv64, n: nat)
    ensures Bits(x, n) == 0 <==> x == 0
    decreases n
  {
    if n > 0 {
      BitKernel(x);
      BitsKernel(Bit(x), n - 1);
    }
  }

  predicate Even(x: bv64) { x & 1 == 0 }

  lemma EvenBit(x: bv64)
    requires Even(x)
    ensures Bit(x) == Half(x)
  {
  }

  /** The n low bits are clear. */
  predicate ZerosBelow(x: bv64, n: nat)
    decreases n
  {
    n == 0 || (Even(x) && ZerosBelow(Half(x), n - 1))
  }

  function Halves(x: bv64, n: nat): bv64
    decreases n
  {
    if n == 0 then x else Halves(Half(x), n - 1)
  }

  lemma {:induction false} ZerosHalve(x: bv64, n: nat)
    requires ZerosBelow(x, n)
    ensures Bits(x, n) == Halves(x, n)
    decreases n
  {
    if n > 0 {
      EvenBit(x);
      ZerosHalve(Half(x), n - 1);
    }
  }

  lemma FourZeros(x: bv64)
    requires x & 15 == 0
    ensures Even(x) && Even(Half(x)) && Even(Half(Half(x))) && Even(Half(Half(Half(x))))
    ensures Half(Half(Half(Half(x)))) == x >> 4
  {
  }

  lemma {:induction false} FourHalves(x: bv64, n: nat)
    ensures Halves(x, n + 4) == Halves(Half(Half(Half(Half(x)))), n)
  {
    assert Halves(x, n + 4) == Halves(Half(x), n + 3) == Halves(Half(Half(x)), n + 2);
    assert Halves(Half(Half(x)), n + 2) == Halves(Half(Half(Half(x))), n + 1);
  }

  lemma {:induction false} FourBelow(x: bv64, n: nat)
    requires x & 15 == 0 && ZerosBelow(x >> 4, n)
    ensures ZerosBelow(x, n + 4)
  {
    FourZeros(x);
    var a, b, c := Half(x), Half(Half(x)), Half(Half(Half(x)));
    assert ZerosBelow(c, n + 1);
    assert ZerosBelow(b, n + 2);
    assert ZerosBelow(a, n + 3);
  }

  lemma TwoNibbles(x: bv64)
    requires LowByte(x) == 0
    ensures x & 15 == 0 && (x >> 4) & 15 == 0 && (x >> 4) >> 4 == Shift8(x)
  {
  }

  lemma EightHalves(x: bv64)
    requires LowByte(x) == 0
    ensures Halves(x, 8) == Shift8(x)
  {
    TwoNibbles(x);
    FourZeros(x);
    FourHalves(x, 4);
    FourZeros(x >> 4);
    FourHalves(x >> 4, 0);
  }

  lemma EightZeros(x: bv64)
    requires LowByte(x) == 0
    ensures ZerosBelow(x, 8)
  {
    TwoNibbles(x);
    FourBelow(x >> 4, 0);
    FourBelow(x, 4);
  }

  /** A byte of zeros is shifted out and leaves the rest as it is. */
  lemma ZerosShift(x: bv64)
    requires LowByte(x) == 0
    ensures Bits(x, 8) == Shift8(x)
  {
    EightZeros(x);
    ZerosHalve(x, 8);
    EightHalves(x);
  }

  // ----- the table is the division of each byte

  lemma Row1Splits(j: bv8)
    requires j & 0xf0 == 0
    ensures Row1(j) == Xor(Row1(0), Row0(j))
  {
  }

  lemma Row2Splits(j: bv8)
    requires j & 0xf0 == 0
    ensures Row2(j) == Xor(Row2(0), Row0(j))
  {
  }

  lemma Row3Splits(j: bv8)
    requires j & 0xf0 == 0
    ensures Row3(j) == Xor(Row3(0), Row0(j))
  {
  }

  lemma Row4Splits(j: bv8)
    requires j & 0xf0 == 0
    ensures Row4(j) == Xor(Row4(0), Row0(j))
  {
  }

  lemma Row5Splits(j: bv8)
    requires j & 0xf0 == 0
    ensures Row5(j) == Xor(Row5(0), Row0(j))
  {
  }

  lemma Row6Splits(j: bv8)
    requires j & 0xf0 == 0
    ensures Row6(j) == Xor(Row6(0), Row0(j))
  {
  }

  lemma Row7Splits(j: bv8)
    requires j & 0xf0 == 0
    ensures Row7(j) == Xor(Row7(0), Row0(j))
  {
  }

  lemma Row8Splits(j: bv8)
    requires j & 0xf0 == 0
    ensures Row8(j) == Xor(Row8(0), Row0(j))
  {
  }

  lemma Row9Splits(j: bv8)
    requires j & 0xf0 == 0
    ensures Row9(j) == Xor(Row9(0), Row0(j))
  {
  }

  lemma RowASplits(j: bv8)
    requires j & 0xf0 == 0
    ensures RowA(j) == Xor(RowA(0), Row0(j))
  {
  }

  lemma RowBSplits(j: bv8)
    requires j & 0xf0 == 0
    ensures RowB(j) == Xor(RowB(0), Row0(j))
  {
  }

  lemma RowCSplits(j: bv8)
    requires j & 0xf0 == 0
    ensures RowC(j) == Xor(RowC(0), Row0(j))
  {
  }

  lemma RowDSplits(j: bv8)
    requires j & 0xf0 == 0
    ensures RowD(j) == Xor(RowD(0), Row0(j))
  {
  }

  lemma RowESplits(j: bv8)
    requires j & 0xf0 == 0
    ensures RowE(j) == Xor(RowE(0), Row0(j))
  {
  }

  lemma RowFSplits(j: bv8)
    requires j & 0xf0 == 0
    ensures RowF(j) == Xor(RowF(0), Row0(j))
  {
  }

  lemma Row0First(j: bv8)
    requires j & 0xfc == 0
    ensures Row0(j) == Bits(Wide(j), 8)
  {
  }

  lemma Row0Second(j: bv8)
    requires j & 0xfc == 4
    ensures Row0(j) == Bits(Wide(j), 8)
  {
  }

  lemma Row0Third(j: bv8)
    requires j & 0xfc == 8
    ensures Row0(j) == Bits(Wide(j), 8)
  {
  }

  lemma Row0Fourth(j: bv8)
    requires j & 0xfc == 12
    ensures Row0(j) == Bits(Wide(j), 8)
  {
  }

  lemma Row0Divides(j: bv8)
    requires j & 0xf0 == 0
    ensures Row0(j) == Bits(Wide(j), 8)
  {
    var q := j & 0xfc;
    assert q == 0 || q == 4 || q == 8 || q == 12;
    if q == 0 { Row0First(j); }
    else if q == 4 { Row0Second(j); }
    else if q == 8 { Row0Third(j); }
    else { Row0Fourth(j); }
  }

  lemma Row0Splits(j: bv8)
    ensures Row0(j) == Xor(Row0(0), Row0(j))
  {
    XorComm(0, Row0(j));
    XorZero(Row0(j));
  }

  lemma Rows0To3Split(r: bv8, j: bv8)
    requires r & 0xfc == 0 && j & 0xf0 == 0
    ensures Rows0To3(r, j) == Xor(Rows0To3(r, 0), Row0(j))
  {
    if r == 0 { Row0Splits(j); }
    else if r == 1 { Row1Splits(j); }
    else if r == 2 { Row2Splits(j); }
    else if r == 3 { Row3Splits(j); }
  }

  lemma Rows4To7Split(r: bv8, j: bv8)
    requires r & 0xfc == 4 && j & 0xf0 == 0
    ensures Rows4To7(r, j) == Xor(Rows4To7(r, 0), Row0(j))
  {
    if r == 4 { Row4Splits(j); }
    else if r == 5 { Row5Splits(j); }
    else if r == 6 { Row6Splits(j); }
    else if r == 7 { Row7Splits(j); }
  }

  lemma Rows8ToBSplit(r: bv8, j: bv8)
    requires r & 0xfc == 8 && j & 0xf0 == 0
    ensures Rows8ToB(r, j) == Xor(Rows8ToB(r, 0), Row0(j))
  {
    if r == 8 { Row8Splits(j); }
    else if r == 9 { Row9Splits(j); }
    else if r == 10 { RowASplits(j); }
    else if r == 11 { RowBSplits(j); }
  }

  lemma RowsCToFSplit(r: bv8, j: bv8)
    requires r & 0xfc == 12 && j & 0xf0 == 0
    ensures RowsCToF(r, j) == Xor(RowsCToF(r, 0), Row0(j))
  {
    if r == 12 { RowCSplits(j); }
    else if r == 13 { RowDSplits(j); }
    else if r == 14 { RowESplits(j); }
    else if r == 15 { RowFSplits(j); }
  }

  lemma RowStarts(r: bv8)
    requires r & 0xf0 == 0
    ensures Row(r, 0) == Bits(RowStart(r), 8)
  {
  }

  /** A row is its first entry and the first row. */
  lemma RowsSplit(r: bv8, j: bv8)
    requires r & 0xf0 == 0 && j & 0xf0 == 0
    ensures Row(r, j) == Xor(Row(r, 0), Row0(j))
  {
    var q := r & 0xfc;
    assert q == r & 12 && (q == 0 || q == 4 || q == 8 || q == 12);
    if q == 0 { Rows0To3Split(r, j); }
    else if q == 4 { Rows4To7Split(r, j); }
    else if q == 8 { Rows8ToBSplit(r, j); }
    else { RowsCToFSplit(r, j); }
  }

  lemma Nibbles(i: bv8)
    ensures HighNibble(i) & 0xf0 == 0 && LowNibble(i) & 0xf0 == 0
    ensures Xor(RowStart(HighNibble(i)), Wide(LowNibble(i))) == Wide(i)
  {
  }

  /** Every entry of the table is its index divided. */
  lemma TableDivides(i: bv8)
    ensures Table(i) == Bits(Wide(i), 8)
  {
    var r, j := HighNibble(i), LowNibble(i);
    Nibbles(i);
    RowsSplit(r, j);
    RowStarts(r);
    Row0Divides(j);
    BitsLinear(RowStart(r), Wide(j), 8);
  }

  // ----- the table form

  /** The body of crc64's loop. */
  function TableStep(crc: bv64, b: bv8): bv64 { Xor(Table(LowByte(crc) ^ b), Shift8(crc)) }

  lemma ByteSplits(x: bv64)
    ensures x == Xor(Wide(LowByte(x)), HighBytes(x))
  {
  }

  lemma WideXor(a: bv8, b: bv8)
    ensures Wide(a ^ b) == Xor(Wide(a), Wide(b))
  {
  }

  lemma HighShifts(x: bv64)
    ensures LowByte(HighBytes(x)) == 0 && Shift8(HighBytes(x)) == Shift8(x)
  {
  }

  lemma ByteApart(crc: bv64, b: bv8)
    ensures Xor(crc, Wide(b)) == Xor(Wide(LowByte(crc) ^ b), HighBytes(crc))
  {
    var low, high := Wide(LowByte(crc)), HighBytes(crc);
    ByteSplits(crc);
    WideXor(LowByte(crc), b);
    XorAssoc(low, high, Wide(b));
    XorComm(high, Wide(b));
    XorAssoc(low, Wide(b), high);
  }

  /** One step of the table form is one byte of the division. */
  lemma TableStepDivides(crc: bv64, b: bv8)
    ensures TableStep(crc, b) == Step(crc, b)
  {
    var low := LowByte(crc) ^ b;
    ByteApart(crc, b);
    HighShifts(crc);
    TableDivides(low);
    ZerosShift(HighBytes(crc));
    BitsLinear(Wide(low), HighBytes(crc), 8);
  }

  /** crc64: the table form computes the division. */
  method Crc64(crc0: bv64, s: Octets) returns (crc: bv64)
    ensures crc == Crc(crc0, s)
  {
    crc := crc0;
    for j := 0 to |s|
      invariant Crc(crc, s[j..]) == Crc(crc0, s)
    {
      TableStepDivides(crc, s[j]);
      assert s[j..][1..] == s[j + 1..];
      crc := TableStep(crc, s[j]);
    }
  }

  // ----- what the checksum detects

  lemma {:induction false} CrcAppend(crc: bv64, s: Octets, t: Octets)
    ensures Crc(crc, s + t) == Crc(Crc(crc, s), t)
    decreases |s|
  {
    if s == [] {
      assert s + t == t;
    } else {
      assert (s + t)[1..] == s[1..] + t;
      CrcAppend(Step(crc, s[0]), s[1..], t);
    }
  }

  lemma XorSame(x: bv64, y: bv64)
    ensures Xor(x, y) == 0 <==> x == y
  {
  }

  lemma BitsInjective(x: bv64, y: bv64, n: nat)
    requires Bits(x, n) == Bits(y, n)
    ensures x == y
  {
    BitsLinear(x, y, n);
    XorSame(Bits(x, n), Bits(y, n));
    BitsKernel(Xor(x, y), n);
    XorSame(x, y);
  }

  lemma XorCancel(x: bv64, y: bv64, z: bv64)
    requires Xor(x, z) == Xor(y, z)
    ensures x == y
  {
    XorAssoc(x, z, z);
    XorAssoc(y, z, z);
    XorZero(x);
    XorZero(y);
    XorZero(z);
  }

  /** Different registers stay different whatever follows. */
  lemma {:induction false} SuffixInjective(x: bv64, y: bv64, s: Octets)
    requires Crc(x, s) == Crc(y, s)
    ensures x == y
    decreases |s|
  {
    if s != [] {
      SuffixInjective(Step(x, s[0]), Step(y, s[0]), s[1..]);
      BitsInjective(Xor(x, Wide(s[0])), Xor(y, Wide(s[0])), 8);
      XorCancel(x, y, Wide(s[0]));
    }
  }

  /** Up to eight bytes as one word, the first the lowest. */
  function Word(s: Octets): bv64
    decreases |s|
  {
    if s == [] then 0 else Xor(Wide(s[0]), Up8(Word(s[1..])))
  }

  function Up8(x: bv64): bv64 { x << 8 }

  /** The bytes of x from the kth up are zero. */
  predicate Below(x: bv64, k: nat) {
    if k == 0 then x == 0 else Below(Shift8(x), k - 1)
  }

  predicate TopIsZero(x: bv64) { x & 0xff00_0000_0000_0000 == 0 }

  lemma {:induction false} BelowZero(k: nat)
    ensures Below(0, k)
    decreases k
  {
    assert Shift8(0) == 0;
    if k > 0 { BelowZero(k - 1); }
  }

  lemma {:induction false} BelowMore(x: bv64, k: nat, m: nat)
    requires Below(x, k) && k <= m
    ensures Below(x, m)
    decreases k
  {
    if k == 0 { BelowZero(m); } else { BelowMore(Shift8(x), k - 1, m - 1); }
  }

  lemma BelowSeven(x: bv64)
    requires Below(x, 7)
    ensures TopIsZero(x)
  {
    var a := Shift8(x);
    assert Below(a, 6);
    var b := Shift8(a);
    assert Below(b, 5);
    var c := Shift8(b);
    assert Below(c, 4);
    var d := Shift8(c);
    assert Below(d, 3);
    var e := Shift8(d);
    assert Below(e, 2);
    var f := Shift8(e);
    assert Below(f, 1);
    assert Below(Shift8(f), 0);
    SevenShifts(x);
  }

  lemma SevenShifts(x: bv64)
    requires Shift8(Shift8(Shift8(Shift8(Shift8(Shift8(Shift8(x))))))) == 0
    ensures TopIsZero(x)
  {
  }

  lemma UpLow(b: bv8, x: bv64)
    ensures LowByte(Xor(Wide(b), Up8(x))) == b
  {
  }

  lemma UpZero(x: bv64)
    ensures LowByte(Up8(x)) == 0
  {
  }

  lemma UpDown(b: bv8, x: bv64)
    requires TopIsZero(x)
    ensures Shift8(Xor(Wide(b), Up8(x))) == x && Shift8(Up8(x)) == x
  {
  }

  lemma {:induction false} WordBelow(s: Octets)
    requires |s| <= 8
    ensures Below(Word(s), |s|) && (|s| < 8 ==> TopIsZero(Word(s)))
    decreases |s|
  {
    if s != [] {
      WordBelow(s[1..]);
      UpDown(s[0], Word(s[1..]));
    }
    if |s| < 8 {
      BelowMore(Word(s), |s|, 7);
      BelowSeven(Word(s));
    }
  }

  /** Dividing up to eight bytes is dividing the one word they make. */
  lemma {:induction false} CrcOfWord(crc: bv64, s: Octets)
    requires |s| <= 8
    ensures Crc(crc, s) == Bits(Xor(crc, Word(s)), 8 * |s|)
    decreases |s|
  {
    if s == [] {
      XorZero(crc);
    } else {
      var w := Word(s[1..]);
      WordBelow(s[1..]);
      UpDown(s[0], w);
      UpZero(w);
      CrcOfWord(Step(crc, s[0]), s[1..]);
      XorAssoc(crc, Wide(s[0]), Up8(w));
      BitsLinear(Xor(crc, Wide(s[0])), Up8(w), 8);
      ZerosShift(Up8(w));
      BitsAdd(Xor(crc, Word(s)), 8, 8 * (|s| - 1));
    }
  }

  lemma {:induction false} BitsAdd(x: bv64, m: nat, n: nat)
    ensures Bits(x, m + n) == Bits(Bits(x, m), n)
    decreases m
  {
    if m > 0 { BitsAdd(Bit(x), m - 1, n); }
  }

  lemma {:induction false} WordInjective(s: Octets, t: Octets)
    requires |s| == |t| <= 8 && Word(s) == Word(t)
    ensures s == t
    decreases |s|
  {
    if s != [] {
      var u, v := Word(s[1..]), Word(t[1..]);
      WordBelow(s[1..]);
      WordBelow(t[1..]);
      UpLow(s[0], u);
      UpLow(t[0], v);
      UpDown(s[0], u);
      UpDown(t[0], v);
      WordInjective(s[1..], t[1..]);
      assert s == [s[0]] + s[1..] && t == [t[0]] + t[1..];
    }
  }

  /** A change within eight consecutive bytes, the rest being the same, changes the checksum. */
  lemma BurstChangesCrc(a: Octets, s: Octets, t: Octets, z: Octets)
    requires |s| == |t| <= 8 && s != t
    ensures Crc(0, a + (s + z)) != Crc(0, a + (t + z))
  {
    var c := Crc(0, a);
    CrcAppend(0, a, s + z);
    CrcAppend(0, a, t + z);
    CrcAppend(c, s, z);
    CrcAppend(c, t, z);
    if Crc(Crc(c, s), z) == Crc(Crc(c, t), z) {
      SuffixInjective(Crc(c, s), Crc(c, t), z);
      CrcOfWord(c, s);
      CrcOfWord(c, t);
      BitsInjective(Xor(c, Word(s)), Xor(c, Word(t)), 8 * |s|);
      XorComm(c, Word(s));
      XorComm(c, Word(t));
      XorCancel(Word(s), Word(t), c);
      WordInjective(s, t);
    }
  }

  lemma FirstSteps()
    ensures Step(0, 0x31) == 0xfdc17184a9f739fa
    ensures Step(0xfdc17184a9f739fa, 0x32) == 0xe10364513a98ed96
    ensures Step(0xe10364513a98ed96, 0x33) == 0xd5bcfb814479b1ac
  {
  }

  lemma MiddleSteps()
    ensures Step(0xd5bcfb814479b1ac, 0x34) == 0x43593c5dcda521f0
    ensures Step(0x43593c5dcda521f0, 0x35) == 0xf0758513239c7e0d
    ensures Step(0xf0758513239c7e0d, 0x36) == 0xa3a90925b2ab4903
  {
  }

  lemma LastSteps()
    ensures Step(0xa3a90925b2ab4903, 0x37) == 0x47824d362431ad45
    ensures Step(0x47824d362431ad45, 0x38) == 0x49ec20b315e86dc2
    ensures Step(0x49ec20b315e86dc2, 0x39) == 0xe9c6d914c4b8d9ca
  {
  }

  lemma CrcOfThree(crc: bv64, a: bv8, b: bv8, c: bv8)
    ensures Crc(crc, [a, b, c]) == Step(Step(Step(crc, a), b), c)
  {
    var x, y := Step(crc, a), Step(Step(crc, a), b);
    assert [a, b, c][1..] == [b, c] && [b, c][1..] == [c] && [c][1..] == [];
    assert Crc(crc, [a, b, c]) == Crc(x, [b, c]);
    assert Crc(x, [b, c]) == Crc(y, [c]);
    assert Crc(y, [c]) == Crc(Step(y, c), []);
  }

  lemma CrcParts(crc: bv64, a: Octets, b: Octets, c: Octets)
    ensures Crc(crc, a + (b + c)) == Crc(Crc(Crc(crc, a), b), c)
  {
    CrcAppend(crc, a, b + c);
    CrcAppend(Crc(crc, a), b, c);
  }

  lemma ValueFromZero(s: Octets)
    requires s == [0x31, 0x32, 0x33, 0x34, 0x35, 0x36, 0x37, 0x38, 0x39]
    ensures Crc(0, s) == 0xe9c6d914c4b8d9ca
  {
    var a, b, c := [0x31, 0x32, 0x33], [0x34, 0x35, 0x36], [0x37, 0x38, 0x39];
    assert s == a + (b + c);
    CrcParts(0, a, b, c);
    FirstSteps();
    MiddleSteps();
    LastSteps();
    CrcOfThree(0, 0x31, 0x32, 0x33);
    CrcOfThree(0xd5bcfb814479b1ac, 0x34, 0x35, 0x36);
    CrcOfThree(0xa3a90925b2ab4903, 0x37, 0x38, 0x39);
  }

  /** The published check value, that of the digits one to nine, comes out of a register that begins
      at zero, and of no other. */
  lemma CheckValue(register: bv64, s: Octets)
    requires s == [0x31, 0x32, 0x33, 0x34, 0x35, 0x36, 0x37, 0x38, 0x39]
    ensures Crc(register, s) == 0xe9c6d914c4b8d9ca <==> register == 0
  {
    ValueFromZero(s);
    if Crc(register, s) == Crc(0, s) {
      SuffixInjective(register, 0, s);
    }
  }
}
