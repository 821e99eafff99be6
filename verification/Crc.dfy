/** The checksum of PSI sections: the table-driven computation and the bit-by-bit division by the
    polynomial 0x04C11DB7 it stands for (Annex A of ISO/IEC 13818-1). */
module Crc {
  import opened Bytes

  const POLYNOMIAL: bv32 := 0x04c11db7

  /** The table, sixteen entries to a row. */
  const CRC_TABLE: seq<seq<bv32>> := [
    [0x00000000, 0x04c11db7, 0x09823b6e, 0x0d4326d9, 0x130476dc, 0x17c56b6b, 0x1a864db2, 0x1e475005,
     0x2608edb8, 0x22c9f00f, 0x2f8ad6d6, 0x2b4bcb61, 0x350c9b64, 0x31cd86d3, 0x3c8ea00a, 0x384fbdbd],
    [0x4c11db70, 0x48d0c6c7, 0x4593e01e, 0x4152fda9, 0x5f15adac, 0x5bd4b01b, 0x569796c2, 0x52568b75,
     0x6a1936c8, 0x6ed82b7f, 0x639b0da6, 0x675a1011, 0x791d4014, 0x7ddc5da3, 0x709f7b7a, 0x745e66cd],
    [0x9823b6e0, 0x9ce2ab57, 0x91a18d8e, 0x95609039, 0x8b27c03c, 0x8fe6dd8b, 0x82a5fb52, 0x8664e6e5,
     0xbe2b5b58, 0xbaea46ef, 0xb7a96036, 0xb3687d81, 0xad2f2d84, 0xa9ee3033, 0xa4ad16ea, 0xa06c0b5d],
    [0xd4326d90, 0xd0f37027, 0xddb056fe, 0xd9714b49, 0xc7361b4c, 0xc3f706fb, 0xceb42022, 0xca753d95,
     0xf23a8028, 0xf6fb9d9f, 0xfbb8bb46, 0xff79a6f1, 0xe13ef6f4, 0xe5ffeb43, 0xe8bccd9a, 0xec7dd02d],
    [0x34867077, 0x30476dc0, 0x3d044b19, 0x39c556ae, 0x278206ab, 0x23431b1c, 0x2e003dc5, 0x2ac12072,
     0x128e9dcf, 0x164f8078, 0x1b0ca6a1, 0x1fcdbb16, 0x018aeb13, 0x054bf6a4, 0x0808d07d, 0x0cc9cdca],
    [0x7897ab07, 0x7c56b6b0, 0x71159069, 0x75d48dde, 0x6b93dddb, 0x6f52c06c, 0x6211e6b5, 0x66d0fb02,
     0x5e9f46bf, 0x5a5e5b08, 0x571d7dd1, 0x53dc6066, 0x4d9b3063, 0x495a2dd4, 0x44190b0d, 0x40d816ba],
    [0xaca5c697, 0xa864db20, 0xa527fdf9, 0xa1e6e04e, 0xbfa1b04b, 0xbb60adfc, 0xb6238b25, 0xb2e29692,
     0x8aad2b2f, 0x8e6c3698, 0x832f1041, 0x87ee0df6, 0x99a95df3, 0x9d684044, 0x902b669d, 0x94ea7b2a],
    [0xe0b41de7, 0xe4750050, 0xe9362689, 0xedf73b3e, 0xf3b06b3b, 0xf771768c, 0xfa325055, 0xfef34de2,
     0xc6bcf05f, 0xc27dede8, 0xcf3ecb31, 0xcbffd686, 0xd5b88683, 0xd1799b34, 0xdc3abded, 0xd8fba05a],
    [0x690ce0ee, 0x6dcdfd59, 0x608edb80, 0x644fc637, 0x7a089632, 0x7ec98b85, 0x738aad5c, 0x774bb0eb,
     0x4f040d56, 0x4bc510e1, 0x46863638, 0x42472b8f, 0x5c007b8a, 0x58c1663d, 0x558240e4, 0x51435d53],
    [0x251d3b9e, 0x21dc2629, 0x2c9f00f0, 0x285e1d47, 0x36194d42, 0x32d850f5, 0x3f9b762c, 0x3b5a6b9b,
     0x0315d626, 0x07d4cb91, 0x0a97ed48, 0x0e56f0ff, 0x1011a0fa, 0x14d0bd4d, 0x19939b94, 0x1d528623],
    [0xf12f560e, 0xf5ee4bb9, 0xf8ad6d60, 0xfc6c70d7, 0xe22b20d2, 0xe6ea3d65, 0xeba91bbc, 0xef68060b,
     0xd727bbb6, 0xd3e6a601, 0xdea580d8, 0xda649d6f, 0xc423cd6a, 0xc0e2d0dd, 0xcda1f604, 0xc960ebb3],
    [0xbd3e8d7e, 0xb9ff90c9, 0xb4bcb610, 0xb07daba7, 0xae3afba2, 0xaafbe615, 0xa7b8c0cc, 0xa379dd7b,
     0x9b3660c6, 0x9ff77d71, 0x92b45ba8, 0x9675461f, 0x8832161a, 0x8cf30bad, 0x81b02d74, 0x857130c3],
    [0x5d8a9099, 0x594b8d2e, 0x5408abf7, 0x50c9b640, 0x4e8ee645, 0x4a4ffbf2, 0x470cdd2b, 0x43cdc09c,
     0x7b827d21, 0x7f436096, 0x7200464f, 0x76c15bf8, 0x68860bfd, 0x6c47164a, 0x61043093, 0x65c52d24],
    [0x119b4be9, 0x155a565e, 0x18197087, 0x1cd86d30, 0x029f3d35, 0x065e2082, 0x0b1d065b, 0x0fdc1bec,
     0x3793a651, 0x3352bbe6, 0x3e119d3f, 0x3ad08088, 0x2497d08d, 0x2056cd3a, 0x2d15ebe3, 0x29d4f654],
    [0xc5a92679, 0xc1683bce, 0xcc2b1d17, 0xc8ea00a0, 0xd6ad50a5, 0xd26c4d12, 0xdf2f6bcb, 0xdbee767c,
     0xe3a1cbc1, 0xe760d676, 0xea23f0af, 0xeee2ed18, 0xf0a5bd1d, 0xf464a0aa, 0xf9278673, 0xfde69bc4],
    [0x89b8fd09, 0x8d79e0be, 0x803ac667, 0x84fbdbd0, 0x9abc8bd5, 0x9e7d9662, 0x933eb0bb, 0x97ffad0c,
     0xafb010b1, 0xab710d06, 0xa6322bdf, 0xa2f33668, 0xbcb4666d, 0xb8757bda, 0xb5365d03, 0xb1f740b4]
  ]

  // ----- Division, bit by bit -----------------------------------------------------------------

  predicate Top(c: bv32) {
    c & 0x80000000 != 0
  }

  /** One step of the shift register without input: x times the remainder, modulo the polynomial. */
  function Shift(c: bv32): bv32 {
    if Top(c) then (c << 1) ^ POLYNOMIAL else c << 1
  }

  function Shift8(c: bv32): bv32 {
    Shift(Shift(Shift(Shift(Shift(Shift(Shift(Shift(c))))))))
  }

  /** One message bit into the register. */
  function BitStep(c: bv32, bit: bool): bv32 {
    if Top(c) != bit then (c << 1) ^ POLYNOMIAL else c << 1
  }

  /** The bits of a byte, most significant first. */
  function BitsOf(b: bv8): seq<bool> {
    [b & 0x80 != 0, b & 0x40 != 0, b & 0x20 != 0, b & 0x10 != 0,
     b & 0x08 != 0, b & 0x04 != 0, b & 0x02 != 0, b & 0x01 != 0]
  }

  function MessageBits(src: seq<byte>): seq<bool> {
    if src == [] then [] else BitsOf(src[0] as bv8) + MessageBits(src[1..])
  }

  /** The register after a run of message bits. */
  function Divide(c: bv32, bits: seq<bool>): bv32
    decreases |bits|
  {
    if bits == [] then c else Divide(BitStep(c, bits[0]), bits[1..])
  }

  // ----- The table holds the register after each byte -------------------------------------------

  /** The register after one byte, given as two hexadecimal digits, from zero. */
  function Cell(hi: bv8, lo: bv8): bv32 {
    Shift8(((hi as bv32) << 28) ^ ((lo as bv32) << 24))
  }

  predicate RowOk(row: seq<bv32>, hi: bv8) {
    && |row| == 16
    && row[0] == Cell(hi, 0) && row[1] == Cell(hi, 1)
    && row[2] == Cell(hi, 2) && row[3] == Cell(hi, 3)
    && row[4] == Cell(hi, 4) && row[5] == Cell(hi, 5)
    && row[6] == Cell(hi, 6) && row[7] == Cell(hi, 7)
    && row[8] == Cell(hi, 8) && row[9] == Cell(hi, 9)
    && row[10] == Cell(hi, 10) && row[11] == Cell(hi, 11)
    && row[12] == Cell(hi, 12) && row[13] == Cell(hi, 13)
    && row[14] == Cell(hi, 14) && row[15] == Cell(hi, 15)
  }

  lemma Row0()
    ensures RowOk(CRC_TABLE[0], 0)
  {
  }

  lemma Row1()
    ensures RowOk(CRC_TABLE[1], 1)
  {
  }

  lemma Row2()
    ensures RowOk(CRC_TABLE[2], 2)
  {
  }

  lemma Row3()
    ensures RowOk(CRC_TABLE[3], 3)
  {
  }

  lemma Row4()
    ensures RowOk(CRC_TABLE[4], 4)
  {
  }

  lemma Row5()
    ensures RowOk(CRC_TABLE[5], 5)
  {
  }

  lemma Row6()
    ensures RowOk(CRC_TABLE[6], 6)
  {
  }

  lemma Row7()
    ensures RowOk(CRC_TABLE[7], 7)
  {
  }

  lemma Row8()
    ensures RowOk(CRC_TABLE[8], 8)
  {
  }

  lemma Row9()
    ensures RowOk(CRC_TABLE[9], 9)
  {
  }

  lemma Row10()
    ensures RowOk(CRC_TABLE[10], 10)
  {
  }

  lemma Row11()
    ensures RowOk(CRC_TABLE[11], 11)
  {
  }

  lemma Row12()
    ensures RowOk(CRC_TABLE[12], 12)
  {
  }

  lemma Row13()
    ensures RowOk(CRC_TABLE[13], 13)
  {
  }

  lemma Row14()
    ensures RowOk(CRC_TABLE[14], 14)
  {
  }

  lemma Row15()
    ensures RowOk(CRC_TABLE[15], 15)
  {
  }

  lemma RowsOk(hi: bv8)
    requires hi < 16
    ensures |CRC_TABLE| == 16 && 0 <= (hi as int) < 16 && RowOk(CRC_TABLE[hi as int], hi)
  {
    hide RowOk;
    if hi == 0 {
      Row0();
    } else if hi == 1 {
      Row1();
    } else if hi == 2 {
      Row2();
    } else if hi == 3 {
      Row3();
    } else if hi == 4 {
      Row4();
    } else if hi == 5 {
      Row5();
    } else if hi == 6 {
      Row6();
    } else if hi == 7 {
      Row7();
    } else if hi == 8 {
      Row8();
    } else if hi == 9 {
      Row9();
    } else if hi == 10 {
      Row10();
    } else if hi == 11 {
      Row11();
    } else if hi == 12 {
      Row12();
    } else if hi == 13 {
      Row13();
    } else if hi == 14 {
      Row14();
    } else {
      Row15();
    }
  }

  lemma Lookup(row: seq<bv32>, hi: bv8, lo: bv8)
    requires RowOk(row, hi) && lo < 16
    ensures 0 <= (lo as int) < |row| && row[lo as int] == Cell(hi, lo)
  {
    hide Cell;
    if lo == 0 {
    } else if lo == 1 {
    } else if lo == 2 {
    } else if lo == 3 {
    } else if lo == 4 {
    } else if lo == 5 {
    } else if lo == 6 {
    } else if lo == 7 {
    } else if lo == 8 {
    } else if lo == 9 {
    } else if lo == 10 {
    } else if lo == 11 {
    } else if lo == 12 {
    } else if lo == 13 {
    } else if lo == 14 {
    }
  }

  function Entry(j: bv8): bv32 {
    var hi, lo := j >> 4, j & 0x0f;
    RowsOk(hi);
    Lookup(CRC_TABLE[hi as int], hi, lo);
    CRC_TABLE[hi as int][lo as int]
  }

  lemma EntryIsDivision(j: bv8)
    ensures Entry(j) == Shift8((j as bv32) << 24)
  {
    hide Shift8;
    var hi, lo := j >> 4, j & 0x0f;
    RowsOk(hi);
    Lookup(CRC_TABLE[hi as int], hi, lo);
    assert ((hi as bv32) << 28) ^ ((lo as bv32) << 24) == (j as bv32) << 24;
  }

  // ----- A byte at a time is eight bits at a time -------------------------------------------------

  // Names for the operations, so that the proofs below need not look into the bits.

  function Xor(a: bv32, b: bv32): bv32 {
    a ^ b
  }

  function Up(w: bv32): bv32 {
    w << 1
  }

  function Up8(w: bv32): bv32 {
    w << 8
  }

  function ShiftN(c: bv32, n: nat): bv32
    decreases n
  {
    if n == 0 then c else ShiftN(Shift(c), n - 1)
  }

  /** n steps of the register fed from the top of w. */
  function Steps(c: bv32, w: bv32, n: nat): bv32
    decreases n
  {
    if n == 0 then c else Steps(BitStep(c, Top(w)), Up(w), n - 1)
  }

  function UpN(w: bv32, n: nat): bv32
    decreases n
  {
    if n == 0 then w else UpN(Up(w), n - 1)
  }

  /** Adding w before a shift is feeding its top bit and adding the rest after it. */
  lemma ShiftOfSum(c: bv32, w: bv32)
    ensures Shift(Xor(c, w)) == Xor(BitStep(c, Top(w)), Up(w))
  {
    hide Shift, BitStep, Top, Xor, Up;
    if Top(c) == Top(w) {
      EqualTops(c, w);
    } else {
      DifferentTops(c, w);
    }
  }

  lemma EqualTops(c: bv32, w: bv32)
    requires Top(c) == Top(w)
    ensures Shift(Xor(c, w)) == Xor(BitStep(c, Top(w)), Up(w))
  {
    assert !Top(c ^ w);
  }

  lemma DifferentTops(c: bv32, w: bv32)
    requires Top(c) != Top(w)
    ensures Shift(Xor(c, w)) == Xor(BitStep(c, Top(w)), Up(w))
  {
    assert Top(c ^ w);
  }

  lemma {:induction false} ShiftNOfSum(c: bv32, w: bv32, n: nat)
    ensures ShiftN(Xor(c, w), n) == Xor(Steps(c, w, n), UpN(w, n))
    decreases n
  {
    hide Shift, BitStep, Top, Xor, Up;
    if n != 0 {
      ShiftOfSum(c, w);
      ShiftNOfSum(BitStep(c, Top(w)), Up(w), n - 1);
    }
  }

  lemma EightShifts(c: bv32)
    ensures ShiftN(c, 8) == Shift8(c)
  {
    hide Shift;
    var c2 := Shift(Shift(c));
    var c4 := Shift(Shift(c2));
    var c6 := Shift(Shift(c4));
    assert ShiftN(c, 8) == ShiftN(c2, 6) && ShiftN(c2, 6) == ShiftN(c4, 4);
    assert ShiftN(c4, 4) == ShiftN(c6, 2) && ShiftN(c6, 2) == Shift(Shift(c6));
  }

  lemma EightUps(w: bv32)
    ensures UpN(w, 8) == Up8(w)
  {
    assert Up8(w) == Up(Up(Up(Up(Up(Up(Up(Up(w))))))));
    hide Up, Up8;
    var w2 := Up(Up(w));
    var w4 := Up(Up(w2));
    var w6 := Up(Up(w4));
    assert UpN(w, 8) == UpN(w2, 6) && UpN(w2, 6) == UpN(w4, 4);
    assert UpN(w4, 4) == UpN(w6, 2) && UpN(w6, 2) == Up(Up(w6));
  }

  /** No bit among the top n is set. */
  ghost predicate NoTops(w: bv32, n: nat)
    decreases n
  {
    n == 0 || (!Top(w) && NoTops(Up(w), n - 1))
  }

  /** Feeding zeros is only shifting. */
  lemma {:induction false} ZeroSteps(c: bv32, w: bv32, n: nat)
    requires NoTops(w, n)
    ensures Steps(c, w, n) == ShiftN(c, n)
    decreases n
  {
    if n != 0 {
      assert BitStep(c, false) == Shift(c);
      hide BitStep, Shift, Top, Up;
      ZeroSteps(Shift(c), Up(w), n - 1);
    }
  }

  lemma LowHasNoTops(w: bv32)
    requires w & 0xff000000 == 0
    ensures NoTops(w, 8)
  {
    TopsOf(w);
    hide Top, Up;
    var w2 := Up(Up(w));
    var w4 := Up(Up(w2));
    var w6 := Up(Up(w4));
    assert NoTops(w6, 2);
    assert NoTops(w4, 4);
    assert NoTops(w2, 6);
  }

  lemma TopsOf(w: bv32)
    requires w & 0xff000000 == 0
    ensures var w1 := Up(w); var w2 := Up(w1); var w3 := Up(w2); var w4 := Up(w3);
            var w5 := Up(w4); var w6 := Up(w5); var w7 := Up(w6);
      && !Top(w) && !Top(w1) && !Top(w2) && !Top(w3) && !Top(w4) && !Top(w5) && !Top(w6) && !Top(w7)
  {
  }

  /** One step of the table-driven loop. */
  function Update(c: bv32, b: bv8): bv32 {
    Xor(Up8(c), Entry(((c >> 24) as bv8) ^ b))
  }

  /** A byte at the top of the register. */
  function OnTop(b: bv8): bv32 {
    (b as bv32) << 24
  }

  /** The high byte and the low three of the register after adding a byte on top. */
  lemma SplitHigh(c: bv32, b: bv8)
    ensures var t, low := ((c >> 24) as bv8) ^ b, c & 0x00ffffff;
      && Xor(c, OnTop(b)) == Xor(OnTop(t), low)
      && low & 0xff000000 == 0 && Up8(low) == Up8(c)
  {
  }

  lemma UpdateIs(c: bv32, b: bv8)
    ensures Update(c, b) == Xor(Shift8(OnTop(((c >> 24) as bv8) ^ b)), Up8(c))
  {
    EntryIsDivision(((c >> 24) as bv8) ^ b);
    SwapSum(Up8(c), Entry(((c >> 24) as bv8) ^ b));
    hide Entry, Shift8, Xor, Up8;
  }

  lemma SwapSum(a: bv32, b: bv32)
    ensures Xor(a, b) == Xor(b, a)
  {
  }

  lemma UpdateShifts(c: bv32, b: bv8)
    ensures Update(c, b) == Shift8(Xor(c, OnTop(b)))
  {
    var t, low := ((c >> 24) as bv8) ^ b, c & 0x00ffffff;
    SplitHigh(c, b);
    UpdateIs(c, b);
    hide Update, Shift8, Xor, OnTop, Up8;
    LowBitsPass(OnTop(t), low);
  }

  /** What is below the top byte only moves up. */
  lemma LowBitsPass(high: bv32, low: bv32)
    requires low & 0xff000000 == 0
    ensures Shift8(Xor(high, low)) == Xor(Shift8(high), Up8(low))
  {
    hide Shift8, Steps, ShiftN, UpN, Xor, Up8, NoTops;
    LowHasNoTops(low);
    ShiftNOfSum(high, low, 8);
    EightShifts(Xor(high, low));
    EightShifts(high);
    EightUps(low);
    ZeroSteps(high, low, 8);
  }

  lemma ByteSteps(c: bv32, b: bv8)
    ensures Shift8(Xor(c, OnTop(b))) == Steps(c, OnTop(b), 8)
  {
    var w := OnTop(b);
    assert Up8(w) == 0;
    AddNothing(Steps(c, w, 8));
    hide Shift8, Steps, ShiftN, UpN, Xor, Up8, OnTop;
    ShiftNOfSum(c, w, 8);
    EightShifts(Xor(c, w));
    EightUps(w);
  }

  lemma AddNothing(a: bv32)
    ensures Xor(a, 0) == a
  {
  }

  /** The register after the n bits of `bits`, which stand at the top of w. */
  lemma {:induction false} StepsDivide(c: bv32, w: bv32, bits: seq<bool>)
    requires TopBits(w, bits)
    ensures Steps(c, w, |bits|) == Divide(c, bits)
    decreases |bits|
  {
    hide BitStep, Top, Up;
    if bits != [] {
      StepsDivide(BitStep(c, bits[0]), Up(w), bits[1..]);
    }
  }

  ghost predicate TopBits(w: bv32, bits: seq<bool>)
    decreases |bits|
  {
    bits == [] || (Top(w) == bits[0] && TopBits(Up(w), bits[1..]))
  }

  lemma ByteTopBits(b: bv8)
    ensures TopBits(OnTop(b), BitsOf(b))
  {
    var w, bits := OnTop(b), BitsOf(b);
    var w1 := Up(w); var w2 := Up(w1); var w3 := Up(w2); var w4 := Up(w3);
    var w5 := Up(w4); var w6 := Up(w5); var w7 := Up(w6);
    ByteTops(b);
    assert bits[1..][1..] == bits[2..] && bits[2..][1..] == bits[3..] && bits[3..][1..] == bits[4..];
    assert bits[4..][1..] == bits[5..] && bits[5..][1..] == bits[6..] && bits[6..][1..] == bits[7..];
    assert bits[7..][1..] == [];
    hide Top, Up, OnTop, BitsOf;
    assert TopBits(w7, bits[7..]);
    assert TopBits(w6, bits[6..]);
    assert TopBits(w5, bits[5..]);
    assert TopBits(w4, bits[4..]);
    assert TopBits(w3, bits[3..]);
    assert TopBits(w2, bits[2..]);
    assert TopBits(w1, bits[1..]);
  }

  lemma ByteTops(b: bv8)
    ensures var w, bits := OnTop(b), BitsOf(b);
            var w1 := Up(w); var w2 := Up(w1); var w3 := Up(w2); var w4 := Up(w3);
            var w5 := Up(w4); var w6 := Up(w5); var w7 := Up(w6);
      && Top(w) == bits[0] && Top(w1) == bits[1] && Top(w2) == bits[2] && Top(w3) == bits[3]
      && Top(w4) == bits[4] && Top(w5) == bits[5] && Top(w6) == bits[6] && Top(w7) == bits[7]
  {
  }

  lemma UpdateDivides(c: bv32, b: bv8)
    ensures Update(c, b) == Divide(c, BitsOf(b))
  {
    hide Update, Shift8, Steps, Divide, TopBits, Xor, OnTop;
    UpdateShifts(c, b);
    ByteSteps(c, b);
    ByteTopBits(b);
    StepsDivide(c, OnTop(b), BitsOf(b));
  }

  // ----- The whole checksum ------------------------------------------------------------------------

  function Crc(c: bv32, src: seq<byte>): bv32
    decreases |src|
  {
    if src == [] then c else Crc(Update(c, src[0] as bv8), src[1..])
  }

  lemma {:induction false} DivideConcat(c: bv32, a: seq<bool>, b: seq<bool>)
    ensures Divide(c, a + b) == Divide(Divide(c, a), b)
    decreases |a|
  {
    hide BitStep;
    if a == [] {
      assert a + b == b;
    } else {
      assert (a + b)[1..] == a[1..] + b;
      DivideConcat(BitStep(c, a[0]), a[1..], b);
    }
  }

  /** The table-driven checksum is the division of the message, bit by bit, on every input. */
  lemma {:induction false} TableIsDivision(c: bv32, src: seq<byte>)
    ensures Crc(c, src) == Divide(c, MessageBits(src))
    decreases |src|
  {
    hide Update, Divide, BitsOf;
    if src == [] {
      assert Divide(c, []) == c by { DivideNothing(c); }
    } else {
      var b := src[0] as bv8;
      UpdateDivides(c, b);
      TableIsDivision(Update(c, b), src[1..]);
      DivideConcat(c, BitsOf(b), MessageBits(src[1..]));
    }
  }

  lemma DivideNothing(c: bv32)
    ensures Divide(c, []) == c
  {
  }

  method GenCrc32(src: seq<byte>) returns (crc32: bv32)
    ensures crc32 == Divide(0xffffffff, MessageBits(src))
    ensures crc32 == Crc(0xffffffff, src)
  {
    hide Entry, Crc, Divide, MessageBits;
    crc32 := 0xffffffff;
    assert src[0..] == src;
    for i := 0 to |src|
      invariant Crc(crc32, src[i..]) == Crc(0xffffffff, src)
    {
      var j := ((crc32 >> 24) as bv8) ^ (src[i] as bv8);
      assert src[i..][1..] == src[i + 1..];
      FirstByteCrc(crc32, src[i..]);
      crc32 := (crc32 << 8) ^ Entry(j);
    }
    NoBytesCrc(crc32);
    TableIsDivision(0xffffffff, src);
  }

  lemma NoBytesCrc(c: bv32)
    ensures Crc(c, []) == c
  {
  }

  function Byte(c: bv32): byte {
    ((c & 0xff) as bv8) as int
  }

  /** The checksum as it is appended: most significant byte first. */
  function CrcBytes(c: bv32): seq<byte> {
    [Byte(c >> 24), Byte(c >> 16), Byte(c >> 8), Byte(c)]
  }

  /** Appending the checksum to any section leaves remainder zero, so the section checks. */
  lemma ResidueIsZero(src: seq<byte>)
    ensures Divide(0xffffffff, MessageBits(src + CrcBytes(Crc(0xffffffff, src)))) == 0
  {
    hide Divide, MessageBits, Crc, Update;
    var c := Crc(0xffffffff, src);
    CrcConcat(0xffffffff, src, CrcBytes(c));
    CrcOfItself(c);
    TableIsDivision(0xffffffff, src + CrcBytes(c));
  }

  lemma {:induction false} CrcConcat(c: bv32, a: seq<byte>, b: seq<byte>)
    ensures Crc(c, a + b) == Crc(Crc(c, a), b)
    decreases |a|
  {
    hide Update;
    if a == [] {
      assert a + b == b;
    } else {
      assert (a + b)[1..] == a[1..] + b;
      CrcConcat(Update(c, a[0] as bv8), a[1..], b);
    }
  }

  function HighByte(c: bv32): byte {
    Byte(c >> 24)
  }

  /** Feeding the top byte of the register back into it only shifts it out. */
  lemma FeedTopByte(c: bv32)
    ensures Update(c, HighByte(c) as bv8) == Up8(c)
  {
    var b := (c >> 24) as bv8;
    SameByte(c);
    UpdateIs(c, b);
    assert OnTop(((c >> 24) as bv8) ^ b) == 0;
    assert Shift8(0) == 0;
    SwapSum(0, Up8(c));
    AddNothing(Up8(c));
  }

  lemma SameByte(c: bv32)
    ensures HighByte(c) as bv8 == (c >> 24) as bv8
  {
    assert ((c >> 24) & 0xff) as bv8 == (c >> 24) as bv8;
  }

  lemma CrcOfItself(c: bv32)
    ensures Crc(c, CrcBytes(c)) == 0
  {
    hide Update, HighByte, Up8, CrcBytes, Crc;
    var s := CrcBytes(c);
    var c1 := Up8(c); var c2 := Up8(c1); var c3 := Up8(c2);
    FeedTopByte(c);
    FeedTopByte(c1);
    FeedTopByte(c2);
    FeedTopByte(c3);
    BytesInTurn(c);
    assert s[1..][1..] == s[2..] && s[2..][1..] == s[3..] && s[3..][1..] == [];
    FirstByteCrc(c, s);
    FirstByteCrc(c1, s[1..]);
    FirstByteCrc(c2, s[2..]);
    FirstByteCrc(c3, s[3..]);
  }

  lemma FirstByteCrc(c: bv32, s: seq<byte>)
    requires s != []
    ensures Crc(c, s) == Crc(Update(c, s[0] as bv8), s[1..]) && (s[1..] == [] ==> Crc(c, s) == Update(c, s[0] as bv8))
  {
    hide Update;
  }

  lemma BytesInTurn(c: bv32)
    ensures var c1 := Up8(c); var c2 := Up8(c1); var c3 := Up8(c2);
      && CrcBytes(c) == [HighByte(c), HighByte(c1), HighByte(c2), HighByte(c3)]
      && Up8(c3) == 0
  {
    SecondByte(c);
    ThirdByte(c);
    FourthByte(c);
    AllOut(c);
    assert HighByte(c) == Byte(c >> 24);
    hide HighByte, Byte, Up8;
  }

  lemma SecondByte(c: bv32)
    ensures HighByte(Up8(c)) == Byte(c >> 16)
  {
    assert (Up8(c) >> 24) & 0xff == (c >> 16) & 0xff;
  }

  lemma ThirdByte(c: bv32)
    ensures HighByte(Up8(Up8(c))) == Byte(c >> 8)
  {
    assert (Up8(Up8(c)) >> 24) & 0xff == (c >> 8) & 0xff;
  }

  lemma FourthByte(c: bv32)
    ensures HighByte(Up8(Up8(Up8(c)))) == Byte(c)
  {
    assert (Up8(Up8(Up8(c))) >> 24) & 0xff == c & 0xff;
  }

  lemma AllOut(c: bv32)
    ensures Up8(Up8(Up8(Up8(c)))) == 0
  {
  }
}
