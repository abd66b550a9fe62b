/** Integer decoding of the BME280 registers: the calibration words
    (little-endian 16-bit, signed 8-bit, and the two 12-bit humidity fields
    packed around register 0xE5) and the raw ADC samples. Every decoder is
    written with the same shifts, masks and `int.from_bytes` calls as the
    driver; the lemmas give their closed forms and ranges. */
module Codec {
  import opened Bits

  /** The unsigned little-endian value of a byte string. */
  function LittleEndian(bs: seq<byte>): nat
  {
    if bs == [] then 0 else bs[0] + 256 * LittleEndian(bs[1..])
  }

  lemma {:induction false} LittleEndianBound(bs: seq<byte>)
    ensures LittleEndian(bs) < Pow2(8 * |bs|)
  {
    if bs != [] {
      var n := 8 * |bs[1..]|;
      LittleEndianBound(bs[1..]);
      Pow2Add(n, 8);
      Pow2Values();
      assert LittleEndian(bs) <= 255 + 256 * (Pow2(n) - 1);
    }
  }

  /** The last byte of a little-endian string is its most significant. */
  lemma {:induction false} LittleEndianLast(bs: seq<byte>)
    requires |bs| > 0
    ensures LittleEndian(bs) == LittleEndian(bs[..|bs| - 1]) + Pow2(8 * (|bs| - 1)) * bs[|bs| - 1]
  {
    var n := |bs|;
    if n == 1 {
      assert bs[..0] == [] && bs[1..] == [];
    } else {
      var init := bs[..n - 1];
      LittleEndianLast(bs[1..]);
      assert bs[1..][..n - 2] == init[1..];
      var p := Pow2(8 * (n - 2));
      assert Pow2(8 * (n - 1)) == 256 * p by {
        Pow2Add(8 * (n - 2), 8);
        Pow2Values();
      }
      var a, b := LittleEndian(init[1..]), bs[n - 1];
      ScaleSum(256, a, p, b);
    }
  }

  /** Python's `int.from_bytes(bs, byteorder='little', signed=signed)`: with
      `signed`, a set top bit in the last (most significant) byte makes the
      value negative in two's complement over 8 * |bs| bits. */
  function FromBytes(bs: seq<byte>, signed: bool): int
  {
    var u := LittleEndian(bs);
    if signed && |bs| > 0 && bs[|bs| - 1] >= 0x80 then u - Pow2(8 * |bs|) else u
  }

  /** A string of n > 0 bytes splits into its first n - 1 bytes, below
      2^(8(n-1)), and its last byte scaled by 2^(8(n-1)). */
  lemma LittleEndianSplit(bs: seq<byte>) returns (low: nat, p: nat)
    requires |bs| > 0
    ensures p == Pow2(8 * (|bs| - 1)) && low < p
    ensures LittleEndian(bs) == low + p * bs[|bs| - 1]
    ensures Pow2(8 * |bs| - 1) == 128 * p && Pow2(8 * |bs|) == 256 * p
  {
    var n := |bs|;
    low, p := LittleEndian(bs[..n - 1]), Pow2(8 * (n - 1));
    LittleEndianLast(bs);
    LittleEndianBound(bs[..n - 1]);
    Pow2Add(8 * (n - 1), 7);
    Pow2Add(8 * (n - 1), 8);
    Pow2Values();
    assert Pow2(8) == 2 * Pow2(7);
  }

  /** The range of `int.from_bytes`: [0, 2^(8n)) unsigned and
      [-2^(8n-1), 2^(8n-1)) signed, for a string of n > 0 bytes. */
  lemma FromBytesRange(bs: seq<byte>)
    requires |bs| > 0
    ensures 0 <= FromBytes(bs, false) < Pow2(8 * |bs|)
    ensures var half: int := Pow2(8 * |bs| - 1); -half <= FromBytes(bs, true) < half
  {
    var last := bs[|bs| - 1];
    var low, p := LittleEndianSplit(bs);
    if last >= 0x80 {
      MulMono(p, 128, last);
      MulMono(p, last, 255);
    } else {
      MulMono(p, last, 127);
    }
  }

  /** Unsigned 16-bit little-endian calibration word. */
  function U16LE(lo: byte, hi: byte): int
  {
    FromBytes([lo, hi], false)
  }

  /** Signed 16-bit little-endian calibration word. */
  function I16LE(lo: byte, hi: byte): int
  {
    FromBytes([lo, hi], true)
  }

  /** Signed 8-bit calibration byte. */
  function I8(b: byte): int
  {
    FromBytes([b], true)
  }

  lemma LittleEndianPair(lo: byte, hi: byte)
    ensures LittleEndian([lo, hi]) == lo + 256 * hi
  {
    assert [lo, hi][1..] == [hi];
    assert [hi][1..] == [];
    assert LittleEndian([hi]) == hi + 256 * LittleEndian([]);
  }

  lemma U16LEValue(lo: byte, hi: byte)
    ensures U16LE(lo, hi) == lo + 256 * hi
    ensures 0 <= U16LE(lo, hi) <= 65535
  {
    LittleEndianPair(lo, hi);
  }

  lemma I16LEValue(lo: byte, hi: byte)
    ensures I16LE(lo, hi) == if hi >= 0x80 then lo + 256 * hi - 65536 else lo + 256 * hi
    ensures -32768 <= I16LE(lo, hi) <= 32767
  {
    LittleEndianPair(lo, hi);
    Pow2Values();
  }

  lemma I8Value(b: byte)
    ensures I8(b) == if b >= 0x80 then b - 256 else b
    ensures -128 <= I8(b) <= 127
  {
    assert [b][1..] == [];
    assert LittleEndian([b]) == b + 256 * LittleEndian([]);
    Pow2Values();
  }

  /** The known answers of the signed little-endian decoder. */
  lemma I16LEKnownAnswers()
    ensures I16LE(0xFF, 0xFF) == -1
    ensures I16LE(0x00, 0x80) == -32768
    ensures I16LE(0x01, 0x00) == 1
  {
    I16LEValue(0xFF, 0xFF);
    I16LEValue(0x00, 0x80);
    I16LEValue(0x01, 0x00);
  }

  /** The two's-complement reading of a 12-bit field: the unique value in
      [-2048, 2047] congruent to u modulo 4096. */
  function SignExtend12(u: nat): (r: int)
    requires u < 4096
    ensures -2048 <= r <= 2047
    ensures (u - r) % 4096 == 0
  {
    if u >= 2048 then u - 4096 else u
  }

  /** 20-bit raw temperature or pressure sample from the msb, lsb and xlsb
      data registers: only the top nibble of xlsb is used. */
  function Raw20(msb: byte, lsb: byte, xlsb: byte): nat
  {
    Or(Or(Shl(msb, 12), Shl(lsb, 4)), And(Shr(xlsb, 4), 0xF))
  }

  /** 16-bit raw humidity sample: msb and lsb only, no xlsb register. */
  function Raw16(msb: byte, lsb: byte): nat
  {
    Or(Shl(msb, 8), lsb)
  }

  /** The xlsb register contributes its high nibble. */
  lemma XlsbNibble(xlsb: byte)
    ensures And(Shr(xlsb, 4), 0xF) == xlsb / 16
  {
    ShiftValues(xlsb);
    Pow2Values();
    LowMask(xlsb / 16, 4);
  }

  /** msb and lsb fill bits 19..12 and 11..4 of the 20-bit sample. */
  lemma MsbLsbBits(msb: byte, lsb: byte)
    ensures Or(Shl(msb, 12), Shl(lsb, 4)) == Shl(msb * 256 + lsb, 4)
  {
    ShiftValues(msb);
    ShiftValues(lsb);
    ShiftValues(msb * 256 + lsb);
    Pow2Values();
    OrDisjoint(msb, Shl(lsb, 4), 12);
  }

  lemma Raw20Value(msb: byte, lsb: byte, xlsb: byte)
    ensures Raw20(msb, lsb, xlsb) == msb * 4096 + lsb * 16 + xlsb / 16
    ensures Raw20(msb, lsb, xlsb) < 0x10_0000
  {
    var word, nib := msb * 256 + lsb, xlsb / 16;
    XlsbNibble(xlsb);
    MsbLsbBits(msb, lsb);
    assert Raw20(msb, lsb, xlsb) == Or(Shl(word, 4), nib);
    assert Or(Shl(word, 4), nib) == 16 * word + nib by {
      assert Pow2(4) == 16 by { Pow2Values(); }
      OrDisjoint(word, nib, 4);
      ShiftValues(word);
    }
  }

  lemma Raw20KnownAnswer()
    ensures Raw20(0x12, 0x34, 0x50) == 0x12345
  {
    Raw20Value(0x12, 0x34, 0x50);
  }

  lemma Raw16Value(msb: byte, lsb: byte)
    ensures Raw16(msb, lsb) == msb * 256 + lsb
    ensures Raw16(msb, lsb) <= 0xFFFF
  {
    ShiftValues(msb);
    Pow2Values();
    OrDisjoint(msb, lsb, 8);
  }

  /** Low byte handed to `from_bytes` for H4: the low nibble of register
      0xE5 moved to the top of the byte. */
  lemma H4LowByte(e5: byte)
    ensures Shl(And(e5, 0x0F), 4) == (e5 % 16) * 16
  {
    var low := e5 % 16;
    assert And(e5, 0x0F) == low by {
      Pow2Values();
      AndLowMask(e5, 4);
    }
    ShiftValues(low);
  }

  /** Humidity coefficient H4: register 0xE4 as the high byte, the low
      nibble of 0xE5 shifted up as the low byte, decoded as a signed 16-bit
      word and divided by 16. */
  function H4(e4: byte, e5: byte): real
  {
    var lo := Shl(And(e5, 0x0F), 4);
    H4LowByte(e5);
    (FromBytes([lo, e4], true) as real) / 16.0
  }

  /** Masking a byte with 0xF0 keeps its high nibble in place. */
  lemma HighNibble(b: byte)
    ensures And(b, 0xF0) == Shl(b / 16, 4) == (b / 16) * 16
  {
    var h := b / 16;
    Pow2Values();
    assert Pow2(4) - 1 == 15;
    ShiftValues(15);
    ShiftValues(b);
    MaskAbove(b, 4, 4);
    assert Shr(b, 4) % Pow2(4) == h;
    ShiftValues(h);
  }

  /** The two bytes handed to `from_bytes` for H5: the high nibble of 0xE5
      joined with the high nibble of 0xE6, and the low nibble of 0xE6 moved
      to the top of the low byte. */
  lemma H5Bytes(e5: byte, e6: byte)
    ensures Or(And(e5, 0xF0), Shr(e6, 4)) == (e5 / 16) * 16 + e6 / 16
    ensures And(Shl(e6, 4), 0xFF) == (e6 % 16) * 16
    ensures (e5 / 16) * 16 + e6 / 16 < 256 && (e6 % 16) * 16 < 256
  {
    var hi, lo := e5 / 16, e6 / 16;
    HighNibble(e5);
    ShiftValues(e6);
    ShiftValues(hi);
    assert Or(Shl(hi, 4), lo) == Shl(hi, 4) + lo by {
      Pow2Values();
      OrDisjoint(hi, lo, 4);
    }
    assert And(16 * e6, 0xFF) == (16 * e6) % 256 by {
      Pow2Values();
      assert Pow2(8) - 1 == 0xFF;
      AndLowMask(16 * e6, 8);
    }
    DivModUnique(16 * e6, 256, lo, (e6 % 16) * 16);
  }

  /** Humidity coefficient H5 as the driver assembles it from registers 0xE5
      and 0xE6, decoded as a signed 16-bit word and divided by 16. */
  function H5(e5: byte, e6: byte): real
  {
    var hi := Or(And(e5, 0xF0), Shr(e6, 4));
    var lo := And(Shl(e6, 4), 0xFF);
    H5Bytes(e5, e6);
    (FromBytes([lo, hi], true) as real) / 16.0
  }

  /** Humidity coefficient H6: register 0xE7 as a signed byte. */
  function H6(e7: byte): real
  {
    I8(e7) as real
  }

  /** H4 is the 12-bit field 0xE4[7:0] 0xE5[3:0], sign-extended: the
      16-bit word is a multiple of 16, so the division is exact. */
  lemma H4ClosedForm(e4: byte, e5: byte)
    ensures H4(e4, e5) == SignExtend12(e4 * 16 + e5 % 16) as real
  {
    H4LowByte(e5);
    var lo := (e5 % 16) * 16;
    I16LEValue(lo, e4);
    var u := e4 * 16 + e5 % 16;
    assert lo + 256 * e4 == 16 * u;
  }

  /** H5 is the 12-bit field 0xE5[7:4] 0xE6[7:0], sign-extended: the
      16-bit word is a multiple of 16, so the division is exact. */
  lemma H5ClosedForm(e5: byte, e6: byte)
    ensures H5(e5, e6) == SignExtend12((e5 / 16) * 256 + e6) as real
  {
    H5Bytes(e5, e6);
    var hi := (e5 / 16) * 16 + e6 / 16;
    var lo := (e6 % 16) * 16;
    I16LEValue(lo, hi);
    var u := (e5 / 16) * 256 + e6;
    assert lo + 256 * hi == 16 * u;
    assert hi >= 0x80 <==> u >= 2048;
  }

  /** H5 with the layout of the trimming-parameter table of the Bosch BME280
      datasheet (section 4.2.2): 0xE6 as the high byte and the high nibble
      of 0xE5 as the low byte's top nibble, decoded and divided by 16. */
  function H5Datasheet(e5: byte, e6: byte): real
  {
    var lo := And(e5, 0xF0);
    HighNibble(e5);
    (FromBytes([lo, e6], true) as real) / 16.0
  }

  /** The datasheet layout is the 12-bit field 0xE6[7:0] 0xE5[7:4],
      sign-extended. */
  lemma H5DatasheetClosedForm(e5: byte, e6: byte)
    ensures H5Datasheet(e5, e6) == SignExtend12(e6 * 16 + e5 / 16) as real
  {
    HighNibble(e5);
    var lo := (e5 / 16) * 16;
    I16LEValue(lo, e6);
    var u := e6 * 16 + e5 / 16;
    assert lo + 256 * e6 == 16 * u;
  }

  /** The driver's H5 is not the datasheet's: a part whose H5 is 50
      (0xE5 = 0x20, 0xE6 = 0x03) decodes to 515. */
  lemma H5DiffersFromDatasheet()
    ensures H5Datasheet(0x20, 0x03) == 50.0
    ensures H5(0x20, 0x03) == 515.0
  {
    H5DatasheetClosedForm(0x20, 0x03);
    H5ClosedForm(0x20, 0x03);
  }

  lemma H6Value(e7: byte)
    ensures H6(e7) == (if e7 >= 0x80 then e7 - 256 else e7) as real
    ensures -128.0 <= H6(e7) <= 127.0
  {
    I8Value(e7);
  }
}
