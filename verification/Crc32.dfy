/** `crc32_cyc_cal` and `crc32_cal` of `crc_32.c`: a table-driven CRC-32 in the form of section 8 of RFC 1952. */
module Crc32 {
  import opened ShiftRegister

  predicate Odd(c: bv32) {
    c & 1 == 1
  }

  /** One step of the reflected computation with the polynomial 0xEDB88320. */
  function BitStep(c: bv32): bv32 {
    if Odd(c) then (c >> 1) ^ 0xEDB8_8320 else c >> 1
  }

  function Mix(c: bv32, b: bv8): bv32 {
    c ^ (b as bv32)
  }

  /** Bit by bit: the register after the bytes of `data`. */
  function Cycle(init: bv32, data: seq<bv8>): bv32 {
    Feed(BitStep, Mix, init, data)
  }

  function EightSteps(c: bv32): bv32 {
    BitStep(BitStep(BitStep(BitStep(BitStep(BitStep(BitStep(BitStep(c))))))))
  }

  // ---------- the table, sixteen entries at a time ----------

  function Lines0(i: bv8): bv32 {
    match i
    case 0x00 => 0x0000_0000 case 0x01 => 0x7707_3096 case 0x02 => 0xEE0E_612C case 0x03 => 0x9909_51BA
    case 0x04 => 0x076D_C419 case 0x05 => 0x706A_F48F case 0x06 => 0xE963_A535 case 0x07 => 0x9E64_95A3
    case 0x08 => 0x0EDB_8832 case 0x09 => 0x79DC_B8A4 case 0x0A => 0xE0D5_E91E case 0x0B => 0x97D2_D988
    case 0x0C => 0x09B6_4C2B case 0x0D => 0x7EB1_7CBD case 0x0E => 0xE7B8_2D07 case _ => 0x90BF_1D91
  }

  function Lines1(i: bv8): bv32 {
    match i
    case 0x10 => 0x1DB7_1064 case 0x11 => 0x6AB0_20F2 case 0x12 => 0xF3B9_7148 case 0x13 => 0x84BE_41DE
    case 0x14 => 0x1ADA_D47D case 0x15 => 0x6DDD_E4EB case 0x16 => 0xF4D4_B551 case 0x17 => 0x83D3_85C7
    case 0x18 => 0x136C_9856 case 0x19 => 0x646B_A8C0 case 0x1A => 0xFD62_F97A case 0x1B => 0x8A65_C9EC
    case 0x1C => 0x1401_5C4F case 0x1D => 0x6306_6CD9 case 0x1E => 0xFA0F_3D63 case _ => 0x8D08_0DF5
  }

  function Lines2(i: bv8): bv32 {
    match i
    case 0x20 => 0x3B6E_20C8 case 0x21 => 0x4C69_105E case 0x22 => 0xD560_41E4 case 0x23 => 0xA267_7172
    case 0x24 => 0x3C03_E4D1 case 0x25 => 0x4B04_D447 case 0x26 => 0xD20D_85FD case 0x27 => 0xA50A_B56B
    case 0x28 => 0x35B5_A8FA case 0x29 => 0x42B2_986C case 0x2A => 0xDBBB_C9D6 case 0x2B => 0xACBC_F940
    case 0x2C => 0x32D8_6CE3 case 0x2D => 0x45DF_5C75 case 0x2E => 0xDCD6_0DCF case _ => 0xABD1_3D59
  }

  function Lines3(i: bv8): bv32 {
    match i
    case 0x30 => 0x26D9_30AC case 0x31 => 0x51DE_003A case 0x32 => 0xC8D7_5180 case 0x33 => 0xBFD0_6116
    case 0x34 => 0x21B4_F4B5 case 0x35 => 0x56B3_C423 case 0x36 => 0xCFBA_9599 case 0x37 => 0xB8BD_A50F
    case 0x38 => 0x2802_B89E case 0x39 => 0x5F05_8808 case 0x3A => 0xC60C_D9B2 case 0x3B => 0xB10B_E924
    case 0x3C => 0x2F6F_7C87 case 0x3D => 0x5868_4C11 case 0x3E => 0xC161_1DAB case _ => 0xB666_2D3D
  }

  function Lines4(i: bv8): bv32 {
    match i
    case 0x40 => 0x76DC_4190 case 0x41 => 0x01DB_7106 case 0x42 => 0x98D2_20BC case 0x43 => 0xEFD5_102A
    case 0x44 => 0x71B1_8589 case 0x45 => 0x06B6_B51F case 0x46 => 0x9FBF_E4A5 case 0x47 => 0xE8B8_D433
    case 0x48 => 0x7807_C9A2 case 0x49 => 0x0F00_F934 case 0x4A => 0x9609_A88E case 0x4B => 0xE10E_9818
    case 0x4C => 0x7F6A_0DBB case 0x4D => 0x086D_3D2D case 0x4E => 0x9164_6C97 case _ => 0xE663_5C01
  }

  function Lines5(i: bv8): bv32 {
    match i
    case 0x50 => 0x6B6B_51F4 case 0x51 => 0x1C6C_6162 case 0x52 => 0x8565_30D8 case 0x53 => 0xF262_004E
    case 0x54 => 0x6C06_95ED case 0x55 => 0x1B01_A57B case 0x56 => 0x8208_F4C1 case 0x57 => 0xF50F_C457
    case 0x58 => 0x65B0_D9C6 case 0x59 => 0x12B7_E950 case 0x5A => 0x8BBE_B8EA case 0x5B => 0xFCB9_887C
    case 0x5C => 0x62DD_1DDF case 0x5D => 0x15DA_2D49 case 0x5E => 0x8CD3_7CF3 case _ => 0xFBD4_4C65
  }

  function Lines6(i: bv8): bv32 {
    match i
    case 0x60 => 0x4DB2_6158 case 0x61 => 0x3AB5_51CE case 0x62 => 0xA3BC_0074 case 0x63 => 0xD4BB_30E2
    case 0x64 => 0x4ADF_A541 case 0x65 => 0x3DD8_95D7 case 0x66 => 0xA4D1_C46D case 0x67 => 0xD3D6_F4FB
    case 0x68 => 0x4369_E96A case 0x69 => 0x346E_D9FC case 0x6A => 0xAD67_8846 case 0x6B => 0xDA60_B8D0
    case 0x6C => 0x4404_2D73 case 0x6D => 0x3303_1DE5 case 0x6E => 0xAA0A_4C5F case _ => 0xDD0D_7CC9
  }

  function Lines7(i: bv8): bv32 {
    match i
    case 0x70 => 0x5005_713C case 0x71 => 0x2702_41AA case 0x72 => 0xBE0B_1010 case 0x73 => 0xC90C_2086
    case 0x74 => 0x5768_B525 case 0x75 => 0x206F_85B3 case 0x76 => 0xB966_D409 case 0x77 => 0xCE61_E49F
    case 0x78 => 0x5EDE_F90E case 0x79 => 0x29D9_C998 case 0x7A => 0xB0D0_9822 case 0x7B => 0xC7D7_A8B4
    case 0x7C => 0x59B3_3D17 case 0x7D => 0x2EB4_0D81 case 0x7E => 0xB7BD_5C3B case _ => 0xC0BA_6CAD
  }

  function Lines8(i: bv8): bv32 {
    match i
    case 0x80 => 0xEDB8_8320 case 0x81 => 0x9ABF_B3B6 case 0x82 => 0x03B6_E20C case 0x83 => 0x74B1_D29A
    case 0x84 => 0xEAD5_4739 case 0x85 => 0x9DD2_77AF case 0x86 => 0x04DB_2615 case 0x87 => 0x73DC_1683
    case 0x88 => 0xE363_0B12 case 0x89 => 0x9464_3B84 case 0x8A => 0x0D6D_6A3E case 0x8B => 0x7A6A_5AA8
    case 0x8C => 0xE40E_CF0B case 0x8D => 0x9309_FF9D case 0x8E => 0x0A00_AE27 case _ => 0x7D07_9EB1
  }

  function Lines9(i: bv8): bv32 {
    match i
    case 0x90 => 0xF00F_9344 case 0x91 => 0x8708_A3D2 case 0x92 => 0x1E01_F268 case 0x93 => 0x6906_C2FE
    case 0x94 => 0xF762_575D case 0x95 => 0x8065_67CB case 0x96 => 0x196C_3671 case 0x97 => 0x6E6B_06E7
    case 0x98 => 0xFED4_1B76 case 0x99 => 0x89D3_2BE0 case 0x9A => 0x10DA_7A5A case 0x9B => 0x67DD_4ACC
    case 0x9C => 0xF9B9_DF6F case 0x9D => 0x8EBE_EFF9 case 0x9E => 0x17B7_BE43 case _ => 0x60B0_8ED5
  }

  function LinesA(i: bv8): bv32 {
    match i
    case 0xA0 => 0xD6D6_A3E8 case 0xA1 => 0xA1D1_937E case 0xA2 => 0x38D8_C2C4 case 0xA3 => 0x4FDF_F252
    case 0xA4 => 0xD1BB_67F1 case 0xA5 => 0xA6BC_5767 case 0xA6 => 0x3FB5_06DD case 0xA7 => 0x48B2_364B
    case 0xA8 => 0xD80D_2BDA case 0xA9 => 0xAF0A_1B4C case 0xAA => 0x3603_4AF6 case 0xAB => 0x4104_7A60
    case 0xAC => 0xDF60_EFC3 case 0xAD => 0xA867_DF55 case 0xAE => 0x316E_8EEF case _ => 0x4669_BE79
  }

  function LinesB(i: bv8): bv32 {
    match i
    case 0xB0 => 0xCB61_B38C case 0xB1 => 0xBC66_831A case 0xB2 => 0x256F_D2A0 case 0xB3 => 0x5268_E236
    case 0xB4 => 0xCC0C_7795 case 0xB5 => 0xBB0B_4703 case 0xB6 => 0x2202_16B9 case 0xB7 => 0x5505_262F
    case 0xB8 => 0xC5BA_3BBE case 0xB9 => 0xB2BD_0B28 case 0xBA => 0x2BB4_5A92 case 0xBB => 0x5CB3_6A04
    case 0xBC => 0xC2D7_FFA7 case 0xBD => 0xB5D0_CF31 case 0xBE => 0x2CD9_9E8B case _ => 0x5BDE_AE1D
  }

  function LinesC(i: bv8): bv32 {
    match i
    case 0xC0 => 0x9B64_C2B0 case 0xC1 => 0xEC63_F226 case 0xC2 => 0x756A_A39C case 0xC3 => 0x026D_930A
    case 0xC4 => 0x9C09_06A9 case 0xC5 => 0xEB0E_363F case 0xC6 => 0x7207_6785 case 0xC7 => 0x0500_5713
    case 0xC8 => 0x95BF_4A82 case 0xC9 => 0xE2B8_7A14 case 0xCA => 0x7BB1_2BAE case 0xCB => 0x0CB6_1B38
    case 0xCC => 0x92D2_8E9B case 0xCD => 0xE5D5_BE0D case 0xCE => 0x7CDC_EFB7 case _ => 0x0BDB_DF21
  }

  function LinesD(i: bv8): bv32 {
    match i
    case 0xD0 => 0x86D3_D2D4 case 0xD1 => 0xF1D4_E242 case 0xD2 => 0x68DD_B3F8 case 0xD3 => 0x1FDA_836E
    case 0xD4 => 0x81BE_16CD case 0xD5 => 0xF6B9_265B case 0xD6 => 0x6FB0_77E1 case 0xD7 => 0x18B7_4777
    case 0xD8 => 0x8808_5AE6 case 0xD9 => 0xFF0F_6A70 case 0xDA => 0x6606_3BCA case 0xDB => 0x1101_0B5C
    case 0xDC => 0x8F65_9EFF case 0xDD => 0xF862_AE69 case 0xDE => 0x616B_FFD3 case _ => 0x166C_CF45
  }

  function LinesE(i: bv8): bv32 {
    match i
    case 0xE0 => 0xA00A_E278 case 0xE1 => 0xD70D_D2EE case 0xE2 => 0x4E04_8354 case 0xE3 => 0x3903_B3C2
    case 0xE4 => 0xA767_2661 case 0xE5 => 0xD060_16F7 case 0xE6 => 0x4969_474D case 0xE7 => 0x3E6E_77DB
    case 0xE8 => 0xAED1_6A4A case 0xE9 => 0xD9D6_5ADC case 0xEA => 0x40DF_0B66 case 0xEB => 0x37D8_3BF0
    case 0xEC => 0xA9BC_AE53 case 0xED => 0xDEBB_9EC5 case 0xEE => 0x47B2_CF7F case _ => 0x30B5_FFE9
  }

  function LinesF(i: bv8): bv32 {
    match i
    case 0xF0 => 0xBDBD_F21C case 0xF1 => 0xCABA_C28A case 0xF2 => 0x53B3_9330 case 0xF3 => 0x24B4_A3A6
    case 0xF4 => 0xBAD0_3605 case 0xF5 => 0xCDD7_0693 case 0xF6 => 0x54DE_5729 case 0xF7 => 0x23D9_67BF
    case 0xF8 => 0xB366_7A2E case 0xF9 => 0xC461_4AB8 case 0xFA => 0x5D68_1B02 case 0xFB => 0x2A6F_2B94
    case 0xFC => 0xB40B_BE37 case 0xFD => 0xC30C_8EA1 case 0xFE => 0x5A05_DF1B case _ => 0x2D02_EF8D
  }

  /** `crc32_table`. */
  function Table(i: bv8): bv32 {
    if i < 0x10 then Lines0(i)
    else if i < 0x20 then Lines1(i)
    else if i < 0x30 then Lines2(i)
    else if i < 0x40 then Lines3(i)
    else if i < 0x50 then Lines4(i)
    else if i < 0x60 then Lines5(i)
    else if i < 0x70 then Lines6(i)
    else if i < 0x80 then Lines7(i)
    else if i < 0x90 then Lines8(i)
    else if i < 0xA0 then Lines9(i)
    else if i < 0xB0 then LinesA(i)
    else if i < 0xC0 then LinesB(i)
    else if i < 0xD0 then LinesC(i)
    else if i < 0xE0 then LinesD(i)
    else if i < 0xF0 then LinesE(i)
    else LinesF(i)
  }

  lemma Lines0Right(i: bv8)
    requires 0x00 <= i <= 0x0F
    ensures Lines0(i) == EightSteps(i as bv32)
  {
  }

  lemma Lines1Right(i: bv8)
    requires 0x10 <= i <= 0x1F
    ensures Lines1(i) == EightSteps(i as bv32)
  {
  }

  lemma Lines2Right(i: bv8)
    requires 0x20 <= i <= 0x2F
    ensures Lines2(i) == EightSteps(i as bv32)
  {
  }

  lemma Lines3Right(i: bv8)
    requires 0x30 <= i <= 0x3F
    ensures Lines3(i) == EightSteps(i as bv32)
  {
  }

  lemma Lines4Right(i: bv8)
    requires 0x40 <= i <= 0x4F
    ensures Lines4(i) == EightSteps(i as bv32)
  {
  }

  lemma Lines5Right(i: bv8)
    requires 0x50 <= i <= 0x5F
    ensures Lines5(i) == EightSteps(i as bv32)
  {
  }

  lemma Lines6Right(i: bv8)
    requires 0x60 <= i <= 0x6F
    ensures Lines6(i) == EightSteps(i as bv32)
  {
  }

  lemma Lines7Right(i: bv8)
    requires 0x70 <= i <= 0x7F
    ensures Lines7(i) == EightSteps(i as bv32)
  {
  }

  lemma Lines8Right(i: bv8)
    requires 0x80 <= i <= 0x8F
    ensures Lines8(i) == EightSteps(i as bv32)
  {
  }

  lemma Lines9Right(i: bv8)
    requires 0x90 <= i <= 0x9F
    ensures Lines9(i) == EightSteps(i as bv32)
  {
  }

  lemma LinesARight(i: bv8)
    requires 0xA0 <= i <= 0xAF
    ensures LinesA(i) == EightSteps(i as bv32)
  {
  }

  lemma LinesBRight(i: bv8)
    requires 0xB0 <= i <= 0xBF
    ensures LinesB(i) == EightSteps(i as bv32)
  {
  }

  lemma LinesCRight(i: bv8)
    requires 0xC0 <= i <= 0xCF
    ensures LinesC(i) == EightSteps(i as bv32)
  {
  }

  lemma LinesDRight(i: bv8)
    requires 0xD0 <= i <= 0xDF
    ensures LinesD(i) == EightSteps(i as bv32)
  {
  }

  lemma LinesERight(i: bv8)
    requires 0xE0 <= i <= 0xEF
    ensures LinesE(i) == EightSteps(i as bv32)
  {
  }

  lemma LinesFRight(i: bv8)
    requires 0xF0 <= i <= 0xFF
    ensures LinesF(i) == EightSteps(i as bv32)
  {
  }

  /** Every entry is what eight single steps make of its index. */
  lemma TableIsEightSteps(i: bv8)
    ensures Table(i) == EightSteps(i as bv32)
  {
    if i < 0x10 {
      Lines0Right(i);
    } else if i < 0x20 {
      Lines1Right(i);
    } else if i < 0x30 {
      Lines2Right(i);
    } else if i < 0x40 {
      Lines3Right(i);
    } else if i < 0x50 {
      Lines4Right(i);
    } else if i < 0x60 {
      Lines5Right(i);
    } else if i < 0x70 {
      Lines6Right(i);
    } else if i < 0x80 {
      Lines7Right(i);
    } else if i < 0x90 {
      Lines8Right(i);
    } else if i < 0xA0 {
      Lines9Right(i);
    } else if i < 0xB0 {
      LinesARight(i);
    } else if i < 0xC0 {
      LinesBRight(i);
    } else if i < 0xD0 {
      LinesCRight(i);
    } else if i < 0xE0 {
      LinesDRight(i);
    } else if i < 0xF0 {
      LinesERight(i);
    } else {
      LinesFRight(i);
    }
  }

  // ---------- one byte at a time ----------

  ghost predicate LinearAt(a: bv32, b: bv32) {
    BitStep(a ^ b) == BitStep(a) ^ BitStep(b)
  }

  lemma BothOdd(a: bv32, b: bv32)
    requires Odd(a) && Odd(b)
    ensures LinearAt(a, b)
  {
  }

  lemma FirstOdd(a: bv32, b: bv32)
    requires Odd(a) && !Odd(b)
    ensures LinearAt(a, b)
  {
  }

  lemma SecondOdd(a: bv32, b: bv32)
    requires !Odd(a) && Odd(b)
    ensures LinearAt(a, b)
  {
  }

  lemma NeitherOdd(a: bv32, b: bv32)
    requires !Odd(a) && !Odd(b)
    ensures LinearAt(a, b)
  {
  }

  function Xor(a: bv32, b: bv32): bv32 {
    a ^ b
  }

  lemma BitLinear()
    ensures Linear(BitStep, Xor)
  {
    forall a: bv32, b: bv32
      ensures BitStep(Xor(a, b)) == Xor(BitStep(a), BitStep(b))
    {
      if Odd(a) && Odd(b) {
        BothOdd(a, b);
      } else if Odd(a) {
        FirstOdd(a, b);
      } else if Odd(b) {
        SecondOdd(a, b);
      } else {
        NeitherOdd(a, b);
      }
      assert LinearAt(a, b);
    }
  }

  lemma IterIsEight(c: bv32)
    ensures Iter(BitStep, c, 8) == EightSteps(c)
  {
  }

  /** A register whose low byte is clear is only shifted. */
  lemma HighBytes(x: bv32)
    ensures EightSteps(x & 0xFFFF_FF00) == x >> 8
  {
  }

  lemma SplitByte(x: bv32)
    ensures Xor(x & 0xFFFF_FF00, x & 0xFF) == x
  {
  }

  /** The index that the code computes. */
  function Index(c: bv32, b: bv8): bv8 {
    ((c & 0xFF) as bv8) ^ b
  }

  lemma MixedBytes(c: bv32, b: bv8)
    ensures Mix(c, b) & 0xFF == Index(c, b) as bv32 && Mix(c, b) >> 8 == c >> 8
  {
  }

  lemma EightOfXor(a: bv32, b: bv32)
    ensures Iter(BitStep, Xor(a, b), 8) == Xor(EightSteps(a), EightSteps(b))
  {
    BitLinear();
    IterLinear(BitStep, Xor, a, b, 8);
    IterIsEight(a);
    IterIsEight(b);
  }

  lemma EightOfParts(x: bv32)
    ensures Iter(BitStep, x, 8) == Xor(EightSteps(x & 0xFFFF_FF00), EightSteps(x & 0xFF))
  {
    EightOfXor(x & 0xFFFF_FF00, x & 0xFF);
    SplitByte(x);
  }

  /** `table` holds the eight steps of every byte. */
  ghost predicate Tabulates(table: bv8 -> bv32, eight: bv32 -> bv32) {
    forall i :: table(i) == eight(i as bv32)
  }

  /** Eight steps only shift the high bytes, and treat the low byte by itself. */
  ghost predicate Splits(eight: bv32 -> bv32) {
    forall x :: eight(x) == (x >> 8) ^ eight(x & 0xFF)
  }

  lemma TableTabulates()
    ensures Tabulates(Table, EightSteps)
  {
    forall i: bv8
      ensures Table(i) == EightSteps(i as bv32)
    {
      TableIsEightSteps(i);
    }
  }

  lemma EightSplits()
    ensures Splits(EightSteps)
  {
    forall x: bv32
      ensures EightSteps(x) == (x >> 8) ^ EightSteps(x & 0xFF)
    {
      EightOfParts(x);
      HighBytes(x);
      IterIsEight(x);
    }
  }

  lemma LookUp(table: bv8 -> bv32, eight: bv32 -> bv32, c: bv32, b: bv8)
    requires Tabulates(table, eight) && Splits(eight)
    ensures (c >> 8) ^ table(Index(c, b)) == eight(Mix(c, b))
  {
    MixedBytes(c, b);
    assert table(Index(c, b)) == eight(Index(c, b) as bv32);
  }

  /** One table look-up does the eight steps of a byte. */
  lemma LookUpIsByte(c: bv32, b: bv8)
    ensures (c >> 8) ^ Table(Index(c, b)) == Iter(BitStep, Mix(c, b), 8)
  {
    TableTabulates();
    EightSplits();
    LookUp(Table, EightSteps, c, b);
    IterIsEight(Mix(c, b));
  }

  // ---------- whole inputs ----------

  function Crc(data: seq<bv8>): bv32 {
    Cycle(0xFFFF_FFFF, data) ^ 0xFFFF_FFFF
  }

  /** Chaining calls over the parts of an input is one call over the whole. */
  lemma Chaining(init: bv32, s: seq<bv8>, t: seq<bv8>)
    ensures Cycle(Cycle(init, s), t) == Cycle(init, s + t)
  {
    FeedAppend(BitStep, Mix, init, s, t);
  }

  lemma OneMoreByte(init: bv32, data: seq<bv8>, i: nat, crc: bv32)
    requires i < |data| && crc == Cycle(init, data[..i])
    ensures (crc >> 8) ^ Table(Index(crc, data[i])) == Cycle(init, data[..i + 1])
  {
    LookUpIsByte(crc, data[i]);
    FeedOne(BitStep, Mix, init, data[..i], data[i]);
    assert data[..i + 1] == data[..i] + [data[i]];
  }

  /** `crc32_cyc_cal`: for every initial value and every input the table-driven loop computes what the bit-by-bit
      register does. */
  method CycleCal(init: bv32, data: array<bv8>, len: nat) returns (crc: bv32)
    requires len <= data.Length
    ensures crc == Cycle(init, data[..len])
  {
    crc := init;
    var i := 0;
    while i < len
      invariant i <= len && crc == Cycle(init, data[..i])
    {
      var idx := Index(crc, data[i]);
      assert data[..len][..i] == data[..i] && data[..len][..i + 1] == data[..i + 1];
      OneMoreByte(init, data[..len], i, crc);
      crc := (crc >> 8) ^ Table(idx);
      i := i + 1;
    }
  }

  /** `crc32_cal`. */
  method Cal(data: array<bv8>, len: nat) returns (crc: bv32)
    requires len <= data.Length
    ensures crc == Crc(data[..len])
  {
    crc := CycleCal(0xFFFF_FFFF, data, len);
    crc := crc ^ 0xFFFF_FFFF;
  }
}
