/** `__rt_ffs` of `kservice.c`: the lowest set bit of a word by a table of bytes. A word is given by its value. */
module Ffs {
  import SchedModel

  const WORD: nat := 0x1_0000_0000

  /** The line of `__lowest_bit_bitmap` for one upper digit: only the first entry depends on the digit. */
  function FirstOfLine(digit: nat): nat {
    match digit
    case 0 => 0 case 1 => 4 case 2 => 5 case 3 => 4 case 4 => 6 case 5 => 4 case 6 => 5 case 7 => 4
    case 8 => 7 case 9 => 4 case 10 => 5 case 11 => 4 case 12 => 6 case 13 => 4 case 14 => 5 case _ => 4
  }

  function InLine(digit: nat): nat {
    match digit
    case 1 => 0 case 2 => 1 case 3 => 0 case 4 => 2 case 5 => 0 case 6 => 1 case 7 => 0
    case 8 => 3 case 9 => 0 case 10 => 1 case 11 => 0 case 12 => 2 case 13 => 0 case 14 => 1 case _ => 0
  }

  function Table(k: nat): nat {
    if k % 16 == 0 then FirstOfLine(k / 16) else InLine(k % 16)
  }

  /** `__rt_ffs`. */
  function Ffs(value: nat): nat {
    if value == 0 then 0
    else if value % 256 != 0 then Table(value % 256) + 1
    else if value / 256 % 256 != 0 then Table(value / 256 % 256) + 9
    else if value / 256 / 256 % 256 != 0 then Table(value / 256 / 256 % 256) + 17
    else Table(value / 256 / 256 / 256) + 25
  }

  /** Bit i of a value. */
  predicate Bit(v: nat, i: nat)
    decreases i
  {
    if i == 0 then v % 2 == 1 else Bit(v / 2, i - 1)
  }

  /** The number of the lowest set bit. */
  function Low(v: nat): nat
    requires v > 0
  {
    if v % 2 == 1 then 0 else 1 + Low(v / 2)
  }

  lemma {:induction false} LowIsLowest(v: nat, i: nat)
    requires v > 0
    ensures Bit(v, Low(v)) && (i < Low(v) ==> !Bit(v, i))
    decreases v
  {
    if v % 2 == 0 {
      LowIsLowest(v / 2, if i == 0 then 0 else i - 1);
    }
  }

  function Pow(e: nat): (p: nat)
    ensures p > 0
  {
    if e == 0 then 1 else 2 * Pow(e - 1)
  }

  /** The lowest set bit is among the lowest e bits d, or above them. */
  lemma {:induction false} LowSum(h: nat, e: nat, d: nat)
    requires d < Pow(e) && h * Pow(e) + d > 0
    ensures if d != 0 then Low(h * Pow(e) + d) == Low(d) else h > 0 && Low(h * Pow(e)) == e + Low(h)
    decreases e
  {
    if e > 0 {
      Twice(h, e);
      var x := h * Pow(e - 1);
      LowDouble(x, d);
      if d % 2 == 0 {
        LowSum(h, e - 1, d / 2);
      }
    }
  }

  lemma Twice(h: nat, e: nat)
    requires e > 0
    ensures h * Pow(e) == 2 * (h * Pow(e - 1))
  {
  }

  lemma LowDouble(x: nat, d: nat)
    requires 2 * x + d > 0
    ensures if d % 2 == 1 then Low(2 * x + d) == 0 == Low(d) else x + d / 2 > 0 && Low(2 * x + d) == 1 + Low(x + d / 2)
    ensures d % 2 == 0 && d > 0 ==> Low(d) == 1 + Low(d / 2)
  {
    assert (2 * x + d) / 2 == x + d / 2 && (2 * x + d) % 2 == d % 2;
  }

  lemma LowDigit(v: nat)
    requires v > 0
    ensures if v % 16 != 0 then Low(v) == Low(v % 16) else v / 16 > 0 && Low(v) == 4 + Low(v / 16)
  {
    assert Pow(4) == 16 by {
      assert Pow(2) == 4;
    }
    LowSum(v / 16, 4, v % 16);
  }

  lemma LowByte(v: nat)
    requires v > 0
    ensures if v % 256 != 0 then Low(v) == Low(v % 256) else v / 256 > 0 && Low(v) == 8 + Low(v / 256)
  {
    assert Pow(8) == 256 by {
      assert Pow(2) == 4 && Pow(4) == 16 && Pow(6) == 64;
    }
    LowSum(v / 256, 8, v % 256);
  }

  /** The table is right. */
  lemma TableIsLow(k: nat)
    requires 0 < k < 256
    ensures Table(k) == Low(k)
  {
    LowDigit(k);
    if k % 16 == 0 {
      SmallLow(k / 16);
    } else {
      SmallLow(k % 16);
    }
  }

  lemma SmallLow(d: nat)
    requires 0 < d < 16
    ensures Low(d) == InLine(d) && FirstOfLine(d) == 4 + InLine(d)
  {
    assert Low(1) == 0 && Low(2) == 1 && Low(4) == 2;
    assert Low(3) == 0 && Low(6) == 1 && Low(8) == 3;
  }

  /** The number returned is that of the lowest set bit, counted from 1, and 0 only for 0. */
  lemma FfsIsLowest(v: nat, i: nat)
    requires v < WORD
    ensures Ffs(v) <= 32 && (Ffs(v) == 0 <==> v == 0)
    ensures v > 0 ==> Bit(v, Ffs(v) - 1) && (i < Ffs(v) - 1 ==> !Bit(v, i))
  {
    if v > 0 {
      FfsIsLow(v);
      LowIsLowest(v, i);
    }
  }

  lemma FfsIsLow(v: nat)
    requires 0 < v < WORD
    ensures Ffs(v) == Low(v) + 1 && Low(v) < 32
  {
    var a := v / 256;
    var b := a / 256;
    var c := b / 256;
    assert c < 256;
    ByteStep(v);
    if v % 256 == 0 {
      assert Ffs(v) == Rest(a, b, c);
      RestIsLow(a, b, c);
    }
  }

  /** The lowest byte decides, unless it is 0. */
  lemma ByteStep(v: nat)
    requires v > 0
    ensures v % 256 != 0 ==> Table(v % 256) == Low(v) < 8
    ensures v % 256 == 0 ==> v / 256 > 0 && Low(v) == 8 + Low(v / 256)
  {
    LowByte(v);
    if v % 256 != 0 {
      ByteLow(v % 256);
    }
  }

  /** What is returned when the lowest byte is 0, and when the two lowest are. */
  function Rest(a: nat, b: nat, c: nat): nat {
    if a % 256 != 0 then Table(a % 256) + 9 else Upper(b, c)
  }

  function Upper(b: nat, c: nat): nat {
    if b % 256 != 0 then Table(b % 256) + 17 else Table(c) + 25
  }

  lemma UpperIsLow(b: nat, c: nat)
    requires b > 0 && c == b / 256 && c < 256
    ensures Upper(b, c) == Low(b) + 17 && Low(b) < 16
  {
    ByteStep(b);
    if b % 256 == 0 {
      ByteLow(c);
    }
  }

  lemma RestIsLow(a: nat, b: nat, c: nat)
    requires a > 0 && b == a / 256 && c == b / 256 && c < 256
    ensures Rest(a, b, c) == Low(a) + 9 && Low(a) < 24
  {
    ByteStep(a);
    if a % 256 == 0 {
      UpperIsLow(b, c);
    }
  }

  lemma ByteLow(k: nat)
    requires 0 < k < 256
    ensures Table(k) == Low(k) < 8
  {
    TableIsLow(k);
    LowDigit(k);
    SmallLow(if k % 16 == 0 then k / 16 else k % 16);
  }

  /** On a word that holds a set of priorities, `__rt_ffs` finds the highest priority, as the scheduler uses it. */
  lemma FfsFindsPriority(v: nat)
    requires 0 < v < WORD
    ensures Ffs(v) - 1 == SchedModel.FirstBit(BitsOf(v), 0)
  {
    FfsIsLow(v);
    var p := SchedModel.FirstBit(BitsOf(v), 0);
    LowIsLowest(v, p);
    assert Low(v) in BitsOf(v);
  }

  function BitsOf(v: nat): set<nat> {
    set i: nat | i < 32 && Bit(v, i)
  }
}
