/** The checksum of an Ogg page. The table-driven loop computes the remainder
    of schoolbook division: the message, followed by 32 zero bits, divided as
    a polynomial over GF(2) by the generator 0x104C11DB7. A 32-bit register is
    its bits, most significant first. */
module OggCrc {
  import opened ByteOrder
  import opened Finite

  type Bits = seq<bool>
  type Word = w: Bits | |w| == 32 witness Zeros(32)

  function Zeros(n: nat): (z: Bits)
    ensures |z| == n
  {
    seq(n, _ => false)
  }

  /** The low k bits of n. */
  function BitsOf(n: nat, k: nat): (b: Bits)
    ensures |b| == k
  {
    if k == 0 then [] else BitsOf(n / 2, k - 1) + [n % 2 == 1]
  }

  function Value(b: Bits): nat {
    if b == [] then 0 else 2 * Value(b[..|b| - 1]) + (if b[|b| - 1] then 1 else 0)
  }

  function Pow2(k: nat): (p: nat)
    ensures p > 0
  {
    if k == 0 then 1 else 2 * Pow2(k - 1)
  }

  lemma {:induction false} BitsOfValue(b: Bits)
    ensures Value(b) < Pow2(|b|)
    ensures BitsOf(Value(b), |b|) == b
  {
    if b != [] {
      BitsOfValue(b[..|b| - 1]);
      assert Value(b) / 2 == Value(b[..|b| - 1]);
    }
  }

  function Xor(a: Bits, b: Bits): (c: Bits)
    requires |a| == |b|
    ensures |c| == |a|
    ensures forall i :: 0 <= i < |a| ==> c[i] == (a[i] != b[i])
  {
    seq(|a|, i requires 0 <= i < |a| => a[i] != b[i])
  }

  const POLYNOMIAL: Word := BitsOf(0x04C1_1DB7, 32)

  function ShiftLeft(w: Word, k: nat): Word
    requires k <= 32
  {
    w[k..] + Zeros(k)
  }

  // ----- The definition: long division, one bit at a time -----

  /** Multiplies a remainder by x and reduces it. */
  function Step(w: Word): Word {
    if w[0] then Xor(ShiftLeft(w, 1), POLYNOMIAL) else ShiftLeft(w, 1)
  }

  function LowBit(bit: bool): Word {
    Zeros(31) + [bit]
  }

  /** The remainder of w followed by the dividend's further bits. */
  function Divide(w: Word, bits: Bits): Word
    decreases bits
  {
    if bits == [] then w else Divide(Xor(Step(w), LowBit(bits[0])), bits[1..])
  }

  /** A byte string as the coefficients of a polynomial. */
  function Message(b: Bytes): Bits {
    if b == [] then [] else BitsOf(b[0], 8) + Message(b[1..])
  }

  function Remainder(b: Bytes): Word {
    Divide(Zeros(32), Message(b) + Zeros(32))
  }

  /** The checksum field's value. */
  function Checksum(b: Bytes): nat {
    Value(Remainder(b))
  }

  // ----- Feeding bits in at the top instead -----

  function HighBit(bit: bool): Word {
    [bit] + Zeros(31)
  }

  function Feed(w: Word, bits: Bits): Word
    decreases bits
  {
    if bits == [] then w else Feed(Step(Xor(w, HighBit(bits[0]))), bits[1..])
  }

  /** Multiplies by x to the n. */
  function Steps(w: Word, n: nat): Word
    decreases n
  {
    if n == 0 then w else Steps(Step(w), n - 1)
  }

  lemma StepLinear(a: Word, b: Word)
    ensures Step(Xor(a, b)) == Xor(Step(a), Step(b))
  {
  }

  lemma {:induction false} StepsLinear(a: Word, b: Word, n: nat)
    ensures Steps(Xor(a, b), n) == Xor(Steps(a, n), Steps(b, n))
    decreases n
  {
    if n > 0 {
      StepLinear(a, b);
      StepsLinear(Step(a), Step(b), n - 1);
    }
  }

  lemma {:induction false} StepsLast(w: Word, n: nat)
    ensures Steps(w, n + 1) == Step(Steps(w, n))
    decreases n
  {
    if n > 0 {
      StepsLast(Step(w), n - 1);
    }
  }

  lemma StepsFirst(w: Word, n: nat)
    requires n > 0
    ensures Steps(w, n) == Steps(Step(w), n - 1)
  {
  }

  /** Steps that never meet a set top bit only shift. */
  lemma {:induction false} StepsOfShort(w: Word, n: nat)
    requires n <= 32 && forall i :: 0 <= i < n ==> !w[i]
    ensures Steps(w, n) == ShiftLeft(w, n)
    decreases n
  {
    if n == 0 {
      assert ShiftLeft(w, 0) == w;
    } else {
      ShiftOnce(w, n);
      hide ShiftLeft, Step;
      StepsOfShort(ShiftLeft(w, 1), n - 1);
    }
  }

  lemma ShiftOnce(w: Word, n: nat)
    requires 0 < n <= 32 && !w[0]
    ensures Step(w) == ShiftLeft(w, 1) && ShiftLeft(ShiftLeft(w, 1), n - 1) == ShiftLeft(w, n)
    ensures forall i :: 0 <= i < n - 1 ==> ShiftLeft(w, 1)[i] == w[i + 1]
  {
  }

  lemma XorZeros(w: Word)
    ensures Xor(w, Zeros(32)) == w && Xor(Zeros(32), w) == w
  {
  }

  /** x to the 32 is the polynomial itself, and 0 stays 0. */
  lemma StepsOfLowBit(bit: bool)
    ensures Steps(LowBit(bit), 32) == Step(HighBit(bit))
  {
    StepsOfShort(LowBit(bit), 31);
    assert ShiftLeft(LowBit(bit), 31) == HighBit(bit);
    StepsLast(LowBit(bit), 31);
  }

  lemma {:induction false} DivideZeros(w: Word, n: nat)
    ensures Divide(w, Zeros(n)) == Steps(w, n)
    decreases n
  {
    if n > 0 {
      assert Zeros(n)[1..] == Zeros(n - 1) && LowBit(false) == Zeros(32);
      XorZeros(Step(w));
      DivideZeros(Step(w), n - 1);
    }
  }

  /** Feeding bits in at the top saves bringing down the 32 zeros. */
  lemma {:induction false} FeedingDivides(w: Word, bits: Bits)
    ensures Feed(Steps(w, 32), bits) == Divide(w, bits + Zeros(32))
    decreases bits
  {
    if bits == [] {
      assert bits + Zeros(32) == Zeros(32);
      DivideZeros(w, 32);
    } else {
      assert (bits + Zeros(32))[1..] == bits[1..] + Zeros(32);
      StepsLinear(Step(w), LowBit(bits[0]), 32);
      StepsOfLowBit(bits[0]);
      StepsLast(w, 32);
      StepLinear(Steps(w, 32), HighBit(bits[0]));
      FeedingDivides(Xor(Step(w), LowBit(bits[0])), bits[1..]);
    }
  }

  // ----- A byte at a time -----

  /** Bits in the top of an otherwise zero word. */
  function InTop(bits: Bits): Word
    requires |bits| <= 32
  {
    bits + Zeros(32 - |bits|)
  }

  /** Feeding in some bits is adding them all at once. */
  lemma {:induction false} FeedAtOnce(w: Word, bits: Bits)
    requires |bits| <= 32
    ensures Feed(w, bits) == Steps(Xor(w, InTop(bits)), |bits|)
    decreases bits
  {
    if bits == [] {
      assert InTop(bits) == Zeros(32);
      XorZeros(w);
    } else {
      var fed, low := Xor(w, HighBit(bits[0])), [false] + InTop(bits)[1..];
      assert Xor(w, InTop(bits)) == Xor(fed, low);
      StepLinear(fed, low);
      assert ShiftLeft(low, 1) == InTop(bits[1..]);
      FeedAtOnce(Step(fed), bits[1..]);
    }
  }

  /** Table entry i: the eight steps of i in the top byte. */
  function Entry(i: byte): Word {
    Steps(InTop(BitsOf(i, 8)), 8)
  }

  function TableIndex(crc: Word, c: byte): byte {
    BitsOfValue(Xor(crc[..8], BitsOf(c, 8)));
    assert Pow2(8) == 256;
    Value(Xor(crc[..8], BitsOf(c, 8)))
  }


  /** One lookup does the work of eight fed bits. */
  lemma LookupFeeds(crc: Word, c: byte)
    ensures Xor(ShiftLeft(crc, 8), Entry(TableIndex(crc, c))) == Feed(crc, BitsOf(c, 8))
  {
    hide BitsOf, Value, Feed, Step;
    var bits := BitsOf(c, 8);
    var high := Xor(crc[..8], bits);
    var low := Zeros(8) + crc[8..];
    BitsOfValue(high);
    FeedAtOnce(crc, bits);
    assert Xor(crc, InTop(bits)) == Xor(low, InTop(high));
    StepsLinear(low, InTop(high), 8);
    StepsOfShort(low, 8);
    assert ShiftLeft(low, 8) == ShiftLeft(crc, 8);
  }

  lemma {:induction false} FeedAppend(w: Word, a: Bits, b: Bits)
    ensures Feed(w, a + b) == Feed(Feed(w, a), b)
    decreases a
  {
    if a == [] {
      assert a + b == b;
    } else {
      assert (a + b)[1..] == a[1..] + b;
      FeedAppend(Step(Xor(w, HighBit(a[0]))), a[1..], b);
    }
  }

  lemma {:induction false} MessageAppend(a: Bytes, c: byte)
    ensures Message(a + [c]) == Message(a) + BitsOf(c, 8)
  {
    if a == [] {
      assert a + [c] == [c];
      assert Message([c]) == BitsOf(c, 8);
    } else {
      assert (a + [c])[1..] == a[1..] + [c];
      MessageAppend(a[1..], c);
    }
  }

  ghost predicate IsTable(table: array<Word>)
    reads table
  {
    table.Length == 256 && forall i :: 0 <= i < 256 ==> table[i] == Entry(i)
  }

  method BuildEntry(i: byte) returns (crc: Word)
    ensures crc == Entry(i)
  {
    hide BitsOf;
    crc := InTop(BitsOf(i, 8));
    ghost var entry := Entry(i);
    for k := 0 to 8
      invariant Steps(crc, 8 - k) == entry
    {
      StepsFirst(crc, 8 - k);
      if crc[0] {
        crc := Xor(ShiftLeft(crc, 1), POLYNOMIAL);
      } else {
        crc := ShiftLeft(crc, 1);
      }
    }
  }

  method BuildTable() returns (table: array<Word>)
    ensures IsTable(table) && fresh(table)
  {
    table := new Word[256](_ => Zeros(32));
    for i := 0 to 256
      invariant forall j :: 0 <= j < i ==> table[j] == Entry(j)
    {
      table[i] := BuildEntry(i);
    }
  }

  /** Feeding all the message's bits leaves the remainder. */
  lemma FedAll(b: Bytes)
    ensures Feed(Zeros(32), Message([])) == Zeros(32)
    ensures Feed(Zeros(32), Message(b)) == Remainder(b)
  {
    assert Message([]) == [];
    StepsOfShort(Zeros(32), 32);
    assert ShiftLeft(Zeros(32), 32) == Zeros(32);
    hide Message, Step, Divide, Steps;
    FeedingDivides(Zeros(32), Message(b));
  }

  lemma FedOneMore(b: Bytes, next: byte)
    ensures Feed(Zeros(32), Message(b + [next])) == Feed(Feed(Zeros(32), Message(b)), BitsOf(next, 8))
  {
    hide Feed, Message, Zeros, BitsOf;
    MessageAppend(b, next);
    FeedAppend(Zeros(32), Message(b), BitsOf(next, 8));
  }

  /** The loop over a page's bytes computes the remainder of the division. */
  method Crc(table: array<Word>, b: Bytes) returns (crc: Word)
    requires IsTable(table)
    ensures crc == Remainder(b)
  {
    crc := Zeros(32);
    FedAll(b);
    hide Feed, Message, Remainder, Xor, ShiftLeft, Zeros, BitsOf;
    for i := 0 to |b|
      invariant crc == Feed(Zeros(32), Message(b[..i]))
    {
      assert b[..i + 1] == b[..i] + [b[i]];
      FedOneMore(b[..i], b[i]);
      LookupFeeds(crc, b[i]);
      crc := Xor(ShiftLeft(crc, 8), table[TableIndex(crc, b[i])]);
    }
    assert b[..|b|] == b;
  }

  // ----- The generator -----

  /** Bits come most significant first. */
  lemma {:induction false} BitsAreHighFirst(n: nat, k: nat, i: nat)
    requires i < k
    ensures BitsOf(n, k)[i] <==> n / Pow2(k - 1 - i) % 2 == 1
  {
    if i < k - 1 {
      BitsAreHighFirst(n / 2, k - 1, i);
      HalfThen(n, Pow2(k - 2 - i));
    }
  }
}
