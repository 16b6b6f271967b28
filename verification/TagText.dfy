/** The editable metadata and the decimal text its numbers are embedded as. */
module TagText {
  import opened ByteOrder

  /** An empty text or a number that is not positive means the tag is absent. */
  datatype Metadata = Metadata(
    title: Bytes, artist: Bytes, album: Bytes, albumArtist: Bytes, composer: Bytes,
    genre: Bytes, comment: Bytes, year: int, trackNumber: int, discNumber: int)
  {
    /** Every number prints in the four digits that are read back. */
    predicate NumbersFit() {
      0 <= year <= 9999 && 0 <= trackNumber <= 9999 && 0 <= discNumber <= 9999
    }
  }

  datatype Result<+T> = Ok(value: T) | Err(error: Error) {
    predicate IsFailure() { Err? }

    function PropagateFailure<U>(): Result<U>
      requires Err?
    {
      Err(error)
    }

    function Extract(): T
      requires Ok?
    {
      value
    }
  }

  datatype Error = Malformed | Unsupported

  /** What inspecting a file yields: its embedded metadata and its audio. The
      program keeps a hash and a count of the audio; here it is the bytes. */
  datatype Info = Info(metadata: Metadata, payload: Bytes)

  /** Largest amount of tag data held in memory. */
  const MAX_TAG_BYTES := 0x100_0000

  /** The Unicode tables behind Go's ToUpper, ToLower and TrimSpace. Only
      their behaviour on ASCII is used; see Agrees. */
  datatype Unicode = Unicode(upper: Bytes -> Bytes, lower: Bytes -> Bytes, trim: Bytes -> Bytes)
  {
    ghost predicate Agrees() {
      && (forall b: Bytes :: (forall i :: 0 <= i < |b| ==> b[i] < 128 && !IsLower(b[i])) ==> upper(b) == b)
      && (forall b: Bytes :: (forall i :: 0 <= i < |b| ==> 33 <= b[i] < 127) ==> trim(b) == b)
    }
  }

  predicate IsLower(c: byte) { 97 <= c <= 122 }

  predicate IsDigit(c: byte) { 48 <= c <= 57 }

  predicate AllDigits(b: Bytes) {
    forall i :: 0 <= i < |b| ==> IsDigit(b[i])
  }

  /** The value of a string of digits. */
  function Decimal(b: Bytes): nat
    requires AllDigits(b)
  {
    if b == [] then 0 else 10 * Decimal(b[..|b| - 1]) + (b[|b| - 1] - 48)
  }

  /** The longest prefix of at most max digits. */
  function DigitPrefix(b: Bytes, max: nat): (p: Bytes)
    ensures AllDigits(p) && |p| <= max && p <= b
    ensures |p| == max || p == b || !IsDigit(b[|p|])
  {
    if b == [] || max == 0 || !IsDigit(b[0]) then [] else [b[0]] + DigitPrefix(b[1..], max - 1)
  }

  /** What leadingNumber reads from a value such as "7/12" or "2026-03-01". */
  function LeadingValue(u: Unicode, value: Bytes, maxDigits: nat): nat {
    Decimal(DigitPrefix(u.trim(value), maxDigits))
  }

  lemma {:induction false} DigitPrefixOfDigits(b: Bytes, max: nat)
    requires AllDigits(b) && |b| <= max
    ensures DigitPrefix(b, max) == b
  {
    if b != [] {
      DigitPrefixOfDigits(b[1..], max - 1);
    }
  }

  /** A prefix that cannot be extended is the longest one. */
  lemma {:induction false} DigitPrefixUnique(b: Bytes, max: nat, end: nat)
    requires end <= |b| && end <= max && AllDigits(b[..end])
    requires end == max || end == |b| || !IsDigit(b[end])
    ensures DigitPrefix(b, max) == b[..end]
  {
    if end > 0 {
      assert IsDigit(b[..end][0]);
      assert b[1..][..end - 1] == b[..end][1..];
      DigitPrefixUnique(b[1..], max - 1, end - 1);
    }
  }

  method LeadingNumber(u: Unicode, value: Bytes, maxDigits: nat) returns (n: nat)
    ensures n == LeadingValue(u, value, maxDigits)
  {
    var v := u.trim(value);
    var end := 0;
    while end < |v| && end < maxDigits && IsDigit(v[end])
      invariant 0 <= end <= |v| && end <= maxDigits
      invariant AllDigits(v[..end])
    {
      end := end + 1;
    }
    DigitPrefixUnique(v, maxDigits, end);
    n := Decimal(v[..end]);
  }

  function Itoa(n: nat): (b: Bytes)
    ensures AllDigits(b) && |b| > 0
  {
    if n < 10 then [48 + n] else Itoa(n / 10) + [48 + n % 10]
  }

  lemma {:induction false} DecimalItoa(n: nat)
    ensures Decimal(Itoa(n)) == n
  {
    if n >= 10 {
      DecimalItoa(n / 10);
      assert Itoa(n)[..|Itoa(n)| - 1] == Itoa(n / 10);
    } else {
      assert Decimal(Itoa(n)[..0]) == 0;
    }
  }

  function Pow10(k: nat): nat {
    if k == 0 then 1 else 10 * Pow10(k - 1)
  }

  lemma {:induction false} ItoaLength(n: nat, k: nat)
    requires k > 0 && n < Pow10(k)
    ensures |Itoa(n)| <= k
  {
    if n >= 10 {
      ItoaLength(n / 10, k - 1);
    }
  }

  function NumberText(n: int): Bytes {
    if n <= 0 then [] else Itoa(n)
  }

  function Zeros(k: nat): (b: Bytes)
    ensures |b| == k && AllDigits(b)
  {
    seq(k, _ => 48)
  }

  /** The year, padded with zeros to four digits. */
  function YearText(year: int): Bytes {
    if year <= 0 then []
    else if |Itoa(year)| < 4 then Zeros(4 - |Itoa(year)|) + Itoa(year) else Itoa(year)
  }

  lemma {:induction false} DecimalPadded(k: nat, b: Bytes)
    requires AllDigits(b)
    ensures Decimal(Zeros(k) + b) == Decimal(b)
    decreases k + |b|
  {
    if b != [] {
      assert (Zeros(k) + b)[..k + |b| - 1] == Zeros(k) + b[..|b| - 1];
      DecimalPadded(k, b[..|b| - 1]);
    } else if k > 0 {
      assert (Zeros(k) + b)[..k - 1] == Zeros(k - 1) + [];
      DecimalPadded(k - 1, []);
    }
  }

  lemma DigitsReadBack(u: Unicode, b: Bytes)
    requires u.Agrees() && AllDigits(b) && |b| <= 4
    ensures LeadingValue(u, b, 4) == Decimal(b)
  {
    assert forall i :: 0 <= i < |b| ==> IsDigit(b[i]);
    assert u.trim(b) == b;
    DigitPrefixOfDigits(b, 4);
  }

  lemma PrintedDigits(n: nat)
    requires n <= 9999
    ensures AllDigits(NumberText(n)) && |NumberText(n)| <= 4
    ensures Decimal(NumberText(n)) == n
  {
    if n > 0 {
      assert Pow10(4) == 10000;
      ItoaLength(n, 4);
      DecimalItoa(n);
    }
  }

  lemma PaddedDigits(n: nat)
    requires n <= 9999
    ensures AllDigits(YearText(n)) && |YearText(n)| <= 4
    ensures Decimal(YearText(n)) == n
  {
    PrintedDigits(n);
    if n > 0 {
      var b := Itoa(n);
      DecimalPadded(4 - |b|, b);
    }
  }

  /** Reading back a printed number or year gives the number. */
  lemma NumberReadBack(u: Unicode, n: int)
    requires u.Agrees() && 0 <= n <= 9999
    ensures LeadingValue(u, NumberText(n), 4) == n
    ensures LeadingValue(u, YearText(n), 4) == n
  {
    PrintedDigits(n);
    PaddedDigits(n);
    DigitsReadBack(u, NumberText(n));
    DigitsReadBack(u, YearText(n));
  }

  // ----- Numbers that other programs wrote -----

  /** What is read is the number that the leading digits spell, most significant
      first, and nothing of what follows: "7/12" is 7 and "2026-03-01" is 2026. */
  lemma LeadingDigits(u: Unicode, digits: Bytes, rest: Bytes, max: nat)
    requires AllDigits(digits) && (rest == [] || !IsDigit(rest[0])) && u.trim(digits + rest) == digits + rest
    ensures LeadingValue(u, digits + rest, max) == Decimal(if |digits| <= max then digits else digits[..max])
  {
    var v, end := digits + rest, if |digits| <= max then |digits| else max;
    assert v[..end] == digits[..end];
    DigitPrefixUnique(v, max, end);
  }

  /** Each digit counts ten times what it would one place further right. */
  lemma {:induction false} DecimalAppend(a: Bytes, b: Bytes)
    requires AllDigits(a) && AllDigits(b)
    ensures AllDigits(a + b) && Decimal(a + b) == Decimal(a) * Pow10(|b|) + Decimal(b)
  {
    if b == [] {
      assert a + b == a;
    } else {
      var init, c := b[..|b| - 1], b[|b| - 1] - 48;
      DecimalAppend(a, init);
      assert (a + b)[..|a + b| - 1] == a + init;
      assert Decimal(a + b) == 10 * Decimal(a + init) + c && Decimal(b) == 10 * Decimal(init) + c;
      TenTimes(Decimal(a), Pow10(|init|), Decimal(init));
    }
  }

  lemma TenTimes(x: nat, p: nat, y: nat)
    ensures 10 * (x * p + y) == x * (10 * p) + 10 * y
  {
    assert x * (10 * p) == 10 * (x * p);
  }

  /** A written year has four digits, with zeros in front where it needs them;
      any other number has none in front. Nothing is written for 0. */
  lemma WrittenNumbers(n: int)
    requires n <= 9999
    ensures n <= 0 ==> YearText(n) == [] && NumberText(n) == []
    ensures n > 0 ==> |YearText(n)| == 4 && AllDigits(YearText(n)) && Decimal(YearText(n)) == n
    ensures n > 0 ==> NumberText(n) != [] && NumberText(n)[0] != 48 && AllDigits(NumberText(n)) && Decimal(NumberText(n)) == n
  {
    if n > 0 {
      PrintedDigits(n);
      PaddedDigits(n);
      NoLeadingZero(n);
    }
  }

  lemma {:induction false} NoLeadingZero(n: nat)
    requires n > 0
    ensures Itoa(n)[0] != 48
  {
    if n >= 10 {
      NoLeadingZero(n / 10);
    }
  }
}
