/** Bytes and the integer encodings the tag formats use: little-endian and
    big-endian words of a fixed width, and ID3's 7-bit "syncsafe" words. */
module ByteOrder {
  type byte = b: int | 0 <= b < 256
  type Bytes = seq<byte>

  function Pow256(k: nat): (p: nat)
    ensures p > 0
  {
    if k == 0 then 1 else 256 * Pow256(k - 1)
  }

  /** The low k bytes of n, least significant first; higher bytes are cut off
      as Go's conversion to a fixed-width integer does. */
  function PutLE(n: nat, k: nat): (b: Bytes)
    ensures |b| == k
  {
    if k == 0 then [] else [n % 256] + PutLE(n / 256, k - 1)
  }

  function GetLE(b: Bytes): nat {
    if b == [] then 0 else b[0] + 256 * GetLE(b[1..])
  }

  lemma {:induction false} GetPutLE(n: nat, k: nat)
    requires n < Pow256(k)
    ensures GetLE(PutLE(n, k)) == n
  {
    if k > 0 {
      GetPutLE(n / 256, k - 1);
      assert PutLE(n, k)[1..] == PutLE(n / 256, k - 1);
    }
  }

  lemma {:induction false} PutGetLE(b: Bytes)
    ensures GetLE(b) < Pow256(|b|)
    ensures PutLE(GetLE(b), |b|) == b
  {
    if b != [] {
      PutGetLE(b[1..]);
      assert GetLE(b) / 256 == GetLE(b[1..]);
    }
  }

  /** The low k bytes of n, most significant first. */
  function PutBE(n: nat, k: nat): (b: Bytes)
    ensures |b| == k
  {
    if k == 0 then [] else PutBE(n / 256, k - 1) + [n % 256]
  }

  function GetBE(b: Bytes): nat {
    if b == [] then 0 else 256 * GetBE(b[..|b| - 1]) + b[|b| - 1]
  }

  lemma {:induction false} GetPutBE(n: nat, k: nat)
    requires n < Pow256(k)
    ensures GetBE(PutBE(n, k)) == n
  {
    if k > 0 {
      GetPutBE(n / 256, k - 1);
      assert PutBE(n, k)[..k - 1] == PutBE(n / 256, k - 1);
    }
  }

  lemma {:induction false} PutGetBE(b: Bytes)
    ensures GetBE(b) < Pow256(|b|)
    ensures PutBE(GetBE(b), |b|) == b
  {
    if b != [] {
      PutGetBE(b[..|b| - 1]);
      assert GetBE(b) / 256 == GetBE(b[..|b| - 1]);
    }
  }

  function Pow128(k: nat): (p: nat)
    ensures p > 0
  {
    if k == 0 then 1 else 128 * Pow128(k - 1)
  }

  /** The low 7k bits of n, seven to a byte, most significant first. */
  function PutSyncsafe(n: nat, k: nat): (b: Bytes)
    ensures |b| == k
    ensures forall i :: 0 <= i < k ==> b[i] < 128
  {
    if k == 0 then [] else PutSyncsafe(n / 128, k - 1) + [n % 128]
  }

  predicate IsSyncsafe(b: Bytes) {
    forall i :: 0 <= i < |b| ==> b[i] < 128
  }

  function GetSyncsafe(b: Bytes): nat {
    if b == [] then 0 else 128 * GetSyncsafe(b[..|b| - 1]) + b[|b| - 1] % 128
  }

  lemma {:induction false} GetPutSyncsafe(n: nat, k: nat)
    requires n < Pow128(k)
    ensures GetSyncsafe(PutSyncsafe(n, k)) == n
  {
    if k > 0 {
      GetPutSyncsafe(n / 128, k - 1);
      assert PutSyncsafe(n, k)[..k - 1] == PutSyncsafe(n / 128, k - 1);
    }
  }

  lemma {:induction false} PutGetSyncsafe(b: Bytes)
    requires IsSyncsafe(b)
    ensures GetSyncsafe(b) < Pow128(|b|)
    ensures PutSyncsafe(GetSyncsafe(b), |b|) == b
  {
    if b != [] {
      PutGetSyncsafe(b[..|b| - 1]);
      assert GetSyncsafe(b) / 128 == GetSyncsafe(b[..|b| - 1]);
    }
  }

  /** The decoding loop of `syncsafe`: it stops at the first byte with its top
      bit set. */
  method Syncsafe(b: Bytes) returns (n: nat, ok: bool)
    ensures ok == IsSyncsafe(b)
    ensures n == if ok then GetSyncsafe(b) else 0
  {
    n := 0;
    for i := 0 to |b|
      invariant IsSyncsafe(b[..i])
      invariant n == GetSyncsafe(b[..i])
    {
      if b[i] >= 128 {
        return 0, false;
      }
      n := n * 128 + b[i];
      assert b[..i + 1][..i] == b[..i];
    }
    assert b[..|b|] == b;
    ok := true;
  }

  predicate StartsWith(b: Bytes, prefix: Bytes) {
    |b| >= |prefix| && b[..|prefix|] == prefix
  }

  /** The bytes of an ASCII string literal. */
  function Ascii(s: string): (b: Bytes)
    requires forall i :: 0 <= i < |s| ==> s[i] < 128 as char
    ensures |b| == |s|
    ensures forall i :: 0 <= i < |s| ==> b[i] == s[i] as int
  {
    seq(|s|, i requires 0 <= i < |s| => s[i] as int)
  }

  /** The bytes are the characters of s. */
  predicate Spells(b: Bytes, s: string) {
    |b| == |s| && forall i :: 0 <= i < |s| ==> b[i] == s[i] as int
  }

  /** The words of the formats, byte for byte. */
  lemma WordsAreSpelled(n: nat)
    ensures PutLE(n, 4) == [n % 0x100, n / 0x100 % 0x100, n / 0x1_0000 % 0x100, n / 0x100_0000 % 0x100]
    ensures PutBE(n, 4) == [n / 0x100_0000 % 0x100, n / 0x1_0000 % 0x100, n / 0x100 % 0x100, n % 0x100]
    ensures PutBE(n, 3) == [n / 0x1_0000 % 0x100, n / 0x100 % 0x100, n % 0x100]
    ensures PutSyncsafe(n, 4) == [n / 0x20_0000 % 0x80, n / 0x4000 % 0x80, n / 0x80 % 0x80, n % 0x80]
  {
    var n1, n2, n3 := n / 0x100, n / 0x1_0000, n / 0x100_0000;
    assert n1 / 0x100 == n2 && n2 / 0x100 == n3;
    assert PutLE(n3, 1) == [n3 % 0x100] && PutLE(n2, 2) == [n2 % 0x100] + PutLE(n3, 1);
    assert PutLE(n1, 3) == [n1 % 0x100] + PutLE(n2, 2) && PutLE(n, 4) == [n % 0x100] + PutLE(n1, 3);
    assert PutBE(n3, 1) == [n3 % 0x100] && PutBE(n2, 2) == PutBE(n3, 1) + [n2 % 0x100];
    assert PutBE(n1, 3) == PutBE(n2, 2) + [n1 % 0x100] && PutBE(n, 4) == PutBE(n1, 3) + [n % 0x100];
    assert PutBE(n2, 1) == [n2 % 0x100] && PutBE(n1, 2) == PutBE(n2, 1) + [n1 % 0x100];
    assert PutBE(n, 3) == PutBE(n1, 2) + [n % 0x100];
    var s1, s2, s3 := n / 0x80, n / 0x4000, n / 0x20_0000;
    assert s1 / 0x80 == s2 && s2 / 0x80 == s3;
    assert PutSyncsafe(s3, 1) == [s3 % 0x80] && PutSyncsafe(s2, 2) == PutSyncsafe(s3, 1) + [s2 % 0x80];
    assert PutSyncsafe(s1, 3) == PutSyncsafe(s2, 2) + [s1 % 0x80] && PutSyncsafe(n, 4) == PutSyncsafe(s1, 3) + [n % 0x80];
  }

  lemma AsciiInjective(s: string, t: string)
    requires forall i :: 0 <= i < |s| ==> s[i] < 128 as char
    requires forall i :: 0 <= i < |t| ==> t[i] < 128 as char
    requires Ascii(s) == Ascii(t)
    ensures s == t
  {
    forall i | 0 <= i < |s|
      ensures s[i] == t[i]
    {
      assert Ascii(s)[i] == Ascii(t)[i];
    }
  }

  lemma Regroup<T>(a: seq<T>, b: seq<T>, c: seq<T>)
    ensures a + (b + c) == (a + b) + c
  {
  }
}
