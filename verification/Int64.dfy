/** The program's 64-bit signed arithmetic. */
module Int64 {
  const INT64_LIMIT := 0x8000_0000_0000_0000

  /** Two's-complement wrap-around of a result. */
  function Wrap(x: int): int {
    (x + INT64_LIMIT) % (2 * INT64_LIMIT) - INT64_LIMIT
  }

  lemma WrapFits(x: int)
    ensures Wrap(x) == x <==> -INT64_LIMIT <= x < INT64_LIMIT
  {
  }

  lemma WrapAdds(x: int, y: int)
    ensures Wrap(Wrap(x) + y) == Wrap(x + y)
  {
    var m := 2 * INT64_LIMIT;
    var q := (x + INT64_LIMIT) / m;
    assert Wrap(x) == x - q * m;
    var p := (x + y + INT64_LIMIT) / m;
    assert Wrap(x + y) == x + y - p * m;
    assert Wrap(x) + y + INT64_LIMIT == (p - q) * m + (x + y + INT64_LIMIT) % m;
  }
}
