/** The machine words of the host, said from outside: their sizes, what wrapping keeps, and what
    the target's division does. */
module Words {
  import opened Host
  import opened Arith

  /** Signed and unsigned words of 128, 64 and 32 bits. */
  lemma WordSizes(x: int)
    ensures IsI128(x) <==> -170_141_183_460_469_231_731_687_303_715_884_105_728 <= x <= 170_141_183_460_469_231_731_687_303_715_884_105_727
    ensures TWO_TO_128 == 340_282_366_920_938_463_463_374_607_431_768_211_456
    ensures U64_MAX == 18_446_744_073_709_551_615 && U32_MAX == 4_294_967_295
  {
  }

  /** A wrapped result differs from the true one by a multiple of 2^128. */
  lemma WrapIsCongruent(x: int)
    ensures IsI128(WrapI128(x)) && exists k: int :: WrapI128(x) == x - k * TWO_TO_128
  {
    var k := (x - I128_MIN) / TWO_TO_128;
    assert WrapI128(x) == x - k * TWO_TO_128;
  }

  /** Division rounds toward zero: down for a dividend that is not negative, */
  lemma QuotDown(a: nat, b: int, q: int)
    requires 0 < b
    ensures q == Quot(a, b) <==> q * b <= a < (q + 1) * b
  {
    FloorDiv(a, b);
    if q * b <= a < (q + 1) * b {
      FloorUnique(a, b, q);
    }
  }

  /** and up for a negative one. */
  lemma QuotUp(a: int, b: int, q: int)
    requires 0 < b && a < 0
    ensures q == Quot(a, b) <==> (q - 1) * b < a <= q * b
  {
    FloorDiv(-a, b);
    Negated(q, b);
    Negated(Quot(a, b), b);
    if (q - 1) * b < a <= q * b {
      FloorUnique(-a, b, -q);
    }
  }

  lemma Negated(q: int, b: int)
    ensures (-q) * b == -(q * b) && (-q + 1) * b == -((q - 1) * b)
  {
  }

  lemma MinAndMax(a: int, b: int)
    ensures Min(a, b) in {a, b} && Min(a, b) <= a && Min(a, b) <= b
    ensures Max(a, b) in {a, b} && a <= Max(a, b) && b <= Max(a, b)
  {
  }

  /** A call that panics leaves the state alone and answers nothing but the panic. */
  lemma PanicsRollBack<S, T, E>(before: S, r: Result<(S, T), E>)
    ensures r.Err? ==> After(before, r) == before && Answer(r) == Err(r.error)
    ensures r.Ok? ==> (After(before, r), Answer(r)) == (r.value.0, Ok(r.value.1))
  {
  }
}
