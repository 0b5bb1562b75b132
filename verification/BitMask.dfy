// The one test all sessions do on their action and flag words: BINARY_COMPARE
// (lib/default.h).
module BitMask {

  predicate Has(word: bv8, mask: bv8)
  {
    word & mask == mask
  }

  // A bit that is set or cleared does not touch a bit apart from it.
  lemma BitsApart(word: bv8, m: bv8, k: bv8)
    requires m & k == 0
    ensures Has(word | m, k) == Has(word, k) && Has(word & !m, k) == Has(word, k)
  {
  }

  lemma BitItself(word: bv8, m: bv8)
    ensures Has(word | m, m) && (m != 0 ==> !Has(word & !m, m))
  {
  }
}
