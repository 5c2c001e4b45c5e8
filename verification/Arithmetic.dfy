/** Facts about products and remainders. */
module Arithmetic {
  lemma ProductGrows(w: nat, k: nat)
    requires w > 0 && k >= 1
    ensures w * k >= w
  {
  }

  lemma NoRemainder(w: nat, q: nat, p: nat, r: nat)
    requires w > 0 && w * q == w * p + r && r < w
    ensures r == 0
  {
    if q > p {
      ProductGrows(w, q - p);
    } else {
      assert w * (p - q) == w * p - w * q;
    }
  }

  lemma MultipleHasNoRemainder(w: nat, q: nat)
    requires w > 0
    ensures (w * q) % w == 0
  {
    NoRemainder(w, q, (w * q) / w, (w * q) % w);
  }

  /** Multiples of `w` less than `w` apart are equal. */
  lemma MultiplesApart(w: nat, p: nat, q: nat)
    requires w > 0
    ensures q > p ==> w * q >= w * p + w
  {
    if q > p {
      ProductGrows(w, q - p);
      assert w * (q - p) == w * q - w * p;
    }
  }
}
