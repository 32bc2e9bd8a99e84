/** Products of integers: order and cancellation. */
module Products {

  lemma MulMono(x: int, y: int, k: nat)
    requires x <= y
    ensures x * k <= y * k
  {
  }

  lemma CancelRight(u: int, v: int, k: nat)
    requires k > 0 && u * k <= v * k
    ensures u <= v
  {
    if u > v {
      MulMono(v + 1, u, k);
    }
  }

  lemma CancelStrict(u: int, v: int, k: nat)
    requires u * k < v * k
    ensures u < v
  {
  }

  lemma Commute(a: int, b: int)
    ensures a * b == b * a
  {
  }
}
