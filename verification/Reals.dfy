/** Scaling and dividing by a positive real. */
module Reals {
  lemma Scaled(x: real, y: real, s: real)
    requires s > 0.0
    ensures x * s <= y * s <==> x <= y
  {
  }

  lemma Divided(x: real, s: real)
    requires s > 0.0
    ensures (x / s) * s == x
  {
  }

  lemma Undone(x: real, s: real)
    requires s > 0.0
    ensures (x * s) / s == x
  {
  }
}
