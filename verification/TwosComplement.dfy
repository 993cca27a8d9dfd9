/** Two's complement readings: what the signed gadgets and the multiplication above them mean by a number. */
module TwosComplement {
  import opened Arithmetic

  /** The signed range of that many bits. */
  predicate Fits(bits: nat, v: int)
    requires bits > 0
  {
    0 <= v + Pow2(bits - 1) < 2 * Pow2(bits - 1)
  }

  /** The signed reading of a two's complement number. */
  function Signed(bits: nat, v: nat): int
    requires bits > 0
  {
    if v < Pow2(bits - 1) then v else v - Pow2(bits)
  }

  /** Two's complement negation of a number of that width. */
  function Negation(bits: nat, v: nat): nat
    requires v < Pow2(bits)
  {
    if v == 0 then 0 else Pow2(bits) - v
  }

  /** The two's complement form of a signed number. */
  function Unsigned(bits: nat, z: int): int {
    if z < 0 then z + Pow2(bits) else z
  }

  lemma {:induction false} SignedFits(bits: nat, v: nat)
    requires bits > 0 && v < Pow2(bits)
    ensures Fits(bits, Signed(bits, v))
  {
  }

  /** When the signed reading of a negation is not positive, it is minus the number. */
  lemma {:induction false} NegReading(bits: nat, q: nat)
    requires bits > 0 && q < Pow2(bits)
    ensures Signed(bits, Negation(bits, q)) <= 0 ==> Signed(bits, Negation(bits, q)) == 0 - q
    ensures q <= Pow2(bits - 1) ==> Signed(bits, Negation(bits, q)) == 0 - q
  {
  }

  /** The signed and the unsigned reading are inverse to each other. */
  lemma {:induction false} ReadingsInverse(bits: nat, v: nat, z: int)
    requires bits > 0
    ensures v < Pow2(bits) ==> Fits(bits, Signed(bits, v)) && Unsigned(bits, Signed(bits, v)) == v
    ensures Fits(bits, z) ==> 0 <= Unsigned(bits, z) < Pow2(bits) && Signed(bits, Unsigned(bits, z)) == z
  {
  }

  /** Signed addition: the unsigned sum, reduced, has the sign that tells overflow. */
  lemma {:induction false} SignedSum(bits: nat, x: int, y: int)
    requires bits > 0 && Fits(bits, x) && Fits(bits, y)
    ensures var p := Pow2(bits - 1);
            var u, v := Unsigned(bits, x), Unsigned(bits, y);
            var m := (u + v) % Pow2(bits);
            (Fits(bits, x + y) <==> !(u < p && v < p && m >= p) && !(u >= p && v >= p && m < p)) &&
            (Fits(bits, x + y) ==> m == Unsigned(bits, x + y))
  {
    var p := Pow2(bits - 1);
    var u, v := Unsigned(bits, x), Unsigned(bits, y);
    assert Pow2(bits) == 2 * p;
    if u + v < 2 * p {
      DivModUnique(u + v, 2 * p, 0, u + v);
    } else {
      DivModUnique(u + v, 2 * p, 1, u + v - 2 * p);
    }
  }
}
