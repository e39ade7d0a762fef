/**
 * The 64-bit composition masks of the ECS (Go `uint64`).
 *
 * A mask is represented by the set of positions of its 1-bits, all below 64, which is a
 * bijection with `uint64`. Go's `|`, `&` and `&^` become union, intersection and difference,
 * and `1 << t` is the single bit t, or no bit at all when t >= 64 (Go defines a shift of a
 * uint64 by 64 or more to give 0).
 */
module Mask {

  /** Width of Go's `uint64`. */
  const Width: nat := 64

  type Mask = s: set<nat> | forall t :: t in s ==> t < Width

  /** The mask 0. */
  const Zero: Mask := {}

  /** `1 << t` on a uint64. */
  function Bit(t: nat): Mask
  {
    if t < Width then {t} else {}
  }

  /** `a | b` */
  function Or(a: Mask, b: Mask): Mask { a + b }

  /** `a & b` */
  function And(a: Mask, b: Mask): Mask { a * b }

  /** `a &^ b` */
  function AndNot(a: Mask, b: Mask): Mask { a - b }

  /** `m & (1 << t) != 0` */
  predicate HasBit(m: Mask, t: nat)
  {
    And(m, Bit(t)) != Zero
  }

  /** `e & m == m`: every bit required by m is set in e. */
  predicate Covers(e: Mask, m: Mask)
  {
    And(e, m) == m
  }

  /** A shift by 64 or more sets no bit: `1 << t` is 0. */
  lemma BitBeyondWidth(t: nat)
    requires t >= Width
    ensures Bit(t) == Zero && forall m: Mask :: !HasBit(m, t)
  {
  }

  /** Bit t of m is set exactly when t is one of its positions. */
  lemma HasBitIsMember(m: Mask, t: nat)
    ensures HasBit(m, t) <==> t in m
  {
    if t < Width {
      assert t in And(m, Bit(t)) <==> t in m;
    }
  }

  /** Setting bit t changes bit t only, and sets nothing when t >= 64. */
  lemma SetBit(m: Mask, t: nat, u: nat)
    ensures HasBit(Or(m, Bit(t)), u) <==> HasBit(m, u) || (u == t && t < Width)
  {
    HasBitIsMember(m, u);
    HasBitIsMember(Or(m, Bit(t)), u);
  }

  /** Clearing bit t changes bit t only. */
  lemma ClearBit(m: Mask, t: nat, u: nat)
    ensures HasBit(AndNot(m, Bit(t)), u) <==> HasBit(m, u) && u != t
  {
    HasBitIsMember(m, u);
    HasBitIsMember(AndNot(m, Bit(t)), u);
  }

  /** Every mask covers the empty requirement `0`. */
  lemma CoversZero(e: Mask)
    ensures Covers(e, Zero)
  {
  }

  /**
   * Adding `1 << t` to a requirement adds the condition that bit t is set,
   * and adds no condition at all when t >= 64.
   */
  lemma CoversWith(e: Mask, m: Mask, t: nat)
    ensures Covers(e, Or(m, Bit(t))) <==> Covers(e, m) && (t < Width ==> HasBit(e, t))
  {
    HasBitIsMember(e, t);
    if t < Width {
      if Covers(e, Or(m, Bit(t))) {
        assert t in And(e, Or(m, Bit(t)));
        assert And(e, m) == m by {
          forall x | x in m ensures x in And(e, m) {
            assert x in And(e, Or(m, Bit(t)));
          }
        }
      }
    }
  }
}
