/** A bitmap over bytes, which refines a set of natural numbers. */
module BitMap {

  /** The byte whose only bit is the one at `pos`. */
  function Mask(pos: nat): bv8
    requires pos < 8
  {
    match pos
    case 0 => 1
    case 1 => 2
    case 2 => 4
    case 3 => 8
    case 4 => 16
    case 5 => 32
    case 6 => 64
    case _ => 128
  }

  predicate IsSet(b: bv8, pos: nat)
    requires pos < 8
  {
    b & Mask(pos) != 0
  }

  lemma OrMask(b: bv8, p: nat, q: nat)
    requires p < 8 && q < 8
    ensures IsSet(b | Mask(p), q) <==> p == q || IsSet(b, q)
  {
  }

  lemma AndNotMask(b: bv8, p: nat, q: nat)
    requires p < 8 && q < 8
    ensures IsSet(b & !Mask(p), q) <==> p != q && IsSet(b, q)
  {
  }

  class BitMap {
    const bits: array<bv8>
    const max: nat

    /** The numbers the bitmap holds. */
    ghost function Contents(): set<nat>
      reads bits
    {
      set n: nat | n < 8 * bits.Length && IsSet(bits[n / 8], n % 8)
    }

    constructor (max: nat)
      ensures this.max == max && fresh(bits) && bits.Length == max / 8 + 1
      ensures Contents() == {}
    {
      bits := new bv8[max / 8 + 1](_ => 0);
      this.max := max;
    }

    method Add(num: nat)
      requires num < 8 * bits.Length
      modifies bits
      ensures Contents() == old(Contents()) + {num}
    {
      var index, pos := num / 8, num % 8;
      ghost var before := bits[index];
      bits[index] := bits[index] | Mask(pos);
      forall n: nat | n < 8 * bits.Length
        ensures IsSet(bits[n / 8], n % 8) <==> n == num || old(IsSet(bits[n / 8], n % 8))
      {
        if n / 8 == index { OrMask(before, pos, n % 8); }
      }
    }

    method IsExist(num: nat) returns (r: bool)
      requires num < 8 * bits.Length
      ensures r <==> num in Contents()
    {
      r := bits[num / 8] & Mask(num % 8) != 0;
    }

    method Remove(num: nat)
      requires num < 8 * bits.Length
      modifies bits
      ensures Contents() == old(Contents()) - {num}
    {
      var index, pos := num / 8, num % 8;
      ghost var before := bits[index];
      bits[index] := bits[index] & !Mask(pos);
      forall n: nat | n < 8 * bits.Length
        ensures IsSet(bits[n / 8], n % 8) <==> n != num && old(IsSet(bits[n / 8], n % 8))
      {
        if n / 8 == index { AndNotMask(before, pos, n % 8); }
      }
    }
  }
}
