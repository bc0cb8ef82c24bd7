/** A bit-set wrapper over a scoped enum (src/common/bit_flags.hpp). The
    enum's underlying type is taken to be a 32-bit unsigned integer, as in the
    source's tests; an enumerator is its value as a `bv32`. */
module BitFlagSets {

  type Bits = bv32

  /** `has(flag)`: every bit of `flag` is set in `flags`. */
  predicate HasBits(flags: Bits, flag: Bits) {
    flags & flag == flag
  }

  /** `add(flag)`: the bits of `flag` ORed in. */
  function AddBits(flags: Bits, flag: Bits): Bits {
    flags | flag
  }

  /** The flags of the variadic constructor: `add` applied to each listed
      flag in turn, starting from no flag. */
  function AddAll(list: seq<Bits>): Bits {
    if list == [] then 0 else AddBits(AddAll(list[..|list| - 1]), list[|list| - 1])
  }

  /** A flag that is a single bit. */
  predicate SingleBit(flag: Bits) {
    flag != 0 && flag & (flag - 1) == 0
  }

  /** After `add(f)`, `has(f)` holds and every flag present before is still
      present. */
  lemma AddSetsAndKeeps(flags: Bits, f: Bits, g: Bits)
    ensures HasBits(AddBits(flags, f), f)
    ensures HasBits(flags, g) ==> HasBits(AddBits(flags, f), g)
  {
  }

  /** Adding a flag twice gives the same state as adding it once. */
  lemma AddIdempotent(flags: Bits, f: Bits)
    ensures AddBits(AddBits(flags, f), f) == AddBits(flags, f)
  {
  }

  /** Every listed flag is present after the variadic constructor. */
  lemma {:induction false} AddAllHasListed(list: seq<Bits>, i: nat)
    requires i < |list|
    ensures HasBits(AddAll(list), list[i])
  {
    var n := |list| - 1;
    if i < n {
      AddAllHasListed(list[..n], i);
      AddSetsAndKeeps(AddAll(list[..n]), list[n], list[i]);
    } else {
      AddSetsAndKeeps(AddAll(list[..n]), list[n], list[i]);
    }
  }

  /** A single-bit flag that shares no bit with any listed flag is absent
      after the variadic constructor. */
  lemma {:induction false} AddAllOmitsUnlisted(list: seq<Bits>, f: Bits)
    requires SingleBit(f)
    requires forall g :: g in list ==> g & f == 0
    ensures !HasBits(AddAll(list), f)
    ensures AddAll(list) & f == 0
  {
    if list != [] {
      var n := |list| - 1;
      assert forall g :: g in list[..n] ==> g in list;
      AddAllOmitsUnlisted(list[..n], f);
      assert list[n] in list;
      assert (AddAll(list[..n]) | list[n]) & f == (AddAll(list[..n]) & f) | (list[n] & f);
    }
  }

  /** `none()` holds no non-empty flag; `all()` holds every flag. */
  lemma NoneAndAll(f: Bits)
    ensures f != 0 ==> !HasBits(0, f)
    ensures HasBits(0xFFFF_FFFF, f)
  {
  }

  class BitFlags {
    /** `mFlags`. */
    var flags: Bits

    /** The default constructor: no flag. */
    constructor ()
      ensures flags == 0
    {
      flags := 0;
    }

    /** The explicit single-flag constructor. */
    constructor Single(flag: Bits)
      ensures flags == flag
    {
      flags := flag;
    }

    /** The variadic constructor, `(add(flags), ...)`: every listed flag is
        present afterwards. */
    constructor Of(list: seq<Bits>)
      ensures flags == AddAll(list)
      ensures forall i :: 0 <= i < |list| ==> Has(list[i])
    {
      flags := 0;
      new;
      var i := 0;
      while i < |list|
        invariant 0 <= i <= |list|
        invariant flags == AddAll(list[..i])
      {
        assert list[..i + 1][..i] == list[..i];
        Add(list[i]);
        i := i + 1;
      }
      assert list[..i] == list;
      forall k | 0 <= k < |list|
        ensures Has(list[k])
      {
        AddAllHasListed(list, k);
      }
    }

    /** `none()`. */
    constructor None()
      ensures flags == 0
      ensures forall f :: f != 0 ==> !Has(f)
    {
      flags := 0;
    }

    /** `all()`: every bit of the underlying type set. */
    constructor All()
      ensures flags == 0xFFFF_FFFF
      ensures forall f :: Has(f)
    {
      flags := 0xFFFF_FFFF;
    }

    /** `has(flag)`. */
    predicate Has(flag: Bits)
      reads this
    {
      HasBits(flags, flag)
    }

    /** `add(flag)`: ORs the flag in; it is present afterwards and so is
        every flag present before. */
    method Add(flag: Bits)
      modifies this
      ensures flags == AddBits(old(flags), flag)
      ensures Has(flag)
      ensures forall g :: old(HasBits(flags, g)) ==> Has(g)
    {
      ghost var before := flags;
      flags := flags | flag;
      AddSetsAndKeeps(before, flag, flag);
      forall g | HasBits(before, g)
        ensures Has(g)
      {
        AddSetsAndKeeps(before, flag, g);
      }
    }
  }
}
