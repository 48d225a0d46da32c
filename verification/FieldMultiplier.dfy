/**
 * The multiplier behind the point datapath. The repository has two with the same ports, 17 x 15 bits
 * (fe25519_mul_core.v) and 5 x 51 bits (fe25519_mul_wide_core.v); the deployed datapath has the wide one.
 */
module FieldMultiplier {
  import opened Field
  import FeMul
  import FeMulWide

  class Multiplier {
    const wide: bool
    const wideCore: FeMulWide.MulWideCore
    const narrowCore: FeMul.MulCore

    constructor (wide: bool)
      ensures Valid() && this.wide == wide && fresh(Arrays())
    {
      this.wide := wide;
      wideCore := new FeMulWide.MulWideCore();
      narrowCore := new FeMul.MulCore();
    }

    ghost predicate Valid() {
      && wideCore.Valid() && narrowCore.Valid()
    }

    /** Everything a multiplication changes. */
    ghost function Arrays(): set<object> {
      {wideCore, narrowCore, narrowCore.aLimb, narrowCore.bLimb, narrowCore.accum} + wideCore.Arrays()
    }

    /** Whether this multiplier gets a product right: always the narrow one, the wide one when limb 0 stays in its 51 bits. */
    ghost predicate Keeps(a: Fe, b: Fe) {
      !wide || FeMulWide.SecondWrap(a, b) < FeMulWide.W
    }

    /** One start/done round trip: reduced in any case, and the product exactly when Keeps says so. */
    method Multiply(a: Fe, b: Fe) returns (r: Fe)
      requires Valid()
      modifies Arrays()
      ensures InField(r)
      ensures r == ModP(a * b) <==> Keeps(a, b)
      ensures wide && !Keeps(a, b) ==> r == ModP(a * b) - FeMulWide.W
    {
      hide FeMulWide.Product, FeMulWide.SecondWrap, FeMulWide.W;
      if wide {
        r := wideCore.Multiply(a, b);
        FeMulWide.ProductExactIff(a, b);
        assert FeMulWide.W > 0;
      } else {
        r := narrowCore.Multiply(a, b);
        Reduces(a * b);
      }
    }
  }
}
