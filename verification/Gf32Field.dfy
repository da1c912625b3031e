/** GF(32) as a field. */
module Gf32Fields {
  import opened Gf32
  import opened Fields

  ghost function F(): Field<Element> {
    Field(0, 1, (a: Element, b: Element) => a ^ b, (a: Element, b: Element) => Mul(a, b), (a: Element) => Inverse(a))
  }

  lemma {:induction false} XorLaws(a: Element, b: Element, c: Element)
    ensures a ^ 0 == a && 0 ^ a == a && a ^ a == 0 && a ^ b == b ^ a && (a ^ b) ^ c == a ^ (b ^ c)
  {
  }

  function Inverse(a: Element): Element {
    if a == 0 then 0 else TableDiv(1, a)
  }

  lemma {:induction false} InverseIs(a: Element)
    requires a != 0
    ensures Mul(a, Inverse(a)) == 1
  {
    TableDivIsInverse(1, a);
    MulCommutes(a, Inverse(a));
  }

  lemma {:induction false} FieldLaw1(a: Element)
    ensures Law1(F(), a)
  {
    XorLaws(a, 0, 0);
    MulZero(a);
    if a != 0 {
      InverseIs(a);
    }
  }

  lemma {:induction false} FieldLaw2(a: Element, b: Element)
    ensures Law2(F(), a, b)
  {
    XorLaws(a, b, 0);
    MulCommutes(a, b);
  }

  lemma {:induction false} FieldLaw3(a: Element, b: Element, c: Element)
    ensures Law3(F(), a, b, c)
  {
    assert AddAssociates(F(), a, b, c) by {
      XorLaws(a, b, c);
    }
    FieldMulAssociates(a, b, c);
    FieldDistributes(a, b, c);
  }

  lemma {:induction false} FieldMulAssociates(a: Element, b: Element, c: Element)
    ensures Fields.MulAssociates(F(), a, b, c)
  {
    Gf32.MulAssociates(a, b, c);
  }

  lemma {:induction false} FieldDistributes(a: Element, b: Element, c: Element)
    ensures Distributes(F(), a, b, c)
  {
    MulDistributes(a, b, c);
  }

  lemma {:induction false} IsAField()
    ensures IsField(F())
  {
    forall a ensures Law1(F(), a) {
      FieldLaw1(a);
    }
    forall a, b ensures Law2(F(), a, b) {
      FieldLaw2(a, b);
    }
    forall a, b, c ensures Law3(F(), a, b, c) {
      FieldLaw3(a, b, c);
    }
  }
}
