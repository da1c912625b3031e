/** Fields in which every element is its own negative. */
module Fields {

  datatype Field<!E> = Field(zero: E, one: E, add: (E, E) -> E, mul: (E, E) -> E, inv: E -> E)

  ghost predicate Law1<E>(f: Field<E>, a: E) {
    && f.add(a, f.zero) == a && f.add(f.zero, a) == a && f.add(a, a) == f.zero
    && f.mul(a, f.zero) == f.zero && f.mul(f.zero, a) == f.zero && f.mul(a, f.one) == a && f.mul(f.one, a) == a
    && (a != f.zero ==> f.mul(a, f.inv(a)) == f.one)
  }

  ghost predicate Law2<E>(f: Field<E>, a: E, b: E) {
    f.add(a, b) == f.add(b, a) && f.mul(a, b) == f.mul(b, a)
  }

  ghost predicate AddAssociates<E>(f: Field<E>, a: E, b: E, c: E) {
    f.add(f.add(a, b), c) == f.add(a, f.add(b, c))
  }

  ghost predicate MulAssociates<E>(f: Field<E>, a: E, b: E, c: E) {
    f.mul(f.mul(a, b), c) == f.mul(a, f.mul(b, c))
  }

  ghost predicate Distributes<E>(f: Field<E>, a: E, b: E, c: E) {
    f.mul(a, f.add(b, c)) == f.add(f.mul(a, b), f.mul(a, c))
  }

  ghost predicate Law3<E>(f: Field<E>, a: E, b: E, c: E) {
    AddAssociates(f, a, b, c) && MulAssociates(f, a, b, c) && Distributes(f, a, b, c)
  }

  ghost predicate IsField<E(!new)>(f: Field<E>) {
    && f.one != f.zero
    && (forall a {:trigger Law1(f, a)} :: Law1(f, a))
    && (forall a, b {:trigger Law2(f, a, b)} :: Law2(f, a, b))
    && (forall a, b, c {:trigger Law3(f, a, b, c)} :: Law3(f, a, b, c))
  }

  lemma Swap<E(!new)>(f: Field<E>, a: E, b: E, c: E, d: E)
    requires IsField(f)
    ensures f.add(f.add(a, b), f.add(c, d)) == f.add(f.add(a, c), f.add(b, d))
  {
    assert Law3(f, a, b, f.add(c, d)) && Law3(f, b, c, d) && Law2(f, b, c) && Law3(f, c, b, d)
        && Law3(f, a, c, f.add(b, d));
  }

  lemma Cancel<E(!new)>(f: Field<E>, a: E, b: E)
    requires IsField(f)
    ensures f.add(a, f.add(a, b)) == b
  {
    assert Law3(f, a, a, b) && Law1(f, a) && Law1(f, b);
  }

  /** Elements with sum zero are equal. */
  lemma SumZero<E(!new)>(f: Field<E>, a: E, b: E)
    requires IsField(f) && f.add(a, b) == f.zero
    ensures a == b
  {
    Cancel(f, a, b);
    assert Law1(f, a);
  }

  /** A product is zero only if a factor is. */
  lemma ProductZero<E(!new)>(f: Field<E>, a: E, b: E)
    requires IsField(f) && f.mul(a, b) == f.zero && a != f.zero
    ensures b == f.zero
  {
    assert Law1(f, a) && Law2(f, a, f.inv(a)) && Law3(f, f.inv(a), a, b) && Law1(f, b) && Law1(f, f.inv(a));
  }
}
