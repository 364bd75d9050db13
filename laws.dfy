/** Laws of the option type as a whole: the two states, the null interop round trips, the
    fallback and transformation laws, and the `equals`/`hashCode` contract. */
module OptionalLaws {
  import opened Java
  import opened Helios

  /** Every optional is in exactly one of the two states. */
  lemma PresenceExclusive<T>(o: Optional<T>)
    ensures o.IsPresent() != o.IsAbsent()
    ensures o.IsPresent() <==> o.Present?
  {
  }

  // ---- null interop ----

  /** `fromNullable(null)` is `absent()` and `fromNullable(v)` is `present(v)`. */
  lemma FromNullableCases<T>(v: T)
    ensures FromNullable<T>(Null) == AbsentOf()
    ensures Return(FromNullable(Ref(v))) == PresentOf(Ref(v))
  {
  }

  /** `fromNullable` undoes `orNull`, for every optional... */
  lemma FromNullableOfOrNull<T>(o: Optional<T>)
    ensures FromNullable(o.OrNull()) == o
  {
  }

  /** ...and `orNull` undoes `fromNullable`, for every reference: the two are inverse. */
  lemma OrNullOfFromNullable<T>(value: Nullable<T>)
    ensures FromNullable(value).OrNull() == value
  {
  }

  /** `fromNullable` is one-to-one: different references give different optionals... */
  lemma FromNullableInjective<T>(a: Nullable<T>, b: Nullable<T>)
    requires FromNullable(a) == FromNullable(b)
    ensures a == b
  {
  }

  /** ...and onto: every optional is `fromNullable` of some reference, namely its `orNull()`.
      So the null interop loses nothing in either direction. */
  lemma FromNullableOnto<T>(o: Optional<T>)
    ensures exists value :: FromNullable(value) == o
  {
    FromNullableOfOrNull(o);
  }

  /** Every optional is `from` of some `java.util.Optional`. */
  lemma FromOnto<T>(o: Optional<T>)
    ensures exists j :: From(Ref(j)) == Return(o)
  {
    var j := match o case Present(v) => Of(v) case Absent => Empty;
    assert From(Ref(j)) == Return(o);
  }

  /** Converting through `java.util.Optional.ofNullable` and then `from` is `fromNullable`:
      the two interop routes agree. */
  lemma FromAgreesWithFromNullable<T>(value: Nullable<T>)
    ensures From(Ref(OfNullable(value))) == Return(FromNullable(value))
  {
  }

  /** `from(Optional.empty())` is `absent()`, `from(Optional.of(v))` is `present(v)`,
      and `from(null)` fails. */
  lemma FromCases<T>(v: T)
    ensures From(Ref(JavaOptional<T>.Empty)) == Return(AbsentOf())
    ensures From(Ref(Of(v))) == PresentOf(Ref(v))
    ensures From<T>(Null).Throw?
  {
  }

  // ---- fallbacks ----

  /** The `or` table of the interface: a present receiver wins, otherwise the argument. */
  lemma OrTable<T>(v: T, w: T)
    ensures Present(v).Or(Ref(Present(w))) == Return(Present(v))
    ensures Present(v).Or(Ref(Absent)) == Return(Present(v))
    ensures Optional<T>.Absent.Or(Ref(Present(w))) == Return(Present(w))
    ensures Optional<T>.Absent.Or(Ref(Absent)) == Return(Optional<T>.Absent)
  {
  }

  /** `absent()` is an identity of `or` on both sides, and `or` is idempotent. */
  lemma OrIdentity<T>(o: Optional<T>)
    ensures AbsentOf().Or(Ref(o)) == Return(o)
    ensures o.Or(Ref(AbsentOf())) == Return(o)
    ensures o.Or(Ref(o)) == Return(o)
  {
  }

  /** `a.or(b).or(c)` equals `a.or(b.or(c))`. */
  lemma OrAssociative<T>(a: Optional<T>, b: Optional<T>, c: Optional<T>)
    ensures a.Or(Ref(b)).AndThen((x: Optional<T>) => x.Or(Ref(c)))
         == b.Or(Ref(c)).AndThen((y: Optional<T>) => a.Or(Ref(y)))
  {
  }

  /** The lazy overloads agree with the eager ones when the supplier hands back a value. */
  lemma LazyAgreesWithEager<T>(o: Optional<T>, other: Optional<T>, d: T)
    ensures o.OrSupplier(Ref(() => Return(Ref(other)))) == o.Or(Ref(other))
    ensures o.OrGet(Ref(() => Return(Ref(d)))) == o.OrDefault(Ref(d))
  {
  }

  /** `orDefault(d)` is `orNull()` with null replaced by `d`: the value if present,
      otherwise `d`, never null. */
  lemma OrDefaultIsOrNullWithDefault<T>(o: Optional<T>, d: T)
    ensures o.OrDefault(Ref(d)) == Return(match o.OrNull() case Ref(v) => v case Null => d)
  {
  }

  /** The interface's examples: `present(5).orDefault(10) == 5`, `absent().orDefault(10) == 10`,
      and the same for `orGet(() -> 10)`. */
  lemma OrDefaultExamples()
    ensures Present(5).OrDefault(Ref(10)) == Return(5)
    ensures Optional<int>.Absent.OrDefault(Ref(10)) == Return(10)
    ensures Present(5).OrGet(Ref(() => Return(Ref(10)))) == Return(5)
    ensures Optional<int>.Absent.OrGet(Ref(() => Return(Ref(10)))) == Return(10)
  {
  }

  /** `expect(m)` is `orThrow(() -> new NoSuchElementException("Expected " + m))`. */
  lemma ExpectIsOrThrow<T>(o: Optional<T>, m: string)
    ensures o.Expect(Ref(m))
         == o.OrThrow(Ref(() => Return(Ref(NoSuchElementException(ExpectPrefix + m)))))
  {
  }

  // ---- transformations ----

  /** The interface's `map` examples: `present(5).map(n -> n * 2)` is `present(10)` and
      `absent().map(n -> n * 2)` is absent. */
  lemma MapExamples()
    ensures Present(5).Map(Ref(Pure((n: int) => n * 2))) == Return(Present(10))
    ensures Optional<int>.Absent.Map(Ref(Pure((n: int) => n * 2))) == Return(Absent)
  {
  }

  /** The interface's `flatMap` examples, with an always-present and an always-absent mapper. */
  lemma FlatMapExamples()
    ensures Present(5).FlatMap(Ref((n: int) => Return(Ref(Present(n * 2))))) == Return(Present(10))
    ensures Present(5).FlatMap(Ref((n: int) => Return(Ref(Optional<int>.Absent)))) == Return(Absent)
    ensures Optional<int>.Absent.FlatMap(Ref((n: int) => Return(Ref(Present(n * 2))))) == Return(Absent)
    ensures Optional<int>.Absent.FlatMap(Ref((n: int) => Return(Ref(Optional<int>.Absent)))) == Return(Absent)
  {
  }

  /** The interface's `filter` examples: 5 is odd, so it passes `n % 2 == 1` and not
      `n % 2 == 0`. */
  lemma FilterExamples()
    ensures Present(5).Filter(Ref((n: int) => Return(n % 2 == 1))) == Return(Present(5))
    ensures Present(5).Filter(Ref((n: int) => Return(n % 2 == 0))) == Return(Absent)
  {
  }

  /** `map` by the identity is the identity; `map` keeps the state for a mapper that neither
      throws nor returns null. */
  lemma MapIdentity<T, M>(o: Optional<T>, f: T -> M)
    ensures o.Map(Ref(Pure((x: T) => x))) == Return(o)
    ensures o.Map(Ref(Pure(f))).Return? && o.Map(Ref(Pure(f))).value.IsPresent() == o.IsPresent()
  {
  }

  /** `o.map(f).map(g)` equals `o.map(x -> g(f(x)))` for pure `f` and `g`. */
  lemma MapComposition<T, U, V>(o: Optional<T>, f: T -> U, g: U -> V)
    ensures o.Map(Ref(Pure(f))).AndThen((r: Optional<U>) => r.Map(Ref(Pure(g))))
         == o.Map(Ref(Pure((x: T) => g(f(x)))))
  {
  }

  /** `flatMap(x -> present(g(x)))` equals `map(g)` for every optional, when `g` never
      returns null; `g` may throw. */
  lemma FlatMapOfPresentIsMap<T, M>(o: Optional<T>, g: Function<T, M>)
    requires forall x :: g(x) != Return(Null)
    ensures o.FlatMap(Ref(PresentAfter(g))) == o.Map(Ref(g))
  {
  }

  /** The law above needs its proviso: for some mapper, flat-mapping `x -> present(g(x))`
      and mapping `g` give different results on a present optional. */
  lemma FlatMapOfPresentDiffersFromMap<T, M>(v: T)
    ensures exists g: Function<T, M> :: Present(v).FlatMap(Ref(PresentAfter(g))) != Present(v).Map(Ref(g))
  {
    var g: Function<T, M> := _ => Return(Null);
    assert g(v) == Return(Null);
    assert PresentAfter(g)(v) == Throw(NullPointerException("value cannot be null"));
    assert Present(v).FlatMap(Ref(PresentAfter(g))) == Throw(NullPointerException("value cannot be null"));
    assert Present(v).Map(Ref(g)) == Throw(NullPointerException("mapper cannot return null"));
  }

  /** `flatMap(Optional::present)` is the identity. */
  lemma FlatMapPresentIdentity<T>(o: Optional<T>)
    ensures o.FlatMap(Ref((x: T) => Return(Ref(Present(x))))) == Return(o)
  {
  }

  /** `filter` returns the receiver itself or `absent()`, nothing else. */
  lemma FilterKeepsOrDrops<T>(o: Optional<T>, p: Predicate<T>)
    ensures o.Filter(Ref(p)).Return? ==> o.Filter(Ref(p)).value in {o, Absent}
  {
  }

  /** `filter(p).filter(p)` equals `filter(p)`. */
  lemma FilterIdempotent<T>(o: Optional<T>, p: Predicate<T>)
    ensures o.Filter(Ref(p)).AndThen((r: Optional<T>) => r.Filter(Ref(p))) == o.Filter(Ref(p))
  {
  }

  /** `filter(p).filter(q)` equals `filter(p.and(q))`: `q` is never consulted once `p`
      fails or throws. */
  lemma FilterAnd<T>(o: Optional<T>, p: Predicate<T>, q: Predicate<T>)
    ensures o.Filter(Ref(p)).AndThen((r: Optional<T>) => r.Filter(Ref(q))) == o.Filter(Ref(And(p, q)))
  {
  }

  // ---- equals and hashCode ----

  /** With the values' `equals` being Dafny equality, two optionals are `equals` exactly when
      they are the same optional; present is never equal to absent; nothing is equal to null. */
  lemma EqualsIsEquality<T>(o1: Optional<T>, o2: Optional<T>)
    ensures o1.Equals(Ref(OptionalObject(o2)), (a: T, b: T) => a == b) <==> o1 == o2
    ensures o1.IsPresent() != o2.IsPresent() ==> !o1.Equals(Ref(OptionalObject(o2)), (a: T, b: T) => a == b)
    ensures !o1.Equals(Null, (a: T, b: T) => a == b)
  {
  }

  /** `Optional.equals` is an equivalence relation whenever the values' `equals` is one. */
  lemma EqualsIsEquivalence<T>(eq: (T, T) -> bool, o1: Optional<T>, o2: Optional<T>, o3: Optional<T>)
    requires forall a :: eq(a, a)
    requires forall a, b :: eq(a, b) ==> eq(b, a)
    requires forall a, b, c :: eq(a, b) && eq(b, c) ==> eq(a, c)
    ensures o1.Equals(Ref(OptionalObject(o1)), eq)
    ensures o1.Equals(Ref(OptionalObject(o2)), eq) ==> o2.Equals(Ref(OptionalObject(o1)), eq)
    ensures o1.Equals(Ref(OptionalObject(o2)), eq) && o2.Equals(Ref(OptionalObject(o3)), eq)
        ==> o1.Equals(Ref(OptionalObject(o3)), eq)
  {
  }

  /** `hashCode` is consistent with `equals` whenever the values' `hashCode` is consistent
      with their `equals`: equal optionals hash alike. */
  lemma HashConsistentWithEquals<T>(eq: (T, T) -> bool, hash: T -> int32, o1: Optional<T>, o2: Optional<T>)
    requires forall a, b :: eq(a, b) ==> hash(a) == hash(b)
    requires o1.Equals(Ref(OptionalObject(o2)), eq)
    ensures o1.HashCode(hash) == o2.HashCode(hash)
  {
  }

  /** `toString` tells the two states apart: "Absent()" is never a present optional's text. */
  lemma ToStringDistinguishes<T>(v: T, show: T -> string)
    ensures Present(v).ToString(show) != Optional<T>.Absent.ToString(show)
  {
  }
}
