/** What the `Present` record does: every method first checks its argument for null, then
    answers from the wrapped value; fallbacks and suppliers are never consulted. */
module PresentFacts {
  import opened Java
  import opened Helios

  /** `new Present<>(null)` fails with "value cannot be null"; any other value is wrapped
      as it is and reads back through `value()`. */
  lemma ConstructorChecksNull<T>(v: T)
    ensures PresentOf<T>(Null) == Throw(NullPointerException("value cannot be null"))
    ensures PresentOf(Ref(v)) == Return(Present(v)) && PresentOf(Ref(v)).value.value == v
  {
  }

  /** A present optional answers `true` to `isPresent` and `false` to `isAbsent`. */
  lemma Queries<T>(v: T)
    ensures Present(v).IsPresent() && !Present(v).IsAbsent()
  {
  }

  /** Both `or` overloads return the receiver itself, whatever the fallback. The supplier is
      never called: the result is the same for every supplier, even one that only throws. */
  lemma OrKeepsReceiver<T>(v: T, other: Optional<T>, s1: Supplier<Optional<T>>, s2: Supplier<Optional<T>>)
    ensures Present(v).Or(Ref(other)) == Return(Present(v))
    ensures Present(v).OrSupplier(Ref(s1)) == Present(v).OrSupplier(Ref(s2)) == Return(Present(v))
    ensures Present(v).OrSupplier(Ref(() => Throw(Other("AssertionFailedError", "")))) == Return(Present(v))
  {
  }

  /** The null checks come first: a null fallback fails even though it would not be used. */
  lemma NullFallbacksRejected<T>(v: T)
    ensures Present(v).Or(Null) == Throw(NullPointerException("other cannot be null"))
    ensures Present(v).OrSupplier(Null) == Throw(NullPointerException("otherSupplier cannot be null"))
    ensures Present(v).OrDefault(Null) == Throw(NullPointerException("defaultValue cannot be null"))
    ensures Present(v).OrGet(Null) == Throw(NullPointerException("defaultValueSupplier cannot be null"))
    ensures Present(v).OrThrow(Null) == Throw(NullPointerException("exceptionSupplier cannot be null"))
    ensures Present(v).Expect(Null) == Throw(NullPointerException("message cannot be null"))
  {
  }

  /** `orDefault`, `orGet`, `orThrow` and `expect` return the wrapped value whatever their
      non-null argument is, so no supplier is ever called. */
  lemma ValueWins<T>(v: T, d: T, s: Supplier<T>, e: Supplier<Throwable>, m: string)
    ensures Present(v).OrDefault(Ref(d)) == Return(v)
    ensures Present(v).OrGet(Ref(s)) == Return(v)
    ensures Present(v).OrThrow(Ref(e)) == Return(v)
    ensures Present(v).Expect(Ref(m)) == Return(v)
  {
  }

  /** `orNull` hands out the value, and `fromNullable` takes it back to the same optional. */
  lemma OrNullRoundTrip<T>(v: T)
    ensures Present(v).OrNull() == Ref(v)
    ensures FromNullable(Present(v).OrNull()) == Present(v)
  {
  }

  /** `flatMap` returns the mapper's optional without wrapping it again, so flat-mapping
      `x -> present(g(x))` is `map(g)` whenever `g` does not return null... */
  lemma FlatMapOfPresentIsMap<T, M>(v: T, g: Function<T, M>)
    requires g(v) != Return(Null)
    ensures Present(v).FlatMap(Ref(PresentAfter(g))) == Present(v).Map(Ref(g))
  {
  }

  /** ...and when `g` does return null, both fail, but with different messages: the
      constructor's "value cannot be null" against `map`'s "mapper cannot return null". */
  lemma FlatMapOfPresentWhenNull<T, M>(v: T, g: Function<T, M>)
    requires g(v) == Return(Null)
    ensures Present(v).FlatMap(Ref(PresentAfter(g))) == Throw(NullPointerException("value cannot be null"))
    ensures Present(v).Map(Ref(g)) == Throw(NullPointerException("mapper cannot return null"))
    ensures Present(v).FlatMap(Ref(PresentAfter(g))) != Present(v).Map(Ref(g))
  {
  }

  /** `filter` keeps the receiver itself when the predicate holds and is otherwise absent;
      filtering twice with the same predicate is filtering once. */
  lemma FilterIdempotent<T>(v: T, p: Predicate<T>)
    ensures var once := Present(v).Filter(Ref(p));
      once.Return? ==> once.value == Present(v) || once.value == Absent
    ensures Present(v).Filter(Ref(p)).AndThen((o: Optional<T>) => o.Filter(Ref(p))) == Present(v).Filter(Ref(p))
  {
  }

  /** `hashCode` is the value's own hash code. */
  lemma HashIsValueHash<T>(v: T, hash: T -> int32)
    ensures Present(v).HashCode(hash) == hash(v)
  {
  }
}
