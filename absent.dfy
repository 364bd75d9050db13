/** What the `Absent` record does: after the same null checks as `Present`, it answers with
    the fallback, null, 0, an exception, or `Absent` again, and never calls a mapper or a
    predicate. */
module AbsentFacts {
  import opened Java
  import opened Helios

  /** An absent optional answers `false` to `isPresent` and `true` to `isAbsent`. */
  lemma Queries<T>()
    ensures !Optional<T>.Absent.IsPresent() && Optional<T>.Absent.IsAbsent()
  {
  }

  /** Every absent optional is `absent()`: equal, with hash code 0, whichever instance it is;
      so the shared singleton is an unobservable choice. */
  lemma AllAbsentAreOne<T>(o1: Optional<T>, o2: Optional<T>, eq: (T, T) -> bool, hash: T -> int32)
    requires o1.IsAbsent() && o2.IsAbsent()
    ensures o1 == o2 == AbsentOf()
    ensures o1.Equals(Ref(OptionalObject(o2)), eq)
    ensures o1.HashCode(hash) == 0
  {
  }

  /** `or(other)` returns `other`, present or absent; only a null `other` is refused. */
  lemma OrReturnsOther<T>(other: Optional<T>)
    ensures Optional<T>.Absent.Or(Ref(other)) == Return(other)
    ensures Optional<T>.Absent.Or(Null) == Throw(NullPointerException("other cannot be null"))
  {
  }

  /** `or(supplier)` returns what the supplier gives, which must not be null. */
  lemma OrSupplierCallsSupplier<T>(other: Optional<T>)
    ensures Optional<T>.Absent.OrSupplier(Ref(() => Return(Ref(other)))) == Return(other)
    ensures Optional<T>.Absent.OrSupplier(Ref(() => Return(Null)))
         == Throw(NullPointerException("otherSupplier cannot return null"))
  {
  }

  /** `orDefault(d)` is `d` and `orGet(s)` is what `s` gives; null is refused in both. */
  lemma FallbackValue<T>(d: T)
    ensures Optional<T>.Absent.OrDefault(Ref(d)) == Return(d)
    ensures Optional<T>.Absent.OrDefault(Null) == Throw(NullPointerException("defaultValue cannot be null"))
    ensures Optional<T>.Absent.OrGet(Ref(() => Return(Ref(d)))) == Return(d)
    ensures Optional<T>.Absent.OrGet(Ref(() => Return(Null)))
         == Throw(NullPointerException("defaultValueSupplier cannot return null"))
  {
  }

  /** `orNull` is null, and `fromNullable` takes it back to `absent()`. */
  lemma OrNullRoundTrip<T>()
    ensures Optional<T>.Absent.OrNull() == Null
    ensures FromNullable(Optional<T>.Absent.OrNull()) == AbsentOf()
  {
  }

  /** `orThrow(s)` raises exactly the exception `s` produces; a supplier that returns null
      is refused instead. */
  lemma OrThrowRaisesSupplied<T>(e: Throwable)
    ensures Optional<T>.Absent.OrThrow(Ref(() => Return(Ref(e)))) == Throw(e)
    ensures Optional<T>.Absent.OrThrow(Ref(() => Return(Null)))
         == Throw(NullPointerException("exceptionSupplier cannot return null"))
  {
  }

  /** `expect(m)` raises NoSuchElementException("Expected " + m). */
  lemma ExpectRaises<T>(m: string)
    ensures Optional<T>.Absent.Expect(Ref(m)) == Throw(NoSuchElementException("Expected " + m))
  {
  }

  /** The message pinpoints the expectation: different messages give different exceptions. */
  lemma ExpectMessagesDistinct<T>(m1: string, m2: string)
    requires m1 != m2
    ensures Optional<T>.Absent.Expect(Ref(m1)) != Optional<T>.Absent.Expect(Ref(m2))
  {
    var e1, e2 := ExpectPrefix + m1, ExpectPrefix + m2;
    assert e1[|ExpectPrefix|..] == m1 && e2[|ExpectPrefix|..] == m2;
  }

  /** `map`, `flatMap` and `filter` give `absent()` for every function, even one that fails
      whenever it is called, so the function is never called; a null function is refused. */
  lemma TransformsStayAbsent<T, M>(f: Function<T, M>, g: Function<T, Optional<M>>, p: Predicate<T>)
    ensures Optional<T>.Absent.Map(Ref(f)) == Return(Absent)
    ensures Optional<T>.Absent.FlatMap(Ref(g)) == Return(Absent)
    ensures Optional<T>.Absent.Filter(Ref(p)) == Return(Absent)
    ensures Optional<T>.Absent.Map<M>(Ref((_: T) => Throw(Other("AssertionFailedError", "")))) == Return(Absent)
    ensures Optional<T>.Absent.Map<M>(Null) == Throw(NullPointerException("mapper cannot be null"))
    ensures Optional<T>.Absent.FlatMap<M>(Null) == Throw(NullPointerException("mapper cannot be null"))
    ensures Optional<T>.Absent.Filter(Null) == Throw(NullPointerException("predicate cannot be null"))
  {
  }
}
