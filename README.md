# helios Optional, modelled in Dafny

helios is a Java library with one abstraction: `Optional<T>`, an option type. An optional is
either `Present`, holding a value that is never null, or `Absent`, holding nothing. In Java it
is a sealed interface with exactly two records. Each record implements the queries (`isPresent`,
`isAbsent`, the two `or` overloads, `orDefault`, `orGet`, `orNull`, `orThrow`, `expect`) and the
transformations (`map`, `flatMap`, `filter`), and each one defines `equals`, `hashCode` and
`toString`. The interface adds the static factories `present`, `absent`, `fromNullable` and `from`.

The model has five files, one module each:

- `java.dfy`, module `Java`: the parts of Java the library touches.
  - `Nullable<T>` is a reference that may be null.
  - `Throwable` is an exception: NullPointerException, NoSuchElementException, or any other
    exception a callback produces.
  - `Outcome<R>` is what a Java call does: it returns a value or raises an exception. It supports
    `:-`, so exceptions propagate as they do in Java.
  - `Supplier`, `Function` and `Predicate` are callbacks that may throw and, except for a
    predicate, may return null.
  - `RequireNonNull` models `Objects.requireNonNull`.
  - `int32` is Java's `int`. `JavaOptional` is `java.util.Optional`.
- `optional.dfy`, module `Helios`: the datatype `Optional<T> = Present(value: T) | Absent` and the
  static factories. Each member matches on the two cases. The `Present` arm is the body of the
  method in `Present.java` and the `Absent` arm is the body in `Absent.java`. Every null check
  happens first and carries the source's exact message.
- `present.dfy`, module `PresentFacts`: what the `Present` record does.
- `absent.dfy`, module `AbsentFacts`: what the `Absent` record does.
- `laws.dfy`, module `OptionalLaws`: laws over all optionals. These are the `fromNullable`/`orNull`
  bijection, the `or` laws, the lazy and eager fallbacks agreeing, the `map`/`flatMap`/`filter`
  laws, and the `equals`/`hashCode` contract.

Some Java values are not Dafny values, so they become parameters:

- A callback is a Dafny function value. "The supplier is never invoked" becomes "the result is
  the same for every supplier", including one that only throws.
- The value's own `equals` is a parameter `eq`.
- The value's `hashCode` is a parameter `hash`.
- The value's `toString` is a parameter `show`.
- The argument of `equals(Object)` is a `JavaObject<T>`: another optional, or an object of some
  other class.

Java overloads become separate names: `or(Optional)` is `Or` and `or(Supplier)` is `OrSupplier`.
The record constructor `new Present<>(value)` and the factory `present(value)` are one function,
`PresentOf`, because `present` only calls the constructor.

## Model

| member | source | states |
|---|---|---|
| `Helios.PresentOf` | helios/src/main/java/me/sparky983/helios/Present.java:18-26 | `present(null)` raises NullPointerException("value cannot be null"); a non-null value is wrapped as a present optional holding exactly that value |
| `Helios.AbsentOf` | helios/src/main/java/me/sparky983/helios/Optional.java:247-259 | `absent()` is absent and not present |
| `Helios.FromNullable` | helios/src/main/java/me/sparky983/helios/Optional.java:261-284 | the result is present exactly when the reference is non-null, and then it holds that reference's object; it never fails |
| `Helios.From` | helios/src/main/java/me/sparky983/helios/Optional.java:286-308 | `java.util.Optional.of(v)` becomes `Present(v)`, `empty()` becomes `Absent`, and a null reference raises NullPointerException |
| `Helios.Optional.Or` | helios/src/main/java/me/sparky983/helios/Optional.java:340-355 | a null fallback raises NullPointerException("other cannot be null") on both records; otherwise the result is present iff the receiver or the fallback is, and it is the receiver when present and the fallback when absent (Present.java:39-43, Absent.java:31-36) |
| `Helios.Optional.OrSupplier` | helios/src/main/java/me/sparky983/helios/Optional.java:357-376 | a null supplier raises "otherSupplier cannot be null"; a present receiver returns itself; an absent one propagates the supplier's exception, rejects its null with "otherSupplier cannot return null", and otherwise returns the supplied optional (Absent.java:38-46) |
| `Helios.Optional.OrDefault` | helios/src/main/java/me/sparky983/helios/Optional.java:378-393 | a null default raises "defaultValue cannot be null" even when present; otherwise the result is the value if present and the default if absent |
| `Helios.Optional.OrGet` | helios/src/main/java/me/sparky983/helios/Optional.java:395-412 | a null supplier raises "defaultValueSupplier cannot be null"; present gives the value; absent propagates the supplier's exception, rejects its null with "defaultValueSupplier cannot return null", and otherwise gives its value (Absent.java:55-63) |
| `Helios.Optional.OrNull` | helios/src/main/java/me/sparky983/helios/Optional.java:414-426 | the result is non-null exactly when present, and then it is the value |
| `Helios.Optional.OrThrow` | helios/src/main/java/me/sparky983/helios/Optional.java:428-447 | a null supplier raises "exceptionSupplier cannot be null"; present gives the value; absent always raises: the supplier's own exception, or "exceptionSupplier cannot return null", or exactly the exception it produced (Absent.java:70-78) |
| `Helios.Optional.Expect` | helios/src/main/java/me/sparky983/helios/Optional.java:449-468 | a null message raises "message cannot be null"; present gives the value; absent raises NoSuchElementException whose message is "Expected " followed by the given message (Absent.java:80-85) |
| `Helios.Optional.Map` | helios/src/main/java/me/sparky983/helios/Optional.java:470-488 | a null mapper raises "mapper cannot be null"; absent stays absent; present propagates the mapper's exception, rejects a null result with "mapper cannot return null", and otherwise wraps the result in `Present` (Present.java:85-93) |
| `Helios.Optional.FlatMap` | helios/src/main/java/me/sparky983/helios/Optional.java:490-512 | as `Map`, except that the mapper's optional is returned as it is, with no extra wrapping (Present.java:95-105) |
| `Helios.Optional.Filter` | helios/src/main/java/me/sparky983/helios/Optional.java:514-529 | a null predicate raises "predicate cannot be null"; absent stays absent; present propagates the predicate's exception, returns itself when the predicate holds, and returns absent when it does not (Present.java:107-116) |
| `Helios.Optional.HashCode` | helios/src/main/java/me/sparky983/helios/Optional.java:547-553 | the value's hash code when present, 0 when absent |
| `Helios.Optional.Equals` | helios/src/main/java/me/sparky983/helios/Optional.java:531-545 | never equal to null or to a non-optional; two presents are equal iff their values are; two absents are equal; present and absent are never equal |
| `Helios.Optional.ToString` | helios/src/main/java/me/sparky983/helios/Present.java:123-126 | "Absent()" when absent; when present, "Present(" then the value's string then ")" |
| `PresentFacts.ConstructorChecksNull` | helios/src/main/java/me/sparky983/helios/Present.java:18-26 | the record constructor rejects null with "value cannot be null" and stores any other value unchanged |
| `PresentFacts.Queries` | helios/src/main/java/me/sparky983/helios/Present.java:28-36 | a present optional is present and not absent |
| `PresentFacts.OrKeepsReceiver` | helios/src/main/java/me/sparky983/helios/Present.java:38-50 | both `or` overloads return the receiver; for every pair of suppliers the result is the same, even for a supplier that only throws |
| `PresentFacts.NullFallbacksRejected` | helios/src/main/java/me/sparky983/helios/Present.java:38-83 | a null argument fails with that method's own message even though a present optional would not use it |
| `PresentFacts.ValueWins` | helios/src/main/java/me/sparky983/helios/Present.java:52-83 | `orDefault`, `orGet`, `orThrow` and `expect` return the value whatever their non-null argument is |
| `PresentFacts.OrNullRoundTrip` | helios/src/main/java/me/sparky983/helios/Present.java:65-69 | `orNull` gives the value, and `fromNullable` turns it back into the same optional |
| `PresentFacts.FlatMapOfPresentIsMap` | helios/src/main/java/me/sparky983/helios/Present.java:85-105 | flat-mapping `x -> present(g(x))` equals mapping `g` whenever `g(value)` is not null |
| `PresentFacts.FlatMapOfPresentWhenNull` | helios/src/main/java/me/sparky983/helios/Present.java:85-105 | when `g(value)` is null, both fail, with "value cannot be null" and "mapper cannot return null" respectively, so the results differ |
| `PresentFacts.FilterIdempotent` | helios/src/main/java/me/sparky983/helios/Present.java:107-116 | `filter` returns the receiver or absent, and filtering twice with the same predicate is filtering once |
| `PresentFacts.HashIsValueHash` | helios/src/main/java/me/sparky983/helios/Present.java:118-121 | the hash code is the value's hash code |
| `AbsentFacts.Queries` | helios/src/main/java/me/sparky983/helios/Absent.java:20-28 | an absent optional is not present and is absent |
| `AbsentFacts.AllAbsentAreOne` | helios/src/main/java/me/sparky983/helios/Optional.java:247-259 | any two absent optionals are identical to `absent()`, are `equals` for every value equality, and hash to 0 |
| `AbsentFacts.OrReturnsOther` | helios/src/main/java/me/sparky983/helios/Absent.java:30-36 | `or(other)` returns `other`; null is refused with "other cannot be null" |
| `AbsentFacts.OrSupplierCallsSupplier` | helios/src/main/java/me/sparky983/helios/Absent.java:38-46 | `or(supplier)` returns the supplied optional; a null result is refused with "otherSupplier cannot return null" |
| `AbsentFacts.FallbackValue` | helios/src/main/java/me/sparky983/helios/Absent.java:48-63 | `orDefault(d)` is `d` and `orGet` gives the supplied value; a null default or null supplied value is refused with its message |
| `AbsentFacts.OrNullRoundTrip` | helios/src/main/java/me/sparky983/helios/Absent.java:65-68 | `orNull` is null and `fromNullable` turns it back into `absent()` |
| `AbsentFacts.OrThrowRaisesSupplied` | helios/src/main/java/me/sparky983/helios/Absent.java:70-78 | `orThrow` raises exactly the supplied exception; a null one is refused with "exceptionSupplier cannot return null" |
| `AbsentFacts.ExpectRaises` | helios/src/main/java/me/sparky983/helios/Absent.java:80-85 | `expect(m)` raises NoSuchElementException("Expected " + m) |
| `AbsentFacts.ExpectMessagesDistinct` | helios/src/main/java/me/sparky983/helios/Absent.java:80-85 | different messages give different exceptions, so the message identifies the expectation |
| `AbsentFacts.TransformsStayAbsent` | helios/src/main/java/me/sparky983/helios/Absent.java:87-107 | `map`, `flatMap` and `filter` return absent for every function, including one that only throws; a null function is refused with "mapper cannot be null" or "predicate cannot be null" |
| `OptionalLaws.PresenceExclusive` | helios/src/main/java/me/sparky983/helios/Optional.java:310-338 | `isPresent` and `isAbsent` are mutually exclusive and exhaustive |
| `OptionalLaws.FromNullableCases` | src/test/java/me/sparky983/helios/OptionalTests.java:43-51 | `fromNullable(null)` is `absent()` and `fromNullable(v)` is `present(v)` |
| `OptionalLaws.FromNullableOfOrNull` | helios/src/main/java/me/sparky983/helios/Optional.java:120-129 | `fromNullable(o.orNull())` is `o` for every optional |
| `OptionalLaws.OrNullOfFromNullable` | helios/src/main/java/me/sparky983/helios/Optional.java:120-129 | `fromNullable(r).orNull()` is `r` for every reference, null included |
| `OptionalLaws.FromNullableInjective` | helios/src/main/java/me/sparky983/helios/Optional.java:261-284 | different references give different optionals |
| `OptionalLaws.FromNullableOnto` | helios/src/main/java/me/sparky983/helios/Optional.java:261-284 | every optional is `fromNullable` of some reference |
| `OptionalLaws.FromOnto` | helios/src/main/java/me/sparky983/helios/Optional.java:286-308 | every optional is `from` of some `java.util.Optional` |
| `OptionalLaws.FromAgreesWithFromNullable` | helios/src/main/java/me/sparky983/helios/Optional.java:286-308 | `from(java.util.Optional.ofNullable(r))` is `fromNullable(r)` |
| `OptionalLaws.FromCases` | src/test/java/me/sparky983/helios/OptionalTests.java:53-61 | `from(empty())` is `absent()`, `from(of(v))` is `present(v)`, and `from(null)` fails |
| `OptionalLaws.OrTable` | helios/src/main/java/me/sparky983/helios/Optional.java:49-72 | the four rows of the interface's `or` table |
| `OptionalLaws.OrIdentity` | helios/src/main/java/me/sparky983/helios/Optional.java:340-355 | `absent()` is a left and right identity of `or`, and `o.or(o)` is `o` |
| `OptionalLaws.OrAssociative` | helios/src/main/java/me/sparky983/helios/Optional.java:340-355 | `a.or(b).or(c)` equals `a.or(b.or(c))` |
| `OptionalLaws.LazyAgreesWithEager` | helios/src/main/java/me/sparky983/helios/Optional.java:357-412 | `or(() -> x)` equals `or(x)`, and `orGet(() -> d)` equals `orDefault(d)`, for every optional |
| `OptionalLaws.OrDefaultIsOrNullWithDefault` | helios/src/main/java/me/sparky983/helios/Optional.java:73-84 | `orDefault(d)` is `orNull()` with null replaced by `d` |
| `OptionalLaws.OrDefaultExamples` | helios/src/main/java/me/sparky983/helios/Optional.java:378-412 | `present(5).orDefault(10)` is 5, `absent().orDefault(10)` is 10, and the same holds for `orGet(() -> 10)` |
| `OptionalLaws.ExpectIsOrThrow` | helios/src/main/java/me/sparky983/helios/Optional.java:428-468 | `expect(m)` equals `orThrow(() -> new NoSuchElementException("Expected " + m))` for every optional |
| `OptionalLaws.MapExamples` | helios/src/main/java/me/sparky983/helios/Optional.java:90-96 | `present(5).map(n -> n * 2)` is `present(10)`; the absent case stays absent |
| `OptionalLaws.FlatMapExamples` | helios/src/main/java/me/sparky983/helios/Optional.java:97-108 | the four `flatMap` snippets: present with a present-returning mapper gives `present(10)`; the other three are absent |
| `OptionalLaws.FilterExamples` | helios/src/main/java/me/sparky983/helios/Optional.java:514-529 | `present(5)` passes `n % 2 == 1` and is dropped by `n % 2 == 0` |
| `OptionalLaws.MapIdentity` | helios/src/main/java/me/sparky983/helios/Optional.java:470-488 | mapping by the identity is the identity, and a pure mapper keeps present as present and absent as absent |
| `OptionalLaws.MapComposition` | helios/src/main/java/me/sparky983/helios/Optional.java:470-488 | `o.map(f).map(g)` equals `o.map(x -> g(f(x)))` for pure `f` and `g` |
| `OptionalLaws.FlatMapOfPresentIsMap` | helios/src/main/java/me/sparky983/helios/Optional.java:490-512 | `flatMap(x -> present(g(x)))` equals `map(g)` for every optional when `g` never returns null; `g` may throw |
| `OptionalLaws.FlatMapOfPresentDiffersFromMap` | helios/src/main/java/me/sparky983/helios/Present.java:85-105 | some mapper makes `flatMap(x -> present(g(x)))` and `map(g)` differ, so the proviso of the law above is needed |
| `OptionalLaws.FlatMapPresentIdentity` | helios/src/main/java/me/sparky983/helios/Optional.java:490-512 | `flatMap(Optional::present)` is the identity |
| `OptionalLaws.FilterKeepsOrDrops` | helios/src/main/java/me/sparky983/helios/Optional.java:514-529 | `filter` returns the receiver or `absent()`, nothing else |
| `OptionalLaws.FilterIdempotent` | helios/src/main/java/me/sparky983/helios/Optional.java:514-529 | `filter(p).filter(p)` equals `filter(p)` for every optional, even when `p` throws |
| `OptionalLaws.FilterAnd` | helios/src/main/java/me/sparky983/helios/Optional.java:514-529 | `filter(p).filter(q)` equals `filter(p.and(q))` |
| `OptionalLaws.EqualsIsEquality` | helios/src/main/java/me/sparky983/helios/Optional.java:531-545 | when the values' `equals` is equality, two optionals are `equals` iff they are the same optional; present never equals absent; nothing equals null |
| `OptionalLaws.EqualsIsEquivalence` | helios/src/main/java/me/sparky983/helios/Optional.java:531-545 | `equals` is reflexive, symmetric and transitive whenever the values' `equals` is |
| `OptionalLaws.HashConsistentWithEquals` | helios/src/main/java/me/sparky983/helios/Optional.java:547-553 | equal optionals have equal hash codes whenever the values' hash codes agree with their `equals` |
| `OptionalLaws.ToStringDistinguishes` | helios/src/main/java/me/sparky983/helios/Absent.java:114-117 | a present optional's text is never "Absent()" |

## Left out

- The singleton `Absent.ABSENT` and object identity are not modelled (Absent.java:18). Only value equality is observable. `AbsentFacts.AllAbsentAreOne` shows that every absent optional is the same value.
- Generic variance and the unchecked casts in `or` and `flatMap` are not modelled. They have no effect at run time. As a result, `Helios.Optional.Equals` only compares optionals of the same type parameter. Comparing, say, `Present<Integer>` with `Present<String>` cannot be expressed.
- `Helios.Optional.Equals`: the identity shortcuts of the generated record `equals` and of `Objects.equals` (`this == obj`, `a == b`) are not modelled. The model agrees with them whenever the value's `equals` is reflexive.
- `Helios.From`: the NullPointerException for a null `java.util.Optional` comes from the JVM, not from helios. Its message is the JDK's "helpful" text and depends on how the class was compiled. The contract states only that it is a NullPointerException.
- Callbacks are pure, terminating Dafny functions. Side effects, non-termination and non-determinism of Java lambdas are not modelled. "Invoked at most once" shows up only as "the result does not depend on a function that is not invoked".
- Exception objects are compared by value. Java compares them by identity. The checked/unchecked distinction of `orThrow`'s type parameter `E` is not modelled.
- `OptionalLaws.MapComposition`: stated only for mappers that neither throw nor return null. When `f` returns null, Java's `x -> g(f(x))` passes null into `g`, and a Dafny mapper cannot receive null.
- `OptionalLaws.FlatMapOfPresentIsMap`: requires that `g` never returns null. When it does, the two sides fail with different messages. `PresentFacts.FlatMapOfPresentWhenNull` and `OptionalLaws.FlatMapOfPresentDiffersFromMap` prove that this proviso is needed.
- `isPresent` and `isAbsent` are the predicates `IsPresent` and `IsAbsent`, which have no contract of their own. Their property is `OptionalLaws.PresenceExclusive`, together with the `Queries` lemmas of the two records.
- The earlier revision under src/main/java/me/sparky983/helios/optional/ is not part of this model, and neither is its test. The helios/ module supersedes it.
- `package-info.java`, both `module-info.java` files and the `Experimental`/`Nullable` annotations are not part of this model. They carry no behaviour.
- The `hashCode` and `toString` of the wrapped value belong to the value's own class. They are parameters `hash` and `show`.
