/** The parts of the Java platform the option type touches: nullable references,
    exceptions, the callback interfaces of java.util.function, Objects.requireNonNull,
    32-bit hash codes and java.util.Optional. */
module Java {

  /** A Java reference of static type T: either null or a non-null object. */
  datatype Nullable<T> = Null | Ref(get: T)

  /** Java's `int`, the type of `hashCode`. */
  newtype int32 = x: int | -0x8000_0000 <= x < 0x8000_0000

  /** The exceptions a call can raise. `Other` is any exception a callback constructs or throws
      itself; it is identified by its class name and message. */
  datatype Throwable =
    | NullPointerException(message: string)
    | NoSuchElementException(message: string)
    | Other(className: string, message: string)

  /** What a Java call does: it returns a value or raises an exception. `:-` on an `Outcome`
      propagates the exception, as a Java call that does not catch it does. */
  datatype Outcome<R> = Return(value: R) | Throw(exception: Throwable) {

    predicate IsFailure() {
      Throw?
    }

    function PropagateFailure<U>(): Outcome<U>
      requires Throw?
    {
      Throw(exception)
    }

    function Extract(): R
      requires Return?
    {
      value
    }

    /** The next call of a chain `a.f().g()`: `k` runs on the returned value; an exception
        raised by the first call propagates and `k` does not run. */
    function AndThen<U>(k: R -> Outcome<U>): (r: Outcome<U>)
      ensures Throw? ==> r == Throw(exception)
      ensures Return? ==> r == k(value)
    {
      match this
      case Return(v) => k(v)
      case Throw(e) => Throw(e)
    }
  }

  /** `Supplier<R>.get()`: may throw, may return null. */
  type Supplier<R> = () -> Outcome<Nullable<R>>

  /** `Function<A, R>.apply(a)`: may throw, may return null. */
  type Function<-A, R> = A -> Outcome<Nullable<R>>

  /** `Predicate<A>.test(a)`: returns a primitive boolean, so never null, but may throw. */
  type Predicate<-A> = A -> Outcome<bool>

  /** A Java lambda `x -> f(x)` that neither throws nor returns null. */
  function Pure<A, B>(f: A -> B): Function<A, B> {
    x => Return(Ref(f(x)))
  }

  /** `p.and(q)`: `p` first; `q` only when `p` holds. */
  function And<A>(p: Predicate<A>, q: Predicate<A>): Predicate<A> {
    x => var first :- p(x); if first then q(x) else Return(false)
  }

  /** `Objects.requireNonNull(x, message)`: returns `x` when it is not null and otherwise
      raises a NullPointerException carrying `message`. */
  function RequireNonNull<X>(x: Nullable<X>, message: string): (r: Outcome<X>)
    ensures r.Return? <==> x.Ref?
    ensures r.Return? ==> r.value == x.get
    ensures r.Throw? ==> r.exception == NullPointerException(message)
  {
    match x
    case Null => Throw(NullPointerException(message))
    case Ref(v) => Return(v)
  }

  /** `java.util.Optional<T>`: `of(value)` (never null) or `empty()`. */
  datatype JavaOptional<T> = Of(get: T) | Empty {

    /** `map(f)` for a mapper that never returns null and never throws. */
    function Map<U>(f: T -> U): (r: JavaOptional<U>)
      ensures r.Of? <==> Of?
      ensures r.Of? ==> r.get == f(get)
    {
      match this
      case Of(v) => Of(f(v))
      case Empty => Empty
    }

    /** `orElse(other)` for a non-null `other`. */
    function OrElse(other: T): (r: T)
      ensures Of? ==> r == get
      ensures Empty? ==> r == other
    {
      match this
      case Of(v) => v
      case Empty => other
    }
  }

  /** `java.util.Optional.ofNullable(value)`. */
  function OfNullable<T>(value: Nullable<T>): (r: JavaOptional<T>)
    ensures r.Of? <==> value.Ref?
    ensures r.Of? ==> r.get == value.get
  {
    match value
    case Null => Empty
    case Ref(v) => Of(v)
  }
}
