/** The helios option type: an immutable container that is either `Present`, holding a
    non-null value, or `Absent`. The sealed Java interface with its two record classes becomes
    one datatype; each member's two match arms are the bodies of the two records' methods. */
module Helios {
  import opened Java

  /** `Optional<T>`: exactly one of the two records. A Dafny value is never null, so the
      `Present` invariant "the value is not null" holds by construction; the null check of the
      record's constructor is `PresentOf`. */
  datatype Optional<T> = Present(value: T) | Absent {

    /** `isPresent()`: true for `Present`, false for `Absent`. */
    predicate IsPresent() {
      match this
      case Present(_) => true
      case Absent => false
    }

    /** `isAbsent()`: false for `Present`, true for `Absent`. */
    predicate IsAbsent() {
      match this
      case Present(_) => false
      case Absent => true
    }

    /** `or(Optional other)`: this optional if present, otherwise `other`; a null `other` is
        rejected whatever this optional is. */
    function Or(other: Nullable<Optional<T>>): (r: Outcome<Optional<T>>)
      ensures other.Null? ==> r == Throw(NullPointerException("other cannot be null"))
      ensures other.Ref? ==> r.Return?
      ensures r.Return? ==> (r.value.IsPresent() <==> IsPresent() || other.get.IsPresent())
      ensures r.Return? && IsPresent() ==> r.value == this
      ensures r.Return? && IsAbsent() ==> r.value == other.get
    {
      var o :- RequireNonNull(other, "other cannot be null");
      match this
      case Present(_) => Return(this)
      case Absent => Return(o)
    }

    /** `or(Supplier otherSupplier)`: this optional if present, without calling the supplier;
        otherwise what the supplier produces, which must not be null. */
    function OrSupplier(otherSupplier: Nullable<Supplier<Optional<T>>>): (r: Outcome<Optional<T>>)
      ensures otherSupplier.Null? ==> r == Throw(NullPointerException("otherSupplier cannot be null"))
      ensures otherSupplier.Ref? && IsPresent() ==> r == Return(this)
      ensures otherSupplier.Ref? && IsAbsent() ==>
        var produced := otherSupplier.get();
        && (produced.Throw? ==> r == Throw(produced.exception))
        && (produced == Return(Null) ==> r == Throw(NullPointerException("otherSupplier cannot return null")))
        && (produced.Return? && produced.value.Ref? ==> r == Return(produced.value.get))
    {
      var supplier :- RequireNonNull(otherSupplier, "otherSupplier cannot be null");
      match this
      case Present(_) => Return(this)
      case Absent =>
        var produced :- supplier();
        var other :- RequireNonNull(produced, "otherSupplier cannot return null");
        Or(Ref(other))
    }

    /** `orDefault(defaultValue)`: the wrapped value if present, otherwise the default; a null
        default is rejected in both cases, so the result is never null. */
    function OrDefault(defaultValue: Nullable<T>): (r: Outcome<T>)
      ensures defaultValue.Null? ==> r == Throw(NullPointerException("defaultValue cannot be null"))
      ensures defaultValue.Ref? && Present? ==> r == Return(value)
      ensures defaultValue.Ref? && Absent? ==> r == Return(defaultValue.get)
    {
      var fallback :- RequireNonNull(defaultValue, "defaultValue cannot be null");
      match this
      case Present(v) => Return(v)
      case Absent => Return(fallback)
    }

    /** `orGet(defaultValueSupplier)`: the wrapped value if present, without calling the
        supplier; otherwise the supplier's value, which must not be null. */
    function OrGet(defaultValueSupplier: Nullable<Supplier<T>>): (r: Outcome<T>)
      ensures defaultValueSupplier.Null? ==>
        r == Throw(NullPointerException("defaultValueSupplier cannot be null"))
      ensures defaultValueSupplier.Ref? && Present? ==> r == Return(value)
      ensures defaultValueSupplier.Ref? && Absent? ==>
        var produced := defaultValueSupplier.get();
        && (produced.Throw? ==> r == Throw(produced.exception))
        && (produced == Return(Null) ==>
              r == Throw(NullPointerException("defaultValueSupplier cannot return null")))
        && (produced.Return? && produced.value.Ref? ==> r == Return(produced.value.get))
    {
      var supplier :- RequireNonNull(defaultValueSupplier, "defaultValueSupplier cannot be null");
      match this
      case Present(v) => Return(v)
      case Absent =>
        var produced :- supplier();
        var fallback :- RequireNonNull(produced, "defaultValueSupplier cannot return null");
        Return(fallback)
    }

    /** `orNull()`: the wrapped value if present, otherwise null. Never fails. */
    function OrNull(): (r: Nullable<T>)
      ensures r.Ref? <==> IsPresent()
      ensures r.Ref? ==> Present? && r.get == value
    {
      match this
      case Present(v) => Ref(v)
      case Absent => Null
    }

    /** `orThrow(exceptionSupplier)`: the wrapped value if present, without calling the
        supplier; otherwise the exception the supplier produces is raised. */
    function OrThrow(exceptionSupplier: Nullable<Supplier<Throwable>>): (r: Outcome<T>)
      ensures exceptionSupplier.Null? ==>
        r == Throw(NullPointerException("exceptionSupplier cannot be null"))
      ensures exceptionSupplier.Ref? && Present? ==> r == Return(value)
      ensures exceptionSupplier.Ref? && Absent? ==>
        var produced := exceptionSupplier.get();
        && r.Throw?
        && (produced.Throw? ==> r.exception == produced.exception)
        && (produced == Return(Null) ==>
              r.exception == NullPointerException("exceptionSupplier cannot return null"))
        && (produced.Return? && produced.value.Ref? ==> r.exception == produced.value.get)
    {
      var supplier :- RequireNonNull(exceptionSupplier, "exceptionSupplier cannot be null");
      match this
      case Present(v) => Return(v)
      case Absent =>
        var produced :- supplier();
        var exception :- RequireNonNull(produced, "exceptionSupplier cannot return null");
        Throw(exception)
    }

    /** `expect(message)`: the wrapped value if present; otherwise a NoSuchElementException
        whose message is "Expected " followed by `message`. A null message is rejected first. */
    function Expect(message: Nullable<string>): (r: Outcome<T>)
      ensures message.Null? ==> r == Throw(NullPointerException("message cannot be null"))
      ensures message.Ref? && Present? ==> r == Return(value)
      ensures message.Ref? && Absent? ==>
        && r.Throw? && r.exception.NoSuchElementException?
        && |r.exception.message| == |ExpectPrefix| + |message.get|
        && r.exception.message[..|ExpectPrefix|] == ExpectPrefix
        && r.exception.message[|ExpectPrefix|..] == message.get
    {
      var m :- RequireNonNull(message, "message cannot be null");
      match this
      case Present(v) => Return(v)
      case Absent => Throw(NoSuchElementException(ExpectPrefix + m))
    }

    /** `map(mapper)`: if present, the mapper's value wrapped in `Present`; the mapper must not
        return null. If absent, `Absent` without calling the mapper. */
    function Map<M>(mapper: Nullable<Function<T, M>>): (r: Outcome<Optional<M>>)
      ensures mapper.Null? ==> r == Throw(NullPointerException("mapper cannot be null"))
      ensures mapper.Ref? && Absent? ==> r == Return(Absent)
      ensures mapper.Ref? && Present? ==>
        var mapped := mapper.get(value);
        && (mapped.Throw? ==> r == Throw(mapped.exception))
        && (mapped == Return(Null) ==> r == Throw(NullPointerException("mapper cannot return null")))
        && (mapped.Return? && mapped.value.Ref? ==> r == Return(Present(mapped.value.get)))
    {
      var f :- RequireNonNull(mapper, "mapper cannot be null");
      match this
      case Present(v) =>
        var applied :- f(v);
        var mappedValue :- RequireNonNull(applied, "mapper cannot return null");
        PresentOf(Ref(mappedValue))
      case Absent => Return(Absent)
    }

    /** `flatMap(mapper)`: if present, the optional the mapper returns, as it is, which must not
        be null. If absent, `Absent` without calling the mapper. */
    function FlatMap<M>(mapper: Nullable<Function<T, Optional<M>>>): (r: Outcome<Optional<M>>)
      ensures mapper.Null? ==> r == Throw(NullPointerException("mapper cannot be null"))
      ensures mapper.Ref? && Absent? ==> r == Return(Absent)
      ensures mapper.Ref? && Present? ==>
        var mapped := mapper.get(value);
        && (mapped.Throw? ==> r == Throw(mapped.exception))
        && (mapped == Return(Null) ==> r == Throw(NullPointerException("mapper cannot return null")))
        && (mapped.Return? && mapped.value.Ref? ==> r == Return(mapped.value.get))
    {
      var f :- RequireNonNull(mapper, "mapper cannot be null");
      match this
      case Present(v) =>
        var applied :- f(v);
        var mappedValue :- RequireNonNull(applied, "mapper cannot return null");
        Return(mappedValue)
      case Absent => Return(Absent)
    }

    /** `filter(predicate)`: this optional if it is present and its value passes the predicate,
        otherwise `Absent`; the predicate is not called when absent. */
    function Filter(pred: Nullable<Predicate<T>>): (r: Outcome<Optional<T>>)
      ensures pred.Null? ==> r == Throw(NullPointerException("predicate cannot be null"))
      ensures pred.Ref? && Absent? ==> r == Return(Absent)
      ensures pred.Ref? && Present? ==>
        var tested := pred.get(value);
        && (tested.Throw? ==> r == Throw(tested.exception))
        && (tested == Return(true) ==> r == Return(this))
        && (tested == Return(false) ==> r == Return(Absent))
    {
      var p :- RequireNonNull(pred, "predicate cannot be null");
      match this
      case Present(v) =>
        var matches :- p(v);
        if matches then Return(this) else Return(Absent)
      case Absent => Return(Absent)
    }

    /** `hashCode()`: the value's hash code (`hash` models the value's own `hashCode`) when
        present, 0 when absent. */
    function HashCode(hash: T -> int32): (h: int32)
      ensures Present? ==> h == hash(value)
      ensures Absent? ==> h == 0
    {
      match this
      case Present(v) => hash(v)
      case Absent => 0
    }

    /** `equals(obj)`, the equality the records generate: `obj` must be an optional of the same
        record class whose component is equal, by the value's own `equals` (modelled by `eq`). */
    function Equals(obj: Nullable<JavaObject<T>>, eq: (T, T) -> bool): (b: bool)
      ensures obj.Null? || obj.get.OtherObject? ==> !b
      ensures obj.Ref? && obj.get.OptionalObject? ==>
        var that := obj.get.optional;
        && (Present? && that.Present? ==> (b <==> eq(value, that.value)))
        && (Absent? && that.Absent? ==> b)
        && (Present? != that.Present? ==> !b)
    {
      match obj
      case Null => false
      case Ref(OtherObject(_)) => false
      case Ref(OptionalObject(that)) =>
        match (this, that)
        case (Present(v), Present(w)) => eq(v, w)
        case (Absent, Absent) => true
        case _ => false
    }

    /** `toString()`: "Present(" + the value's string + ")", or "Absent()"; `show` models the
        value's own `toString`. */
    function ToString(show: T -> string): (s: string)
      ensures Absent? ==> s == "Absent()"
      ensures Present? ==>
        && |s| == |"Present("| + |show(value)| + 1
        && s[..|"Present("|] == "Present(" && s[|s| - 1] == ')'
        && s[|"Present("|..|s| - 1] == show(value)
    {
      match this
      case Present(v) => "Present(" + show(v) + ")"
      case Absent => "Absent()"
    }
  }

  /** The argument of `equals(Object)`: another optional, or an object of some other class. */
  datatype JavaObject<T> = OptionalObject(optional: Optional<T>) | OtherObject(className: string)

  /** The text `expect` puts in front of its message. */
  const ExpectPrefix: string := "Expected "

  /** `present(value)`, which is `new Present<>(value)`: the record's constructor rejects a
      null value. */
  function PresentOf<T>(value: Nullable<T>): (r: Outcome<Optional<T>>)
    ensures value.Null? ==> r == Throw(NullPointerException("value cannot be null"))
    ensures value.Ref? ==> r.Return? && r.value.IsPresent() && r.value.value == value.get
  {
    var v :- RequireNonNull(value, "value cannot be null");
    Return(Present(v))
  }

  /** `x -> Optional.present(g(x))`: the lambda a caller writes to use `flatMap` where `map(g)`
      would do. It raises what `g` raises, and `present` rejects a null from `g`. */
  function PresentAfter<A, B>(g: Function<A, B>): Function<A, Optional<B>> {
    x => var mapped :- g(x); var wrapped :- PresentOf(mapped); Return(Ref(wrapped))
  }

  /** `absent()`: the absent optional. */
  function AbsentOf<T>(): (r: Optional<T>)
    ensures r.IsAbsent() && !r.IsPresent()
  {
    Absent
  }

  /** `fromNullable(value)`: `Present` of a non-null value, `Absent` for null. Never fails. */
  function FromNullable<T>(value: Nullable<T>): (r: Optional<T>)
    ensures r.IsPresent() <==> value.Ref?
    ensures r.IsPresent() ==> r.value == value.get
  {
    if value.Ref? then
      match PresentOf(value)
      case Return(o) => o
      case Throw(_) => AbsentOf()
    else
      AbsentOf()
  }

  /** The message of the NullPointerException the JVM raises when `from` calls `map` on a null
      `java.util.Optional`. */
  const NullOptionalMessage: string :=
    "Cannot invoke \"java.util.Optional.map(java.util.function.Function)\" because \"optional\" is null"

  /** `from(optional)`, which is `optional.map(Optional::present).orElse(Optional.absent())`:
      `Present` of the value of a present `java.util.Optional`, `Absent` for an empty one; a null
      reference raises a NullPointerException. */
  function From<T>(optional: Nullable<JavaOptional<T>>): (r: Outcome<Optional<T>>)
    ensures optional.Null? ==> r.Throw? && r.exception.NullPointerException?
    ensures optional.Ref? ==> r.Return?
    ensures optional.Ref? && optional.get.Of? ==> r.value == Present(optional.get.get)
    ensures optional.Ref? && optional.get.Empty? ==> r.value == Absent
  {
    var j :- RequireNonNull(optional, NullOptionalMessage);
    // `Optional::present` is applied to the non-null value of a present java.util.Optional,
    // so its null check cannot fail there: it is the `Present` constructor.
    Return(j.Map(v => Present(v)).OrElse(AbsentOf()))
  }
}
