/**
 * How the request and record models of the backend read their fields: a field can be left
 * out, so that its declared default applies, or given, possibly as null; a declared numeric
 * bound is checked on a number and not on a null.
 */
module Fields {
  import opened Wrappers

  /** A field as the caller sent it. */
  datatype Supplied<T> = Omitted | Given(value: Option<T>)

  /** The value a field ends up with: its default when left out, what was given otherwise. */
  function Resolve<T>(f: Supplied<T>, fallback: T): (v: Option<T>)
    ensures f.Omitted? ==> v == Some(fallback)
    ensures f.Given? ==> v == f.value
  {
    match f
    case Omitted => Some(fallback)
    case Given(v) => v
  }

  /** The value given for a field, if any: for a required field, none is an error; for an
      optional field whose default is null, none is that default. */
  function GivenValue<T>(f: Supplied<T>): (v: Option<T>)
    ensures v.Some? <==> f.Given? && f.value.Some?
    ensures v.Some? ==> v.value == f.value.value
  {
    if f.Given? then f.value else None
  }

  /** A null passes a bound; a number must lie within it. */
  predicate IntWithin(v: Option<int>, lo: int, hi: Option<int>) {
    v.Some? ==> lo <= v.value && (hi.Some? ==> v.value <= hi.value)
  }

  predicate RealWithin(v: Option<real>, lo: real, hi: real) {
    v.Some? ==> lo <= v.value <= hi
  }
}
