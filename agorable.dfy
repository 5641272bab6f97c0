/**
 * `AgorableOption<T>`: an `Option` that can be published, displayed as
 * its value or as "None", and converted to and from `Option` freely.
 */
module Agorable {
  import opened Wrappers

  datatype AgorableOption<T> = AgorableOption(inner: Option<T>)

  /** `Display`: the value's own display, or "None"; `show` is `T`'s `Display`. */
  function Show<T>(o: AgorableOption<T>, show: T -> string): (r: string)
    ensures o.inner.None? ==> r == "None"
    ensures o.inner.Some? ==> r == show(o.inner.value)
  {
    match o.inner
    case Some(v) => show(v)
    case None => "None"
  }

  /** `From<Option<T>>`. */
  function FromOption<T>(opt: Option<T>): AgorableOption<T>
  {
    AgorableOption(opt)
  }

  /** `From<AgorableOption<T>> for Option<T>`. */
  function ToOption<T>(o: AgorableOption<T>): Option<T>
  {
    o.inner
  }

  /** `Option` -> `AgorableOption` -> `Option` is the identity. */
  lemma OptionRoundTrip<T>(opt: Option<T>)
    ensures ToOption(FromOption(opt)) == opt
  {
  }

  /** `AgorableOption` -> `Option` -> `AgorableOption` is the identity. */
  lemma AgorableRoundTrip<T>(o: AgorableOption<T>)
    ensures FromOption(ToOption(o)) == o
  {
  }

  /** Displaying a wrapped value shows the value, whatever it is. */
  lemma ShowSome<T>(v: T, show: T -> string)
    ensures Show(FromOption(Some(v)), show) == show(v)
  {
  }
}
