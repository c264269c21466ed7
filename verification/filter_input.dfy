/** The raw value of a filter as it arrives from the request, and the few
    Ruby operations the filter code applies to it. */
module FilterInput {
  import opened Wrappers
  import opened Text

  /** One string, or an array of strings (a range filter sends three). */
  datatype FilterValue = Scalar(text: string) | List(items: seq<string>)

  /** The number of positions `value[i]` can read. */
  function Size(v: FilterValue): nat {
    match v
    case Scalar(s) => |s|
    case List(xs) => |xs|
  }

  /** Ruby's `value[i]`: the i-th element of an array, or the i-th character
      of a string as a one-character string; nil past the end. */
  function At(v: FilterValue, i: nat): (r: Option<string>)
    ensures r.Some? <==> i < Size(v)
    ensures v.Scalar? && r.Some? ==> r.value == [v.text[i]]
    ensures v.List? && r.Some? ==> r.value == v.items[i]
  {
    match v
    case Scalar(s) => if i < |s| then Some([s[i]]) else None
    case List(xs) => if i < |xs| then Some(xs[i]) else None
  }

  /** `Array.wrap(value).first`: a string is its own first element; an empty
      array has none. */
  function First(v: FilterValue): (r: Option<string>)
    ensures v.Scalar? ==> r == Some(v.text)
    ensures v.List? ==> (r.Some? <==> |v.items| > 0)
    ensures v.List? && r.Some? ==> r.value == v.items[0]
  {
    match v
    case Scalar(s) => Some(s)
    case List(xs) => if |xs| > 0 then Some(xs[0]) else None
  }

  /** `present?` of a string that may be nil. */
  predicate IsPresent(o: Option<string>) {
    o.Some? && !IsBlank(o.value)
  }

  /** `value[0]` and `Array.wrap(value).first` agree on a non-empty array but
      not on a string of two or more characters, where the first is one
      character and the second the whole string: a range filter sent as one
      string reads single characters as its bounds. */
  lemma AtZeroVersusFirst(xs: seq<string>, s: string)
    ensures |xs| > 0 ==> At(List(xs), 0) == First(List(xs))
    ensures |s| > 1 ==> At(Scalar(s), 0) != First(Scalar(s))
    ensures |s| > 0 ==> First(Scalar(s)) == Some(s) && At(Scalar(s), 0) == Some(s[..1])
  {
    if |s| > 1 {
      assert |At(Scalar(s), 0).value| == 1;
    }
    if |s| > 0 {
      assert [s[0]] == s[..1];
    }
  }
}
