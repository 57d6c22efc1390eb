/** Layer descriptors: the entries of a web map's `operationalLayers` and
    `tables` lists, and the tests `replace_form` applies to them. */
module Descriptors {
  import opened Wrappers
  import opened Json

  /** One layer or table entry of a map document. Each of the three keys the
      script reads may be absent (`None`); a present key may still hold `null`.
      `others` holds every remaining key, which the script never reads or
      writes; it never holds `url`, `title` or `formInfo` themselves. */
  datatype Descriptor = Descriptor(
    url: Option<Json>,
    title: Option<Json>,
    formInfo: Option<Json>,
    others: map<string, Json>)

  /** `layer.get(key, None)`: the value of a key, `null` when the key is absent. */
  function Get(field: Option<Json>): Json
  {
    field.GetOr(JNull)
  }

  /** Two descriptors refer to the same layer when their `url` values are
      equal; two descriptors without a `url` are therefore the same layer. */
  predicate UrlMatches(s: Descriptor, d: Descriptor)
  {
    Get(d.url) == Get(s.url)
  }

  /** The optional exact-title filter: no filter, or the destination's `title`
      is exactly the given string. */
  predicate PassesFilter(layerName: Option<string>, d: Descriptor)
  {
    layerName.None? || JString(layerName.value) == Get(d.title)
  }

  /** Destination `d` is one the script considers for source `s`. */
  predicate Matches(s: Descriptor, d: Descriptor, layerName: Option<string>)
  {
    UrlMatches(s, d) && PassesFilter(layerName, d)
  }

  /** Source `s` carries a `formInfo` key and matches `d`: the script will
      either copy that form into `d` or stop. */
  predicate Targets(s: Descriptor, d: Descriptor, layerName: Option<string>)
  {
    s.formInfo.Some? && Matches(s, d, layerName)
  }

  /** The destination already has a form, in the sense of Python truthiness:
      an absent, `null` or empty form counts as no form. */
  predicate HasForm(d: Descriptor)
  {
    Truthy(Get(d.formInfo))
  }

  /** `a` and `b` agree on every key except `formInfo`. */
  predicate SameExceptForm(a: Descriptor, b: Descriptor)
  {
    a.url == b.url && a.title == b.title && a.others == b.others
  }
}
