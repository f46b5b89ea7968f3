/**
 * `CoveredTextExtractor`: the text of the document passed in, over the span of
 * the focus annotation, as a single feature without a name.
 */
module CoveredText {
  import opened Wrappers
  import opened Features

  /** `getFeatureName`: this extractor does not name its features. */
  function FeatureName(): (r: Option<string>)
    ensures r.None?
  {
    None
  }

  /**
   * `extract(jCas, focusAnnotation)`.  A document without text (`null`) gives a
   * feature without a value; a span that does not lie inside the text, which can
   * happen when the text comes from another view than the annotation, fails as
   * `String.substring` does.
   */
  function Extract(text: Option<string>, begin: int, end: int): (r: Result<seq<Feature>, SpanError>)
    ensures r.Failure? <==> text.Some? && !InText(text.value, begin, end)
    ensures r.Failure? ==> r.error == IndexOutOfBounds(begin, end, |text.value|)
    ensures r.Success? ==>
      && |r.value| == 1
      && r.value[0].name == FeatureName()
      && (text.None? <==> r.value[0].value.None?)
    ensures r.Success? && text.Some? ==>
      && r.value[0].value.Some? && r.value[0].value.value.Text?
      && |r.value[0].value.value.s| == end - begin
      && forall i :: 0 <= i < end - begin ==> r.value[0].value.value.s[i] == text.value[begin + i]
  {
    if text.None? then Success([Feature(FeatureName(), None)])
    else
      match Substring(text.value, begin, end)
      case Failure(e) => Failure(e)
      case Success(covered) => Success([Feature(FeatureName(), Some(Text(covered)))])
  }
}
