/** Feature values shared by every extractor of the model. */
module Features {
  import opened Wrappers

  /** A feature value: a string, an integer or a boolean, as read from an annotation. */
  datatype Value = Text(s: string) | Number(n: int) | Flag(b: bool)

  /**
   * A plain `org.cleartk.ml.Feature`: an optional name and an optional value
   * (Java's `null` is `None`).
   */
  datatype Feature = Feature(name: Option<string>, value: Option<Value>)

  /** `String.substring` throws `StringIndexOutOfBoundsException` for a span outside the text. */
  datatype SpanError = IndexOutOfBounds(begin: int, end: int, length: nat)

  /** The span `[begin, end)` lies inside `text`. */
  predicate InText(text: string, begin: int, end: int) {
    0 <= begin <= end <= |text|
  }

  /** `text.substring(begin, end)`, which is how an annotation's covered text is read. */
  function Substring(text: string, begin: int, end: int): (r: Result<string, SpanError>)
    ensures r.Failure? <==> !InText(text, begin, end)
    ensures r.Failure? ==> r.error == IndexOutOfBounds(begin, end, |text|)
    ensures r.Success? ==>
      && |r.value| == end - begin
      && forall i :: 0 <= i < end - begin ==> r.value[i] == text[begin + i]
  {
    if InText(text, begin, end) then Success(text[begin..end])
    else Failure(IndexOutOfBounds(begin, end, |text|))
  }
}
