/**
 * `RelativePositionExtractor`: one feature naming how the span of a first
 * annotation lies relative to the span of a second, decided from the four
 * begin/end offsets alone.
 */
module RelativePosition {
  import opened Wrappers
  import opened Features

  /** A half-open span `[begin, end)` of document offsets. */
  datatype Span = Span(begin: int, end: int)

  predicate Proper(s: Span) {
    s.begin <= s.end
  }

  /** A span that covers at least one character. */
  predicate NonEmpty(s: Span) {
    s.begin < s.end
  }

  datatype Position = Equals | Contains | ContainedBy | OverlapsLeft | OverlapsRight | LeftOf | RightOf

  /** The feature value the extractor emits for each position. */
  function Name(p: Position): string {
    match p
    case Equals => "EQUALS"
    case Contains => "CONTAINS"
    case ContainedBy => "CONTAINEDBY"
    case OverlapsLeft => "OVERLAPS_LEFT"
    case OverlapsRight => "OVERLAPS_RIGHT"
    case LeftOf => "LEFTOF"
    case RightOf => "RIGHTOF"
  }

  /** `s` includes every offset of `t`. */
  predicate Includes(s: Span, t: Span) {
    s.begin <= t.begin && t.end <= s.end
  }

  /**
   * The position of `a` relative to `b`.  Equality and containment are decided
   * first, so touching and empty spans that also contain one another are
   * classified by containment.
   */
  function Classify(a: Span, b: Span): (r: Position)
    ensures r == Equals <==> a == b
    ensures r == Contains ==> Includes(a, b) && a != b
    ensures r == ContainedBy ==> Includes(b, a) && a != b
    ensures r == LeftOf ==> a.end <= b.begin
    ensures r == RightOf ==> b.end <= a.begin
    ensures r == OverlapsLeft ==> a.begin < b.begin < a.end < b.end
    ensures r == OverlapsRight ==> b.begin < a.begin < b.end < a.end
  {
    if a == b then Equals
    else if Includes(a, b) then Contains
    else if Includes(b, a) then ContainedBy
    else if a.end <= b.begin then LeftOf
    else if b.end <= a.begin then RightOf
    else if a.begin < b.begin then OverlapsLeft
    else OverlapsRight
  }

  /** The position of `b` relative to `a` when `a` has position `p` relative to `b`. */
  function Converse(p: Position): Position {
    match p
    case Equals => Equals
    case Contains => ContainedBy
    case ContainedBy => Contains
    case OverlapsLeft => OverlapsRight
    case OverlapsRight => OverlapsLeft
    case LeftOf => RightOf
    case RightOf => LeftOf
  }

  /** The name of the feature the extractor emits. */
  const FeatureName := "RelativePosition"

  /** `extract(jCas, annotation1, annotation2)`: exactly one named feature; a fresh extractor gives the same. */
  function Extract(a: Span, b: Span): (r: seq<Feature>)
    ensures |r| == 1
    ensures r[0].name == Some(FeatureName)
    ensures r[0].value == Some(Text(Name(Classify(a, b))))
  {
    [Feature(Some(FeatureName), Some(Text(Name(Classify(a, b)))))]
  }

  // ---------------------------------------------------------------------------
  // Properties

  /** Swapping twice gives the position back. */
  lemma ConverseInvolution(p: Position)
    ensures Converse(Converse(p)) == p
  {
  }

  /** Distinct positions are emitted as distinct strings, so the feature value determines the position. */
  lemma NameInjective(p: Position, q: Position)
    requires Name(p) == Name(q)
    ensures p == q
  {
  }

  /**
   * Swapping the two spans gives the converse position: OVERLAPS_LEFT and
   * OVERLAPS_RIGHT, LEFTOF and RIGHTOF, CONTAINS and CONTAINEDBY trade places and
   * EQUALS stays.
   */
  lemma SwapGivesConverse(a: Span, b: Span)
    requires Proper(a) && Proper(b)
    ensures Classify(b, a) == Converse(Classify(a, b))
  {
    if a != b && !Includes(a, b) && !Includes(b, a) && a.end <= b.begin {
      assert !(b.end <= a.begin);
    }
  }

  /**
   * For spans that cover some text each, every position is one condition on the
   * offsets; touching spans count as LEFTOF or RIGHTOF.
   */
  lemma Characterization(a: Span, b: Span)
    requires NonEmpty(a) && NonEmpty(b)
    ensures Classify(a, b) == Equals <==> a.begin == b.begin && a.end == b.end
    ensures Classify(a, b) == Contains <==> Includes(a, b) && a != b
    ensures Classify(a, b) == ContainedBy <==> Includes(b, a) && a != b
    ensures Classify(a, b) == LeftOf <==> a.end <= b.begin
    ensures Classify(a, b) == RightOf <==> b.end <= a.begin
    ensures Classify(a, b) == OverlapsLeft <==> a.begin < b.begin < a.end < b.end
    ensures Classify(a, b) == OverlapsRight <==> b.begin < a.begin < b.end < a.end
  {
  }

  // ---------------------------------------------------------------------------
  // The cases of RelativePositionExtractorTest

  lemma TestEquals()
    ensures Extract(Span(5, 8), Span(5, 8))[0].value == Some(Text("EQUALS"))
  {
  }

  lemma TestContains()
    ensures Extract(Span(5, 8), Span(6, 7))[0].value == Some(Text("CONTAINS"))
    ensures Extract(Span(5, 8), Span(5, 7))[0].value == Some(Text("CONTAINS"))
    ensures Extract(Span(5, 8), Span(6, 8))[0].value == Some(Text("CONTAINS"))
  {
  }

  lemma TestContainedBy()
    ensures Extract(Span(5, 8), Span(3, 8))[0].value == Some(Text("CONTAINEDBY"))
  {
  }

  lemma TestOverlapsLeft()
    ensures Extract(Span(0, 3), Span(1, 4))[0].value == Some(Text("OVERLAPS_LEFT"))
    ensures Extract(Span(0, 2), Span(1, 4))[0].value == Some(Text("OVERLAPS_LEFT"))
  {
  }

  lemma TestOverlapsRight()
    ensures Extract(Span(19, 21), Span(10, 20))[0].value == Some(Text("OVERLAPS_RIGHT"))
    ensures Extract(Span(15, 25), Span(10, 20))[0].value == Some(Text("OVERLAPS_RIGHT"))
  {
  }

  lemma TestLeftOf()
    ensures Extract(Span(1, 3), Span(4, 6))[0].value == Some(Text("LEFTOF"))
    ensures Extract(Span(2, 4), Span(4, 6))[0].value == Some(Text("LEFTOF"))
  {
  }

  lemma TestRightOf()
    ensures Extract(Span(6, 10), Span(4, 6))[0].value == Some(Text("RIGHTOF"))
    ensures Extract(Span(6, 10), Span(2, 5))[0].value == Some(Text("RIGHTOF"))
  {
  }
}
