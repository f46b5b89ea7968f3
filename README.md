# ClearTK feature extraction and classifier plumbing, in Dafny

This project models a slice of ClearTK, a framework for statistical NLP on UIMA, and proves properties of it:

- **Type-path extraction** (`TypePath`, `TypeSchema`, `TypePathFixture`). An extractor follows a `/`-separated path of feature names from a focus annotation and returns the values it reaches. Three flags govern it:
  - `traverseAllPaths` follows every element of an intermediate FSArray, not only the first;
  - `returnAllValues` returns every element of an array met at the last segment;
  - `uniqueValues` keeps only the first occurrence of each value.

  A path that ends at an annotation yields that annotation's covered text. The traversal first collects the primitive values and the annotation spans it reaches. It then reads each span's covered text with `substring`, as `Annotation.getCoveredText` does. A span outside the document text makes the extraction fail with an index-out-of-bounds error naming the first such span. `isValidPath` and `isValidType` check paths and types against a type system without any document. A path is valid when every segment names a feature of the type reached so far, with an array feature continuing from its element type, and the type its last feature ranges over passes `isValidType`. The document that `TypePathExtractorTest` builds is one constant graph. Each assertion of that test about extraction, path validity and type validity is a lemma about it, and so is the assertion that PosTag is a subtype of Annotation.
- **Relative position** (`RelativePosition`). Two spans are classified as EQUALS, CONTAINS, CONTAINEDBY, OVERLAPS_LEFT, OVERLAPS_RIGHT, LEFTOF or RIGHTOF, and the result is emitted as one feature named `RelativePosition`.
- **Covered text** (`CoveredText`). The document text over the focus span is emitted as one unnamed feature. It has no value when the document has no text.
- **Main-event temporal links** (`TemporalLinkMainEvent`). The main event of a sentence is the last event at the smallest tree depth. The main events of consecutive sentences are paired as link candidates. The annotator's label set is BEFORE, OVERLAP and AFTER; the classifier that picks a label for a pair is not modelled.
- **Sequential classifier annotator** (`SequentialClassifier`). `initialize` loads a classifier and checks that its label type suits the annotation handler; Viterbi classifiers are exempt from that check. `consumeSequence` passes one feature list per instance to the classifier and returns its labels.
- **`ClearTKComponents` helpers** (`ClearTKComponents`).
  - `combineParams` concatenates two configuration arrays.
  - `getParameterValue` reads a system property and falls back to a default.
  - The Viterbi data-writer descriptor's configuration puts the caller's parameters before the fixed ones.

The model is a set of immutable values wherever the source computes values. An annotation graph is a sequence of nodes with named slots, and references are indices into that sequence. Java's `null` is `Option.None`. Where the source works step by step, the model is imperative Dafny:
- `getMainEvent` fills a map in a loop.
- `getSourceTargetPairs` carries `prev` through a loop.
- The annotators are classes whose fields `initialize` assigns.
- `combineParams` copies into a fresh array.

Each of these methods is proved against a specification function.

**Where the behaviour comes from.** The behaviour of `TypePathExtractor` is inferred from `TypePathExtractorTest`.
- The flags are, in constructor order, `traverseAllPaths`, `returnAllValues` and `uniqueValues`. Their effects are what `TypePathExtractorTest` asserts.
- Viterbi classifiers skip the label-type check, as `SequentialClassifierAnnotator.java:97-98` does.

## Model

| member | source | states |
|---|---|---|
| TypePath.Extract | cleartk-ml/src/test/java/org/cleartk/ml/feature/extractor/TypePathExtractorTest.java:139-146 | fails exactly when `Values` fails, with the same error; otherwise one feature per value, in order, each carrying the extractor's path string unchanged and the name `TypePath(...)` |
| TypePath.Split | cleartk-ml/src/test/java/org/cleartk/ml/feature/extractor/TypePathExtractorTest.java:234-239 | a path string splits into at least one segment |
| TypePath.SplitCount | cleartk-ml/src/test/java/org/cleartk/ml/feature/extractor/TypePathExtractorTest.java:234-239 | a path string splits into one more segment than it has `/` characters |
| TypePath.FeatureName | cleartk-ml/src/test/java/org/cleartk/ml/feature/extractor/TypePathExtractorTest.java:331-350 | the feature name has the form `TypePath(...)` |
| TypePath.FeatureNameOfSegment | cleartk-ml/src/test/java/org/cleartk/ml/feature/extractor/TypePathExtractorTest.java:331-350 | a one-segment path `seg` gives the name `TypePath(` + `seg` capitalised + `)` |
| TypePath.Leaf | cleartk-ml/src/test/java/org/cleartk/ml/feature/extractor/TypePathExtractorTest.java:161-215 | reading the last segment: nothing when the slot is absent; a primitive gives itself; a primitive array gives its first element with `returnAllValues` off and all elements in order with it on; an annotation gives its span, whose covered text is read when rendering; an FSArray gives the spans of its first or all elements the same way; at most one item unless `returnAllValues` |
| TypePath.Walk | cleartk-ml/src/test/java/org/cleartk/ml/feature/extractor/TypePathExtractorTest.java:139-166 | a path whose first feature is unset yields nothing, and a primitive slot before the end of the path yields nothing |
| TypePath.WalkAll | cleartk-ml/src/test/java/org/cleartk/ml/feature/extractor/TypePathExtractorTest.java:234-260 | walking from no nodes yields nothing |
| TypePath.Values | cleartk-ml/src/test/java/org/cleartk/ml/feature/extractor/TypePathExtractorTest.java:168-215 | fails exactly when rendering the traversal's items fails, with the same error; otherwise never more values than rendered and the same set of them, with `uniqueValues` no value twice, without it exactly the rendered values |
| TypePath.SpanSlots | cleartk-ml/src/test/java/org/cleartk/ml/feature/extractor/TypePathExtractorTest.java:161-166 | on a well-formed graph, `begin` and `end` read the node's own span offsets |
| Features.Substring | cleartk-ml/src/main/java/org/cleartk/ml/feature/extractor/CoveredTextExtractor.java:58-61 | `substring` fails with an index-out-of-bounds error naming the span and the text length exactly when the span does not lie inside the text; otherwise the text over [begin, end), character by character |
| TypePath.RenderOne | cleartk-ml/src/test/java/org/cleartk/ml/feature/extractor/TypePathExtractorTest.java:148-155 | a value renders as itself; a span renders as the document text over it, of length end−begin, character by character, and fails with the index-out-of-bounds error exactly when it lies outside the text |
| TypePath.Render | cleartk-ml/src/test/java/org/cleartk/ml/feature/extractor/TypePathExtractorTest.java:148-155 | succeeds exactly when every span lies inside the text, and then gives one value per item, in order, each the rendering of its item |
| TypePath.RenderEach | cleartk-ml/src/test/java/org/cleartk/ml/feature/extractor/TypePathExtractorTest.java:148-155 | items that each render to the value at their position render to exactly those values |
| TypePath.RenderFailsAtFirstBadSpan | cleartk-ml/src/main/java/org/cleartk/ml/feature/extractor/CoveredTextExtractor.java:58-61 | a failed rendering reports the first span outside the text, with its offsets and the text length; every item before it renders |
| TypePath.WalkRenders | cleartk-ml/src/main/java/org/cleartk/ml/feature/extractor/CoveredTextExtractor.java:53-61 | on a document whose annotations all lie inside its text, every item any traversal reaches can be rendered |
| TypePath.ValuesSucceedWhenSpansInText | cleartk-ml/src/main/java/org/cleartk/ml/feature/extractor/CoveredTextExtractor.java:53-61 | on a document whose annotations all lie inside its text, the extraction never fails, for any path and flags |
| TypePath.Select | cleartk-ml/src/test/java/org/cleartk/ml/feature/extractor/TypePathExtractorTest.java:189-209 | with the flag off only the first element of an array is used, with it on all of them, in array order |
| TypePath.Distinct | cleartk-ml/src/test/java/org/cleartk/ml/feature/extractor/TypePathExtractorTest.java:211-215 | `uniqueValues`: never longer, the same set of values, and no value twice |
| TypePath.DistinctOfPrefix | cleartk-ml/src/test/java/org/cleartk/ml/feature/extractor/TypePathExtractorTest.java:211-215 | deduplication keeps the order of first appearance: the result for a prefix is a prefix of the result |
| TypePath.DistinctOfDistinct | cleartk-ml/src/test/java/org/cleartk/ml/feature/extractor/TypePathExtractorTest.java:234-244 | values that are already distinct pass through `uniqueValues` unchanged |
| TypePath.UniqueValuesCollapse | cleartk-ml/src/test/java/org/cleartk/ml/feature/extractor/TypePathExtractorTest.java:168-177 | turning `uniqueValues` on fails exactly when the plain extraction fails; otherwise it keeps exactly the same values, each once, in order of first appearance, and never more of them |
| TypePath.JoinSplit | cleartk-ml/src/test/java/org/cleartk/ml/feature/extractor/TypePathExtractorTest.java:234-239 | splitting a path string at `/` and joining the segments gives the string back |
| TypePath.SplitJoin | cleartk-ml/src/test/java/org/cleartk/ml/feature/extractor/TypePathExtractorTest.java:234-239 | segments without `/`, joined and split again, are the same segments |
| TypePath.SplitSegmentsHaveNoSlash | cleartk-ml/src/test/java/org/cleartk/ml/feature/extractor/TypePathExtractorTest.java:234-239 | no segment of a split path contains `/` |
| TypePath.WalkAllIsWorkingSet | cleartk-ml/src/test/java/org/cleartk/ml/feature/extractor/TypePathExtractorTest.java:234-244 | the depth-first traversal equals advancing a working set of nodes segment by segment, in order, and reading the last segment from each node |
| TypePath.SingleValuedLastSegment | cleartk-ml/src/test/java/org/cleartk/ml/feature/extractor/TypePathExtractorTest.java:246-260 | a single-valued last feature gives exactly one value per reached node, in order, whatever `returnAllValues` says; there is no positional pairing |
| TypePath.DefaultYieldsAtMostOne | cleartk-ml/src/test/java/org/cleartk/ml/feature/extractor/TypePathExtractorTest.java:217-222 | with `traverseAllPaths` and `returnAllValues` off, any path yields at most one value |
| TypePath.FirstPathIsPrefix | cleartk-ml/src/test/java/org/cleartk/ml/feature/extractor/TypePathExtractorTest.java:262-280 | with `traverseAllPaths` off the values are a prefix of those with it on: the ones reached through first elements |
| TypePath.ReturnAllValuesNotShorter | cleartk-ml/src/test/java/org/cleartk/ml/feature/extractor/TypePathExtractorTest.java:189-209 | turning `returnAllValues` off never yields more values |
| TypeSchema.IsValidType | cleartk-ml/src/test/java/org/cleartk/ml/feature/extractor/TypePathExtractorTest.java:313-328 | every primitive type, every declared subtype of String and every declared type with a JCas class is valid; any valid type is primitive or declared |
| TypeSchema.IsValidPath | cleartk-ml/src/test/java/org/cleartk/ml/feature/extractor/TypePathExtractorTest.java:284-310 | a valid path starts from a declared type and its first segment is a feature of that type |
| TypeSchema.ValidSegmentsEndOnValidType | cleartk-ml/src/test/java/org/cleartk/ml/feature/extractor/TypePathExtractorTest.java:313-328 | the type a valid path's last feature ranges over passes `isValidType` |
| TypeSchema.ValidSingleSegment | cleartk-ml/src/test/java/org/cleartk/ml/feature/extractor/TypePathExtractorTest.java:285 | a path without `/` is valid exactly when the type declares a feature of that name whose range type passes `isValidType` |
| TypeSchema.WalkNeedsValidPath | cleartk-ml/src/test/java/org/cleartk/ml/feature/extractor/TypePathExtractorTest.java:284-310 | on a graph that respects a type system whose feature ranges all pass `isValidType`, a traversal that reaches any item followed a path that validation accepts |
| TypeSchema.InvalidPathYieldsNothing | cleartk-ml/src/test/java/org/cleartk/ml/feature/extractor/TypePathExtractorTest.java:284-310 | in this model, on such a graph and type system, a path `isValidPath` rejects for the focus type yields no values and no error, under any flags |
| TypePathFixture.DocumentWellFormed | cleartk-ml/src/test/java/org/cleartk/ml/feature/extractor/TypePathExtractorTest.java:62-117 | the test document's references all name nodes and its `begin` and `end` slots read the spans |
| TypePathFixture.DocumentSpansInText | cleartk-ml/src/test/java/org/cleartk/ml/feature/extractor/TypePathExtractorTest.java:62-117 | every annotation of the test document lies inside its text |
| TypePathFixture.DocumentConforms | cleartk-ml/src/test/java/org/cleartk/ml/feature/extractor/TypePathExtractorTest.java:62-117 | every node and slot of the test document has a declared type and feature, and every reference hits the declared range type |
| TypePathFixture.PrimitiveAtEnd | cleartk-ml/src/test/java/org/cleartk/ml/feature/extractor/TypePathExtractorTest.java:139-146 | `lemma/value` gives one feature, "wwwwwwww", with path "lemma/value" |
| TypePathFixture.AnnotationAtEndGivesCoveredText | cleartk-ml/src/test/java/org/cleartk/ml/feature/extractor/TypePathExtractorTest.java:150-155 | `lemma` gives one feature, the covered text "www" of span [1,4) |
| TypePathFixture.IntegerFeature | cleartk-ml/src/test/java/org/cleartk/ml/feature/extractor/TypePathExtractorTest.java:161-166 | `lemma/begin` gives the integer 1 |
| TypePathFixture.FinalFSArray | cleartk-ml/src/test/java/org/cleartk/ml/feature/extractor/TypePathExtractorTest.java:168-187 | `posTag` gives two equal covered texts with (true,true,false) and one with each of the other three flag settings |
| TypePathFixture.FinalPrimitiveArray | cleartk-ml/src/test/java/org/cleartk/ml/feature/extractor/TypePathExtractorTest.java:189-215 | `lemma/testFS` gives A, then A,B,A, then A,B |
| TypePathFixture.IntermediateFSArrayHead | cleartk-ml/src/test/java/org/cleartk/ml/feature/extractor/TypePathExtractorTest.java:217-232 | `depRel/head` gives the first head's text by default, and both heads' texts with all flags on |
| TypePathFixture.IntermediateFSArrayFanOut | cleartk-ml/src/test/java/org/cleartk/ml/feature/extractor/TypePathExtractorTest.java:234-260 | `depRel/head/posTag/value` gives pos1, pos2, pos3 with `traverseAllPaths`, whatever `returnAllValues` says |
| TypePathFixture.IntermediateFSArrayFirstOnly | cleartk-ml/src/test/java/org/cleartk/ml/feature/extractor/TypePathExtractorTest.java:262-280 | the same path gives only pos1 without `traverseAllPaths` |
| TypePathFixture.PosTagIsAnnotation | cleartk-ml/src/test/java/org/cleartk/ml/feature/extractor/TypePathExtractorTest.java:130-132 | PosTag is declared a subtype of Annotation |
| TypePathFixture.ValidPathFromPosTag | cleartk-ml/src/test/java/org/cleartk/ml/feature/extractor/TypePathExtractorTest.java:285 | `value` is a valid path from PosTag |
| TypePathFixture.ValidPathFromHeader | cleartk-ml/src/test/java/org/cleartk/ml/feature/extractor/TypePathExtractorTest.java:286 | `authors/lastName` is valid from Header, through the element type of an FSArray |
| TypePathFixture.InvalidPathFromHeader | cleartk-ml/src/test/java/org/cleartk/ml/feature/extractor/TypePathExtractorTest.java:287-290 | `authors/lastNames` is not valid from Header |
| TypePathFixture.ValidPathsThroughPosTag | cleartk-ml/src/test/java/org/cleartk/ml/feature/extractor/TypePathExtractorTest.java:291-292 | `posTag/language` and `posTag` are valid from Token |
| TypePathFixture.ValidPathBackToDepRel | cleartk-ml/src/test/java/org/cleartk/ml/feature/extractor/TypePathExtractorTest.java:293-296 | `depRel/head/depRel/projective` is valid from Token |
| TypePathFixture.InvalidPathThroughHead | cleartk-ml/src/test/java/org/cleartk/ml/feature/extractor/TypePathExtractorTest.java:297-300 | `depRel/head/projective` is not valid from Token |
| TypePathFixture.ValidPathThroughHead | cleartk-ml/src/test/java/org/cleartk/ml/feature/extractor/TypePathExtractorTest.java:301-304 | `depRel/head/orthogr` is valid from Token |
| TypePathFixture.ValidPathThroughDepRel | cleartk-ml/src/test/java/org/cleartk/ml/feature/extractor/TypePathExtractorTest.java:305 | `depRel/projective` is valid from Token |
| TypePathFixture.RejectedPathYieldsNothing | cleartk-ml/src/test/java/org/cleartk/ml/feature/extractor/TypePathExtractorTest.java:297-300 | in this model, on the test document, the rejected path `depRel/head/projective` yields no feature from the third token, under any flags |
| TypePathFixture.ValidTypes | cleartk-ml/src/test/java/org/cleartk/ml/feature/extractor/TypePathExtractorTest.java:313-328 | PosTag, Token, the String subtype Language (which has no JCas class), String and Integer are valid types |
| TypePathFixture.TestRangesValid | cleartk-ml/src/test/java/org/cleartk/ml/feature/extractor/TypePathExtractorTest.java:313-328 | every feature of the test type system ranges over a type that passes `isValidType` |
| TypePathFixture.SpanOutsideTextFails | cleartk-ml/src/main/java/org/cleartk/ml/feature/extractor/CoveredTextExtractor.java:53-61 | a lemma annotation whose span [12,17) lies outside a 6-character text makes path `lemma` fail with that span and length |
| TypePathFixture.PrimitiveOfMisplacedSpan | cleartk-ml/src/main/java/org/cleartk/ml/feature/extractor/CoveredTextExtractor.java:53-61 | the same lemma's `value` is still read: only reading covered text fails |
| TypePathFixture.PosFeatureName | cleartk-ml/src/test/java/org/cleartk/ml/feature/extractor/TypePathExtractorTest.java:331-350 | the token covering "place" gives "A" and its neighbour gives "B" for path `pos`, and both features are named "TypePath(Pos)" |
| RelativePosition.Extract | cleartk-ml/src/test/java/org/cleartk/ml/feature/extractor/RelativePositionExtractorTest.java:93-103 | exactly one feature, named "RelativePosition", whose value is the name of the position `Classify` gives for the two spans |
| RelativePosition.Classify | cleartk-ml/src/test/java/org/cleartk/ml/feature/extractor/RelativePositionExtractorTest.java:46-85 | EQUALS exactly for equal spans; CONTAINS and CONTAINEDBY only for strict inclusion; LEFTOF and RIGHTOF only when the spans do not overlap; OVERLAPS_LEFT and OVERLAPS_RIGHT only for a proper crossing on that side |
| RelativePosition.Characterization | cleartk-ml/src/test/java/org/cleartk/ml/feature/extractor/RelativePositionExtractorTest.java:46-85 | for non-empty spans each of the seven positions holds exactly when its condition on the offsets holds; touching spans are LEFTOF or RIGHTOF |
| RelativePosition.SwapGivesConverse | cleartk-ml/src/test/java/org/cleartk/ml/feature/extractor/RelativePositionExtractorTest.java:46-85 | swapping the spans exchanges CONTAINS/CONTAINEDBY, OVERLAPS_LEFT/OVERLAPS_RIGHT and LEFTOF/RIGHTOF, and keeps EQUALS |
| RelativePosition.ConverseInvolution | cleartk-ml/src/test/java/org/cleartk/ml/feature/extractor/RelativePositionExtractorTest.java:46-85 | swapping twice gives the original position back |
| RelativePosition.NameInjective | cleartk-ml/src/test/java/org/cleartk/ml/feature/extractor/RelativePositionExtractorTest.java:97 | the emitted string determines the position |
| RelativePosition.TestEquals | cleartk-ml/src/test/java/org/cleartk/ml/feature/extractor/RelativePositionExtractorTest.java:48 | (5,8)/(5,8) gives EQUALS |
| RelativePosition.TestContains | cleartk-ml/src/test/java/org/cleartk/ml/feature/extractor/RelativePositionExtractorTest.java:53-55 | the three containing pairs, two with a shared end point, give CONTAINS |
| RelativePosition.TestContainedBy | cleartk-ml/src/test/java/org/cleartk/ml/feature/extractor/RelativePositionExtractorTest.java:60 | (5,8)/(3,8) gives CONTAINEDBY |
| RelativePosition.TestOverlapsLeft | cleartk-ml/src/test/java/org/cleartk/ml/feature/extractor/RelativePositionExtractorTest.java:65-66 | both pairs give OVERLAPS_LEFT |
| RelativePosition.TestOverlapsRight | cleartk-ml/src/test/java/org/cleartk/ml/feature/extractor/RelativePositionExtractorTest.java:71-72 | both pairs give OVERLAPS_RIGHT |
| RelativePosition.TestLeftOf | cleartk-ml/src/test/java/org/cleartk/ml/feature/extractor/RelativePositionExtractorTest.java:77-78 | both pairs, one of them touching, give LEFTOF |
| RelativePosition.TestRightOf | cleartk-ml/src/test/java/org/cleartk/ml/feature/extractor/RelativePositionExtractorTest.java:83-84 | both pairs, one of them touching, give RIGHTOF |
| CoveredText.FeatureName | cleartk-ml/src/main/java/org/cleartk/ml/feature/extractor/CoveredTextExtractor.java:46-49 | the extractor's feature name is null |
| CoveredText.Extract | cleartk-ml/src/main/java/org/cleartk/ml/feature/extractor/CoveredTextExtractor.java:51-66 | fails with an index-out-of-bounds error exactly when the text is non-null and the span is not inside it; otherwise exactly one unnamed feature, with no value exactly when the text is null, and otherwise a string of length end−begin equal to the text over [begin, end) character by character |
| TemporalLinkMainEvent.MinDepth | cleartk-timeml/src/main/java/org/cleartk/timeml/tlink/TemporalLinkMainEventToNextSentenceMainEventAnnotator.java:112-123 | `minDepth` is null exactly when no event has a depth; otherwise some event has it and no event with a depth has a smaller one |
| TemporalLinkMainEvent.AtDepth | cleartk-timeml/src/main/java/org/cleartk/timeml/tlink/TemporalLinkMainEventToNextSentenceMainEventAnnotator.java:117-120 | a depth group holds only events of the sentence that have that depth |
| TemporalLinkMainEvent.Annotator.GetMainEvent | cleartk-timeml/src/main/java/org/cleartk/timeml/tlink/TemporalLinkMainEventToNextSentenceMainEventAnnotator.java:110-132 | the loop that groups events by depth in a map and tracks the minimum returns `MainEvent`: the last event of the group at the smallest depth, or null for no events |
| TemporalLinkMainEvent.MainEventOfGroups | cleartk-timeml/src/main/java/org/cleartk/timeml/tlink/TemporalLinkMainEventToNextSentenceMainEventAnnotator.java:124-131 | the map from depth to events is empty exactly for a sentence without events; otherwise it has an entry at `minDepth`, and that entry's last event is the main event |
| TemporalLinkMainEvent.MainEventNoneIff | cleartk-timeml/src/main/java/org/cleartk/timeml/tlink/TemporalLinkMainEventToNextSentenceMainEventAnnotator.java:126-131 | null exactly when the sentence covers no events; otherwise the group at `minDepth` is non-empty, so `events.get(size - 1)` is defined |
| TemporalLinkMainEvent.MainEvent | cleartk-timeml/src/main/java/org/cleartk/timeml/tlink/TemporalLinkMainEventToNextSentenceMainEventAnnotator.java:110-132 | none for a sentence without events; otherwise one of the sentence's events, and its depth is the sentence's `minDepth` |
| TemporalLinkMainEvent.MainEventHasMinimumDepth | cleartk-timeml/src/main/java/org/cleartk/timeml/tlink/TemporalLinkMainEventToNextSentenceMainEventAnnotator.java:121-129 | when any event has a depth, the main event has one, and it is the smallest; events without a depth are then never chosen |
| TemporalLinkMainEvent.MainEventIsLastAtItsDepth | cleartk-timeml/src/main/java/org/cleartk/timeml/tlink/TemporalLinkMainEventToNextSentenceMainEventAnnotator.java:129-130 | no later event of the sentence has the main event's depth |
| TemporalLinkMainEvent.NoDepthGivesLastEvent | cleartk-timeml/src/main/java/org/cleartk/timeml/tlink/TemporalLinkMainEventToNextSentenceMainEventAnnotator.java:112-130 | when no event has a depth, the main event is the sentence's last event |
| TemporalLinkMainEvent.Annotator.GetSourceTargetPairs | cleartk-timeml/src/main/java/org/cleartk/timeml/tlink/TemporalLinkMainEventToNextSentenceMainEventAnnotator.java:94-108 | the loop carrying `prev` returns `Pairs`: for each two consecutive sentences in order, their main events, when both exist |
| TemporalLinkMainEvent.Pairs | cleartk-timeml/src/main/java/org/cleartk/timeml/tlink/TemporalLinkMainEventToNextSentenceMainEventAnnotator.java:94-108 | no pairs for fewer than two sentences, and at most one fewer pairs than sentences |
| TemporalLinkMainEvent.PairsCount | cleartk-timeml/src/main/java/org/cleartk/timeml/tlink/TemporalLinkMainEventToNextSentenceMainEventAnnotator.java:96-106 | exactly one pair per two consecutive sentences that both cover events |
| TemporalLinkMainEvent.PairsAreConsecutive | cleartk-timeml/src/main/java/org/cleartk/timeml/tlink/TemporalLinkMainEventToNextSentenceMainEventAnnotator.java:99-105 | every pair is the main events of some sentence and of the sentence right after it |
| TemporalLinkMainEvent.ConsecutiveMainEventsArePaired | cleartk-timeml/src/main/java/org/cleartk/timeml/tlink/TemporalLinkMainEventToNextSentenceMainEventAnnotator.java:100-104 | two consecutive sentences that both have a main event give their pair |
| TemporalLinkMainEvent.Annotator.constructor | cleartk-timeml/src/main/java/org/cleartk/timeml/tlink/TemporalLinkMainEventToNextSentenceMainEventAnnotator.java:76-78 | the labels are BEFORE, OVERLAP and AFTER |
| TemporalLinkMainEvent.Annotator.Initialize | cleartk-timeml/src/main/java/org/cleartk/timeml/tlink/TemporalLinkMainEventToNextSentenceMainEventAnnotator.java:80-91 | source and target extractors are both the `tense`, `aspect` and `eventClass` type-path extractors; the labels are unchanged |
| SequentialClassifier.CheckLabelTypes | src/org/cleartk/classifier/SequentialClassifierAnnotator.java:97-104 | rejected exactly when the classifier is not Viterbi and the handler's label type is not assignable from the classifier's, with the incompatibility message; a Viterbi classifier is always accepted |
| SequentialClassifier.CheckIgnoresClassifierBehaviour | src/org/cleartk/classifier/SequentialClassifierAnnotator.java:97-104 | the check looks only at the classifier's kind and declared label type |
| SequentialClassifier.Annotator.Initialize | src/org/cleartk/classifier/SequentialClassifierAnnotator.java:76-112 | a missing jar parameter, a failed jar load (IOException) or a failed label check each fail initialisation with that error and leave the classifier unset; otherwise the loaded classifier is stored |
| SequentialClassifier.FeatureLists | src/org/cleartk/classifier/SequentialClassifierAnnotator.java:115-118 | one feature list per instance, in the same order |
| SequentialClassifier.Annotator.ConsumeSequence | src/org/cleartk/classifier/SequentialClassifierAnnotator.java:114-120 | the loop hands the classifier exactly the instances' feature lists, in order, and returns its labels unchanged |
| SequentialClassifier.OutcomesAreIgnored | src/org/cleartk/classifier/SequentialClassifierAnnotator.java:115-119 | instances that differ only in their outcomes get the same labels |
| SequentialClassifier.Annotator.ExpectsOutcomes | src/org/cleartk/classifier/SequentialClassifierAnnotator.java:124-126 | always false |
| ClearTKComponents.ArrayCopy | src/org/cleartk/ClearTKComponents.java:281-282 | `System.arraycopy` between distinct arrays: the destination range takes the source range and the rest of the destination is unchanged |
| ClearTKComponents.CombineParams | src/org/cleartk/ClearTKComponents.java:279-284 | a fresh array of length old+new whose first part is `oldParams` and whose rest is `newParams`, in order; neither argument changes |
| ClearTKComponents.GetParameterValue | src/org/cleartk/ClearTKComponents.java:271-277 | the system property when it is set, the default otherwise |
| ClearTKComponents.ViterbiDataWriterConfiguration | src/org/cleartk/ClearTKComponents.java:179-196 | the descriptor's configuration is the caller's parameters followed by the ten fixed entries |
| ClearTKComponents.CallerParamsFirst | src/org/cleartk/ClearTKComponents.java:186-191 | the caller's parameters come first and unchanged |
| ClearTKComponents.FixedViterbiSettings | src/org/cleartk/ClearTKComponents.java:189-195 | the data-writer factory is the Viterbi one and the outcome feature extractors are exactly `[DefaultOutcomeFeatureExtractor]` |
| ClearTKComponents.PairsPreserved | src/org/cleartk/ClearTKComponents.java:186-195 | name/value pairs from the caller remain name/value pairs after the fixed parameters |

## Left out

- The UIMA machinery is abstracted as sequences and records. This covers JCas and CAS indexes, `JCasUtil.select` and `selectCovered`, `addToIndexes` and FSArray copying.
- The behaviour of `TypePathExtractor` is inferred from `TypePathExtractorTest`: each path, flag combination and expected value there is modelled.
- What the extractor does with a path that `isValidPath` rejects is not modelled. It may throw rather than return nothing; the model's traversal simply reaches no value.
- TypeSchema.WalkNeedsValidPath and TypeSchema.InvalidPathYieldsNothing assume that every declared feature ranges over a type that passes `isValidType`. Without that, a path ending on a feature of any other type reaches values that validation rejects.
- TypePath.Render: a document without text (`null`) is not modelled, since a graph's text is always a string. `getCoveredText` would then give `null`, and what `TypePathExtractor` does with a `null` value is not part of this model.
- The classifier that labels a main-event pair BEFORE, OVERLAP or AFTER is not modelled; only the label set and the pairs handed to it are.
- Multi-segment feature names are inferred: each segment is capitalised and the segments are concatenated. Only `pos` giving `TypePath(Pos)` is pinned by the test. Capitalisation covers only the ASCII letters a-z, where Java's `toUpperCase` covers all of Unicode.
- TypeSchema.IsValidType: the JCas-class criterion for declared types other than String subtypes is inferred from the test's comment that String subtypes have no generated JCas class. Whether a class exists is a flag on each declared type.
- TypePath.Split keeps a trailing empty segment for a path ending in `/`, where Java's `String.split` drops it. No test uses such a path.
- The order in which `RelativePosition.Classify` decides its cases is an inference. It matters only for empty spans. Every test vector, the swap symmetry and the characterisation of non-empty spans hold under it.
- A type's inherited features are not looked up through its supertype chain: the test type system lists each type's features in full. The type system keeps only the features the test reads or sets.
- Flag behaviour beyond what the tests assert is not modelled: a subtype-admission rule for features and duplicate suppression across values and covered text.
- Cycle handling needs no code: a traversal consumes one path segment per step, so it always ends.
- Finding the matching tree leaf of an event and its depth (`TreebankNodeUtil`) is left out. The depth is a given optional value on each event.
- Reflection, class loading and jar I/O are parameters: label types are opaque names, assignability is a caller-given relation and loading a jar is a caller-given function.
- `UIMAUtil.initialize` of the loaded classifier and the base-class `initialize` calls are left out, because their code is not visible.
- Viterbi decoding, data writers, LibLinear and the model factory are left out. Their code is not visible, so no decoding algorithm is modelled.
- The other descriptor and collection-reader factory methods of `ClearTKComponents` are left out. They only assemble descriptors for external components. `System.getProperty` is a map passed in.
- The values of the parameter-name constants that `createViterbiDataWriterAnnotator` uses are defined in classes outside this model, so they are symbolic names.
- `ClearParserTest` is left out: its assertions depend on the output of a trained external parser.
- ClearTKComponents.ArrayCopy requires distinct arrays, which is the only way `combineParams` calls it; overlapping copies are not modelled.
- CoveredText.Extract indexes a Dafny string, which is a sequence of Unicode scalar values. Java's offsets and `substring` count UTF-16 code units. For a text with characters outside the Basic Multilingual Plane, the failure condition and the extracted text therefore differ from Java's.
- TypePath.RenderOne counts offsets in Unicode scalar values rather than UTF-16 code units, in the same way, so the covered text and the failure condition differ from Java's for such a text.
- SequentialClassifier.Annotator.ConsumeSequence treats `classifySequence` as total. The `CleartkException` it may throw is not modelled.
- SequentialClassifier.Annotator.ConsumeSequence requires an initialised classifier; Java would throw a `NullPointerException` before `initialize`.
