/**
 * The annotated document that `TypePathExtractorTest.Annotator.process` builds, as
 * one constant graph, and each assertion of the test as a lemma about it.
 */
module TypePathFixture {
  import opened Wrappers
  import opened Features
  import opened TypePath
  import opened TypeSchema

  // The test types of package org.cleartk.test.util.type, by their short names.
  const TokenType := "Token"
  const LemmaType := "Lemma"
  const PosTagType := "PosTag"
  const DependencyRelationType := "DependencyRelation"
  const HeaderType := "Header"
  const AuthorType := "Author"
  const LanguageType := "Language"
  const AnnotationType := "Annotation"

  const DocumentText :=
    "Wwwwwwww ii ss yyy mmmmm ttttt yyy hhhh " + "Yyy hhhh nnnnnnn tt llll "
    + "Ttttttt eeeee dddd aaa llllll ttttt " + "Tttt rrrr llll a ffff."

  /** An annotation: its span is also readable through its `begin` and `end` features. */
  function Annotation(typeName: string, begin: int, end: int, fields: map<string, Field>): Node {
    Node(typeName, begin, end, fields["begin" := Prim(Number(begin))]["end" := Prim(Number(end))])
  }

  // Node indices of the document graph.
  const Token1: nat := 0
  const Lemma1: nat := 1
  const PosTag1: nat := 2
  const PosTag2: nat := 3
  const Token2: nat := 4
  const PosTag3: nat := 5
  const Token3: nat := 6
  const DepRel1: nat := 7
  const DepRel2: nat := 8

  const Document := Graph(DocumentText, [
    Annotation(TokenType, 0, 8, map["lemma" := Ref(Lemma1), "posTag" := RefArray([PosTag1, PosTag2])]),
    Annotation(LemmaType, 1, 4, map["value" := Prim(Text("wwwwwwww")),
                                    "testFS" := PrimArray([Text("A"), Text("B"), Text("A")])]),
    Annotation(PosTagType, 0, 8, map["value" := Prim(Text("pos1"))]),
    Annotation(PosTagType, 0, 8, map["value" := Prim(Text("pos2"))]),
    Annotation(TokenType, 9, 11, map["posTag" := RefArray([PosTag3])]),
    Annotation(PosTagType, 0, 0, map["value" := Prim(Text("pos3"))]),
    Annotation(TokenType, 12, 14, map["depRel" := RefArray([DepRel1, DepRel2])]),
    Annotation(DependencyRelationType, 0, 0, map["head" := Ref(Token1), "projective" := Prim(Flag(true)),
                                                 "label" := Prim(Text("deprel token1"))]),
    Annotation(DependencyRelationType, 0, 0, map["head" := Ref(Token2), "projective" := Prim(Flag(true)),
                                                 "label" := Prim(Text("deprel token2"))])
  ])

  /** The features of an annotation type: its own ones and the span features `begin` and `end`. */
  function AnnotationFeatures(own: map<string, Range>): map<string, Range> {
    own["begin" := Single("uima.cas.Integer")]["end" := Single("uima.cas.Integer")]
  }

  /** The test type system, restricted to the features the test reads or sets. */
  const TestSchema: Schema := map[
    TokenType := TypeDecl(AnnotationType, true, AnnotationFeatures(map[
      "lemma" := Single(LemmaType), "posTag" := ArrayOf(PosTagType),
      "depRel" := ArrayOf(DependencyRelationType), "orthogr" := Single(StringType),
      "pos" := Single(StringType)])),
    LemmaType := TypeDecl(AnnotationType, true, AnnotationFeatures(map[
      "value" := Single(StringType), "testFS" := ArrayOf(StringType)])),
    PosTagType := TypeDecl(AnnotationType, true, AnnotationFeatures(map[
      "value" := Single(StringType), "language" := Single(LanguageType)])),
    DependencyRelationType := TypeDecl(AnnotationType, true, AnnotationFeatures(map[
      "head" := Single(TokenType), "projective" := Single("uima.cas.Boolean"),
      "label" := Single(StringType)])),
    HeaderType := TypeDecl(AnnotationType, true, AnnotationFeatures(map["authors" := ArrayOf(AuthorType)])),
    AuthorType := TypeDecl(AnnotationType, true, AnnotationFeatures(map["lastName" := Single(StringType)])),
    LanguageType := TypeDecl(StringType, false, map[])
  ]

  lemma DocumentWellFormed()
    ensures WellFormed(Document)
  {
    forall n | 0 <= n < |Document.nodes| ensures NodeWellFormed(Document, Document.nodes[n]) {
      NodeWellFormedAt(n);
    }
  }

  /** Each node on its own: its references name nodes and its span slots read its span. */
  lemma NodeWellFormedAt(n: nat)
    requires n < |Document.nodes|
    ensures NodeWellFormed(Document, Document.nodes[n])
  {
    if n <= PosTag2 {
      FirstNodesWellFormed(n);
    } else {
      LastNodesWellFormed(n);
    }
  }

  lemma FirstNodesWellFormed(n: nat)
    requires n <= PosTag2
    ensures NodeWellFormed(Document, Document.nodes[n])
  {
    if n == Token1 {
    } else if n == Lemma1 {
    } else if n == PosTag1 {
    } else {
      assert n == PosTag2;
    }
  }

  lemma LastNodesWellFormed(n: nat)
    requires Token2 <= n < |Document.nodes|
    ensures NodeWellFormed(Document, Document.nodes[n])
  {
    if n == Token2 {
    } else if n == PosTag3 {
    } else if n == Token3 {
    } else if n == DepRel1 {
    } else {
      assert n == DepRel2;
    }
  }

  /** Every annotation of the document lies inside its text. */
  lemma DocumentSpansInText()
    ensures SpansInText(Document)
  {
  }

  lemma CoveredToken1()
    ensures DocumentText[0..8] == "Wwwwwwww"
  {
    assert DocumentText[0] == 'W';
    assert forall i :: 1 <= i < 8 ==> DocumentText[i] == 'w';
  }

  function Run(focus: nat, path: string, opt: Options): Result<seq<TypePathFeature>, SpanError>
    requires focus < |Document.nodes|
  {
    DocumentWellFormed();
    Extract(Document, focus, Extractor(path, opt))
  }

  // ---------------------------------------------------------------------------
  // testExtract

  // ---------------------------------------------------------------------------
  // Splitting the literal paths of the test

  lemma {:induction false} SplitTwo(a: string, b: string)
    requires '/' !in a && '/' !in b
    ensures Split(a + "/" + b) == [a, b]
  {
    SplitNoSlash(b);
    SplitAtSlash(a, b);
  }

  lemma {:induction false} SplitThree(a: string, b: string, c: string)
    requires '/' !in a && '/' !in b && '/' !in c
    ensures Split(a + "/" + b + "/" + c) == [a, b, c]
  {
    SplitTwo(b, c);
    SplitAtSlash(a, b + "/" + c);
    assert a + "/" + b + "/" + c == a + "/" + (b + "/" + c);
  }

  lemma {:induction false} SplitFour(a: string, b: string, c: string, d: string)
    requires '/' !in a && '/' !in b && '/' !in c && '/' !in d
    ensures Split(a + "/" + b + "/" + c + "/" + d) == [a, b, c, d]
  {
    SplitThree(b, c, d);
    SplitAtSlash(a, b + "/" + c + "/" + d);
    assert a + "/" + b + "/" + c + "/" + d == a + "/" + (b + "/" + c + "/" + d);
  }

  lemma {:induction false} PrimitiveAtEnd()
    ensures var r := Run(Token1, "lemma/value", DefaultOptions);
            r.Success? && |r.value| == 1 && r.value[0].value == Text("wwwwwwww") && r.value[0].typePath == "lemma/value"
  {
    assert "lemma/value" == "lemma" + "/" + "value";
    SplitTwo("lemma", "value");
    DocumentWellFormed();
    var g := Document;
    assert g.nodes[Token1].fields["lemma"] == Ref(Lemma1);
    assert g.nodes[Lemma1].fields["value"] == Prim(Text("wwwwwwww"));
    var v := Text("wwwwwwww");
    assert Walk(g, Lemma1, ["value"], false, false) == [Val(v)];
    assert ["lemma", "value"][1..] == ["value"];
    assert Walk(g, Token1, ["lemma", "value"], false, false) == [Val(v)];
    RenderEach(g.text, [Val(v)], [v]);
  }

  lemma {:induction false} AnnotationAtEndGivesCoveredText()
    ensures var r := Run(Token1, "lemma", DefaultOptions);
            r.Success? && |r.value| == 1 && r.value[0].value == Text("www") && r.value[0].typePath == "lemma"
  {
    SplitNoSlash("lemma");
    DocumentWellFormed();
    var g := Document;
    assert g.nodes[Token1].fields["lemma"] == Ref(Lemma1);
    assert Walk(g, Token1, ["lemma"], false, false) == [Covered(1, 4)];
    CoveredLemma1();
  }

  /** The lemma annotation covers "www". */
  lemma CoveredLemma1()
    ensures Render(DocumentText, [Covered(1, 4)]) == Success([Text("www")])
  {
    assert |DocumentText| == 123;
    assert DocumentText[1] == 'w' && DocumentText[2] == 'w' && DocumentText[3] == 'w';
    assert DocumentText[1..4] == "www";
    assert RenderOne(DocumentText, Covered(1, 4)) == Success(Text("www"));
    RenderEach(DocumentText, [Covered(1, 4)], [Text("www")]);
  }

  lemma {:induction false} IntegerFeature()
    ensures var r := Run(Token1, "lemma/begin", DefaultOptions);
            r.Success? && |r.value| == 1 && r.value[0].value == Number(1) && r.value[0].typePath == "lemma/begin"
  {
    assert "lemma/begin" == "lemma" + "/" + "begin";
    SplitTwo("lemma", "begin");
    DocumentWellFormed();
    var g := Document;
    assert g.nodes[Token1].fields["lemma"] == Ref(Lemma1);
    assert g.nodes[Lemma1].fields["begin"] == Prim(Number(1));
    assert Walk(g, Lemma1, ["begin"], false, false) == [Val(Number(1))];
    assert ["lemma", "begin"][1..] == ["begin"];
    assert Walk(g, Token1, ["lemma", "begin"], false, false) == [Val(Number(1))];
    RenderEach(g.text, [Val(Number(1))], [Number(1)]);
  }

  /** The part-of-speech tags of the first token, as the spans whose covered text is read. */
  lemma PosTagsOfToken1(ra: bool)
    ensures WellFormed(Document)
    ensures Leaf(Document, Token1, "posTag", ra)
         == if ra then [Covered(0, 8), Covered(0, 8)] else [Covered(0, 8)]
  {
    DocumentWellFormed();
    var g := Document;
    assert g.nodes[Token1].fields["posTag"] == RefArray([PosTag1, PosTag2]);
    assert Spans(g, [PosTag2]) == [Covered(0, 8)];
  }

  /** The first token, and its two tags, cover "Wwwwwwww". */
  lemma RenderToken1Span()
    ensures Render(DocumentText, [Covered(0, 8)]) == Success([Text("Wwwwwwww")])
    ensures Render(DocumentText, [Covered(0, 8), Covered(0, 8)]) == Success([Text("Wwwwwwww"), Text("Wwwwwwww")])
  {
    CoveredToken1();
    assert |DocumentText| == 123;
    var w := Text("Wwwwwwww");
    assert RenderOne(DocumentText, Covered(0, 8)) == Success(w);
    RenderEach(DocumentText, [Covered(0, 8)], [w]);
    RenderEach(DocumentText, [Covered(0, 8), Covered(0, 8)], [w, w]);
  }

  lemma {:induction false} FinalFSArray()
    ensures var r := Run(Token1, "posTag", Options(true, true, false));
            r.Success? && |r.value| == 2 && r.value[0].value == Text("Wwwwwwww") && r.value[1].value == Text("Wwwwwwww")
    ensures var r := Run(Token1, "posTag", Options(true, true, true));
            r.Success? && |r.value| == 1 && r.value[0].value == Text("Wwwwwwww")
    ensures var r := Run(Token1, "posTag", Options(true, false, false));
            r.Success? && |r.value| == 1 && r.value[0].value == Text("Wwwwwwww")
    ensures var r := Run(Token1, "posTag", Options(false, false, false));
            r.Success? && |r.value| == 1 && r.value[0].value == Text("Wwwwwwww")
  {
    SplitNoSlash("posTag");
    PosTagsOfToken1(true);
    PosTagsOfToken1(false);
    RenderToken1Span();
    var w := Text("Wwwwwwww");
    assert Distinct([w]) == [w];
    assert [w, w][..1] == [w];
    assert Distinct([w, w]) == [w];
  }

  lemma {:induction false} FinalPrimitiveArray()
    ensures var r := Run(Token1, "lemma/testFS", Options(false, false, false));
            r.Success? && |r.value| == 1 && r.value[0].value == Text("A")
    ensures var r := Run(Token1, "lemma/testFS", Options(false, true, false));
            && r.Success? && |r.value| == 3
            && r.value[0].value == Text("A") && r.value[1].value == Text("B") && r.value[2].value == Text("A")
    ensures var r := Run(Token1, "lemma/testFS", Options(false, true, true));
            r.Success? && |r.value| == 2 && r.value[0].value == Text("A") && r.value[1].value == Text("B")
  {
    assert "lemma/testFS" == "lemma" + "/" + "testFS";
    SplitTwo("lemma", "testFS");
    DocumentWellFormed();
    var g := Document;
    var abA := [Text("A"), Text("B"), Text("A")];
    assert g.nodes[Token1].fields["lemma"] == Ref(Lemma1);
    assert g.nodes[Lemma1].fields["testFS"] == PrimArray(abA);
    assert ["lemma", "testFS"][1..] == ["testFS"];
    var items := [Val(Text("A")), Val(Text("B")), Val(Text("A"))];
    assert Vals(abA) == items by {
      assert Vals(abA[2..]) == [Val(Text("A"))];
      assert Vals(abA[1..]) == [Val(Text("B")), Val(Text("A"))];
    }
    assert Walk(g, Token1, ["lemma", "testFS"], false, true) == items;
    assert Walk(g, Token1, ["lemma", "testFS"], false, false) == [Val(Text("A"))];
    RenderABA();
    DistinctABA();
    assert Values(g, Token1, "lemma/testFS", Options(false, true, true)) == Success([Text("A"), Text("B")]);
  }

  lemma RenderABA()
    ensures Render(DocumentText, [Val(Text("A"))]) == Success([Text("A")])
    ensures Render(DocumentText, [Val(Text("A")), Val(Text("B")), Val(Text("A"))])
         == Success([Text("A"), Text("B"), Text("A")])
  {
    RenderEach(DocumentText, [Val(Text("A"))], [Text("A")]);
    RenderEach(DocumentText, [Val(Text("A")), Val(Text("B")), Val(Text("A"))], [Text("A"), Text("B"), Text("A")]);
  }

  lemma DistinctABA()
    ensures Distinct([Text("A"), Text("B"), Text("A")]) == [Text("A"), Text("B")]
  {
    var abA := [Text("A"), Text("B"), Text("A")];
    assert abA[..2][..1] == [Text("A")];
    assert abA[..2] == [Text("A"), Text("B")];
    assert abA[..|abA| - 1] == [Text("A"), Text("B")];
  }

  /** Each dependency relation of the third token has one head token. */
  lemma HeadsOfToken3(ta: bool)
    ensures WellFormed(Document)
    ensures Document.nodes[Token3].fields["depRel"] == RefArray([DepRel1, DepRel2])
    ensures Document.nodes[DepRel1].fields["head"] == Ref(Token1)
    ensures Document.nodes[DepRel2].fields["head"] == Ref(Token2)
  {
    DocumentWellFormed();
  }

  /** The spans of the heads reached through "depRel/head" from the third token. */
  lemma HeadWalk(ta: bool, ra: bool)
    ensures WellFormed(Document)
    ensures Walk(Document, Token3, ["depRel", "head"], ta, ra)
         == if ta then [Covered(0, 8), Covered(9, 11)] else [Covered(0, 8)]
  {
    HeadsOfToken3(ta);
    var g := Document;
    var w, i := Covered(0, 8), Covered(9, 11);
    assert Walk(g, DepRel1, ["head"], ta, ra) == [w];
    assert Walk(g, DepRel2, ["head"], ta, ra) == [i];
    WalkThroughArray(g, Token3, "depRel", ["head"], [DepRel1, DepRel2], ta, ra);
    assert ["depRel"] + ["head"] == ["depRel", "head"];
    if ta {
      WalkAllOfTwo(g, DepRel1, DepRel2, ["head"], ta, ra);
    } else {
      WalkIsWalkAllOfOne(g, DepRel1, ["head"], ta, ra);
    }
  }

  /** The texts the two head tokens cover. */
  lemma HeadTexts()
    ensures Render(DocumentText, [Covered(0, 8), Covered(9, 11)]) == Success([Text("Wwwwwwww"), Text("ii")])
  {
    CoveredToken1();
    assert |DocumentText| == 123;
    assert DocumentText[9] == 'i' && DocumentText[10] == 'i';
    assert DocumentText[9..11] == "ii";
    assert RenderOne(DocumentText, Covered(0, 8)) == Success(Text("Wwwwwwww"));
    assert RenderOne(DocumentText, Covered(9, 11)) == Success(Text("ii"));
    RenderEach(DocumentText, [Covered(0, 8), Covered(9, 11)], [Text("Wwwwwwww"), Text("ii")]);
  }

  lemma {:induction false} IntermediateFSArrayHead()
    ensures var r := Run(Token3, "depRel/head", DefaultOptions);
            r.Success? && |r.value| == 1 && r.value[0].value == Text("Wwwwwwww") && r.value[0].typePath == "depRel/head"
    ensures var r := Run(Token3, "depRel/head", Options(true, true, true));
            && r.Success? && |r.value| == 2
            && r.value[0].value == Text("Wwwwwwww") && r.value[0].typePath == "depRel/head"
            && r.value[1].value == Text("ii") && r.value[1].typePath == "depRel/head"
  {
    assert "depRel/head" == "depRel" + "/" + "head";
    SplitTwo("depRel", "head");
    HeadWalk(true, true);
    HeadWalk(false, false);
    HeadTexts();
    RenderToken1Span();
    var w, i := Text("Wwwwwwww"), Text("ii");
    DistinctOfDistinct([w, i]);
    assert Values(Document, Token3, "depRel/head", Options(true, true, true)) == Success([w, i]);
    assert Values(Document, Token3, "depRel/head", DefaultOptions) == Success([w]);
  }

  lemma PathDepRelHeadPosTagValue()
    ensures Split("depRel/head/posTag/value") == ["depRel", "head", "posTag", "value"]
  {
    assert "depRel/head/posTag/value" == "depRel" + "/" + "head" + "/" + "posTag" + "/" + "value";
    SplitFour("depRel", "head", "posTag", "value");
  }

  /** The tag values reached from each head token. */
  lemma TagValuesOfHeads(ta: bool, ra: bool)
    ensures WellFormed(Document)
    ensures Walk(Document, Token1, ["posTag", "value"], ta, ra)
         == if ta then [Val(Text("pos1")), Val(Text("pos2"))] else [Val(Text("pos1"))]
    ensures Walk(Document, Token2, ["posTag", "value"], ta, ra) == [Val(Text("pos3"))]
  {
    TagValuesOfToken1(ta, ra);
    TagValuesOfToken2(ta, ra);
  }

  /** Each part-of-speech tag's `value`. */
  lemma PosTagValues(ta: bool, ra: bool)
    ensures WellFormed(Document)
    ensures Walk(Document, PosTag1, ["value"], ta, ra) == [Val(Text("pos1"))]
    ensures Walk(Document, PosTag2, ["value"], ta, ra) == [Val(Text("pos2"))]
    ensures Walk(Document, PosTag3, ["value"], ta, ra) == [Val(Text("pos3"))]
  {
    DocumentWellFormed();
  }

  lemma TagValuesOfToken1(ta: bool, ra: bool)
    ensures WellFormed(Document)
    ensures Walk(Document, Token1, ["posTag", "value"], ta, ra)
         == if ta then [Val(Text("pos1")), Val(Text("pos2"))] else [Val(Text("pos1"))]
  {
    PosTagValues(ta, ra);
    var g := Document;
    assert g.nodes[Token1].fields["posTag"] == RefArray([PosTag1, PosTag2]);
    assert ["posTag"] + ["value"] == ["posTag", "value"];
    if ta {
      WalkThroughPair(g, Token1, "posTag", ["value"], PosTag1, PosTag2, ra);
    } else {
      WalkThroughArray(g, Token1, "posTag", ["value"], [PosTag1, PosTag2], ta, ra);
      WalkIsWalkAllOfOne(g, PosTag1, ["value"], ta, ra);
    }
  }

  lemma TagValuesOfToken2(ta: bool, ra: bool)
    ensures WellFormed(Document)
    ensures Walk(Document, Token2, ["posTag", "value"], ta, ra) == [Val(Text("pos3"))]
  {
    PosTagValues(ta, ra);
    var g := Document;
    assert g.nodes[Token2].fields["posTag"] == RefArray([PosTag3]);
    assert ["posTag"] + ["value"] == ["posTag", "value"];
    WalkThroughArray(g, Token2, "posTag", ["value"], [PosTag3], ta, ra);
    assert Select([PosTag3], ta) == [PosTag3];
    WalkIsWalkAllOfOne(g, PosTag3, ["value"], ta, ra);
  }

  /** The values of "head/posTag/value" from each dependency relation of the third token. */
  lemma TagValuesThroughHeads(ta: bool, ra: bool)
    ensures WellFormed(Document)
    ensures Walk(Document, DepRel1, ["head", "posTag", "value"], ta, ra)
         == if ta then [Val(Text("pos1")), Val(Text("pos2"))] else [Val(Text("pos1"))]
    ensures Walk(Document, DepRel2, ["head", "posTag", "value"], ta, ra) == [Val(Text("pos3"))]
  {
    HeadsOfToken3(ta);
    TagValuesOfHeads(ta, ra);
    assert ["head"] + ["posTag", "value"] == ["head", "posTag", "value"];
    WalkThroughRef(Document, DepRel1, "head", ["posTag", "value"], Token1, ta, ra);
    WalkThroughRef(Document, DepRel2, "head", ["posTag", "value"], Token2, ta, ra);
  }

  /** The values of "depRel/head/posTag/value" from the third token, before `uniqueValues`. */
  lemma FanOutWalk(ta: bool, ra: bool)
    ensures WellFormed(Document)
    ensures Walk(Document, Token3, ["depRel", "head", "posTag", "value"], ta, ra)
         == if ta then [Val(Text("pos1")), Val(Text("pos2")), Val(Text("pos3"))] else [Val(Text("pos1"))]
  {
    if ta {
      FanOutWalkAll(ra);
    } else {
      FanOutWalkFirst(ra);
    }
  }

  lemma FanOutWalkAll(ra: bool)
    ensures WellFormed(Document)
    ensures Walk(Document, Token3, ["depRel", "head", "posTag", "value"], true, ra)
         == [Val(Text("pos1")), Val(Text("pos2")), Val(Text("pos3"))]
  {
    HeadsOfToken3(true);
    TagValuesThroughHeads(true, ra);
    var rest := ["head", "posTag", "value"];
    var path := ["depRel"] + rest;
    assert path == ["depRel", "head", "posTag", "value"];
    WalkThroughPair(Document, Token3, "depRel", rest, DepRel1, DepRel2, ra);
    var x := [Val(Text("pos1")), Val(Text("pos2"))];
    var y := [Val(Text("pos3"))];
    assert Walk(Document, Token3, path, true, ra) == x + y;
    assert x + y == [Val(Text("pos1")), Val(Text("pos2")), Val(Text("pos3"))];
  }

  lemma FanOutWalkFirst(ra: bool)
    ensures WellFormed(Document)
    ensures Walk(Document, Token3, ["depRel", "head", "posTag", "value"], false, ra) == [Val(Text("pos1"))]
  {
    HeadsOfToken3(false);
    TagValuesThroughHeads(false, ra);
    var rest := ["head", "posTag", "value"];
    assert ["depRel"] + rest == ["depRel", "head", "posTag", "value"];
    WalkThroughArray(Document, Token3, "depRel", rest, [DepRel1, DepRel2], false, ra);
    WalkIsWalkAllOfOne(Document, DepRel1, rest, false, ra);
  }

  /** Fanning out over both intermediate FSArrays reaches the three part-of-speech tags. */
  lemma {:induction false} IntermediateFSArrayFanOut(ra: bool)
    ensures var r := Run(Token3, "depRel/head/posTag/value", Options(true, ra, true));
            && r.Success? && |r.value| == 3
            && r.value[0].value == Text("pos1") && r.value[1].value == Text("pos2") && r.value[2].value == Text("pos3")
  {
    PathDepRelHeadPosTagValue();
    FanOutWalk(true, ra);
    var p123 := [Text("pos1"), Text("pos2"), Text("pos3")];
    RenderTags();
    DistinctTags();
    assert Values(Document, Token3, "depRel/head/posTag/value", Options(true, ra, true)) == Success(p123);
  }

  lemma RenderTags()
    ensures Render(DocumentText, [Val(Text("pos1"))]) == Success([Text("pos1")])
    ensures Render(DocumentText, [Val(Text("pos1")), Val(Text("pos2")), Val(Text("pos3"))])
         == Success([Text("pos1"), Text("pos2"), Text("pos3")])
  {
    RenderEach(DocumentText, [Val(Text("pos1"))], [Text("pos1")]);
    RenderEach(DocumentText, [Val(Text("pos1")), Val(Text("pos2")), Val(Text("pos3"))],
               [Text("pos1"), Text("pos2"), Text("pos3")]);
  }

  lemma DistinctTags()
    ensures Distinct([Text("pos1"), Text("pos2"), Text("pos3")]) == [Text("pos1"), Text("pos2"), Text("pos3")]
  {
    var p123 := [Text("pos1"), Text("pos2"), Text("pos3")];
    assert "pos1" != "pos2" && "pos1" != "pos3" && "pos2" != "pos3" by {
      assert "pos1"[3] != "pos2"[3] && "pos1"[3] != "pos3"[3] && "pos2"[3] != "pos3"[3];
    }
    DistinctOfDistinct(p123);
  }

  /** Without `traverseAllPaths` only the first relation, and its head's first tag, are followed. */
  lemma {:induction false} IntermediateFSArrayFirstOnly(ra: bool)
    ensures var r := Run(Token3, "depRel/head/posTag/value", Options(false, ra, true));
            r.Success? && |r.value| == 1 && r.value[0].value == Text("pos1")
  {
    PathDepRelHeadPosTagValue();
    FanOutWalk(false, ra);
    RenderTags();
    assert Distinct([Text("pos1")]) == [Text("pos1")];
    assert Values(Document, Token3, "depRel/head/posTag/value", Options(false, ra, true)) == Success([Text("pos1")]);
  }

  // ---------------------------------------------------------------------------
  // testIsValidatePath and testIsValidType

  /** PosTag is declared as a subtype of Annotation. */
  lemma PosTagIsAnnotation()
    ensures TestSchema[PosTagType].supertype == AnnotationType
  {
  }

  lemma {:induction false} ValidPathFromPosTag()
    ensures IsValidPath(TestSchema, PosTagType, "value")
  {
    SplitNoSlash("value");
    assert "value" in TestSchema[PosTagType].features;
  }

  lemma {:induction false} ValidPathFromHeader()
    ensures IsValidPath(TestSchema, HeaderType, "authors/lastName")
  {
    assert "authors/lastName" == "authors" + "/" + "lastName";
    SplitTwo("authors", "lastName");
    assert TestSchema[HeaderType].features["authors"] == ArrayOf(AuthorType);
    assert "lastName" in TestSchema[AuthorType].features;
    assert ValidSegments(TestSchema, AuthorType, ["lastName"]);
    assert ["authors", "lastName"][1..] == ["lastName"];
  }

  /** An Author has a `lastName` feature but no `lastNames`. */
  lemma {:induction false} InvalidPathFromHeader()
    ensures !IsValidPath(TestSchema, HeaderType, "authors/lastNames")
  {
    assert "authors/lastNames" == "authors" + "/" + "lastNames";
    SplitTwo("authors", "lastNames");
    assert TestSchema[HeaderType].features["authors"] == ArrayOf(AuthorType);
    assert "lastNames" !in TestSchema[AuthorType].features;
    assert !ValidSegments(TestSchema, AuthorType, ["lastNames"]);
    assert ["authors", "lastNames"][1..] == ["lastNames"];
  }

  lemma {:induction false} ValidPathsThroughPosTag()
    ensures IsValidPath(TestSchema, TokenType, "posTag/language")
    ensures IsValidPath(TestSchema, TokenType, "posTag")
  {
    assert "posTag/language" == "posTag" + "/" + "language";
    SplitTwo("posTag", "language");
    SplitNoSlash("posTag");
    assert TestSchema[TokenType].features["posTag"] == ArrayOf(PosTagType);
    assert "language" in TestSchema[PosTagType].features;
    assert ValidSegments(TestSchema, PosTagType, ["language"]);
    assert ["posTag", "language"][1..] == ["language"];
  }

  /** The `depRel` relations of a Token and the `head` Token of a relation. */
  lemma DepRelDeclared()
    ensures TokenType in TestSchema && DependencyRelationType in TestSchema
    ensures TestSchema[TokenType].features["depRel"] == ArrayOf(DependencyRelationType)
    ensures TestSchema[DependencyRelationType].features["head"] == Single(TokenType)
    ensures "projective" in TestSchema[DependencyRelationType].features
    ensures "orthogr" in TestSchema[TokenType].features
    ensures "projective" !in TestSchema[TokenType].features
  {
  }

  lemma PathDepRelProjective()
    ensures Split("depRel/projective") == ["depRel", "projective"]
  {
    assert "depRel/projective" == "depRel" + "/" + "projective";
    SplitTwo("depRel", "projective");
  }

  lemma PathDepRelHeadDepRelProjective()
    ensures Split("depRel/head/depRel/projective") == ["depRel", "head", "depRel", "projective"]
  {
    assert "depRel/head/depRel/projective" == "depRel" + "/" + "head" + "/" + "depRel" + "/" + "projective";
    SplitFour("depRel", "head", "depRel", "projective");
  }

  lemma PathDepRelHeadProjective()
    ensures Split("depRel/head/projective") == ["depRel", "head", "projective"]
  {
    assert "depRel/head/projective" == "depRel" + "/" + "head" + "/" + "projective";
    SplitThree("depRel", "head", "projective");
  }

  lemma ProjectiveOfDepRel()
    ensures ValidSegments(TestSchema, DependencyRelationType, ["projective"])
  {
    DepRelDeclared();
  }

  /** Validation continues from the element type of an FSArray feature. */
  lemma {:induction false} ValidPathThroughDepRel()
    ensures IsValidPath(TestSchema, TokenType, "depRel/projective")
  {
    PathDepRelProjective();
    ProjectiveOfDepRel();
    assert ["depRel", "projective"][1..] == ["projective"];
    DepRelSegments(["depRel", "projective"]);
  }

  lemma {:induction false} DepRelSegments(segs: seq<string>)
    requires |segs| >= 2 && segs[0] == "depRel" && ValidSegments(TestSchema, DependencyRelationType, segs[1..])
    ensures ValidSegments(TestSchema, TokenType, segs)
  {
    DepRelDeclared();
  }

  lemma PathDepRelHeadOrthogr()
    ensures Split("depRel/head/orthogr") == ["depRel", "head", "orthogr"]
  {
    assert "depRel/head/orthogr" == "depRel" + "/" + "head" + "/" + "orthogr";
    SplitThree("depRel", "head", "orthogr");
  }

  lemma {:induction false} ThroughHeadSegments()
    ensures ValidSegments(TestSchema, TokenType, ["depRel", "head", "orthogr"])
  {
    DepRelDeclared();
    var segs := ["depRel", "head", "orthogr"];
    assert ValidSegments(TestSchema, TokenType, segs[2..]);
    assert segs[1..][1..] == segs[2..];
    assert ValidSegments(TestSchema, DependencyRelationType, segs[1..]);
    DepRelSegments(segs);
  }

  lemma {:induction false} ValidPathThroughHead()
    ensures IsValidPath(TestSchema, TokenType, "depRel/head/orthogr")
  {
    PathDepRelHeadOrthogr();
    ThroughHeadSegments();
  }

  lemma {:induction false} BackToDepRelSegments()
    ensures ValidSegments(TestSchema, TokenType, ["depRel", "head", "depRel", "projective"])
  {
    var segs := ["depRel", "head", "depRel", "projective"];
    ProjectiveOfDepRel();
    assert segs[3..] == ["projective"];
    assert segs[2..][1..] == segs[3..];
    DepRelSegments(segs[2..]);
    assert segs[1..][1..] == segs[2..];
    DepRelDeclared();
    assert ValidSegments(TestSchema, DependencyRelationType, segs[1..]);
    DepRelSegments(segs);
  }

  lemma {:induction false} ValidPathBackToDepRel()
    ensures IsValidPath(TestSchema, TokenType, "depRel/head/depRel/projective")
  {
    PathDepRelHeadDepRelProjective();
    BackToDepRelSegments();
  }

  /** A Token, reached through `head`, has no `projective` feature. */
  lemma {:induction false} InvalidPathThroughHead()
    ensures !IsValidPath(TestSchema, TokenType, "depRel/head/projective")
  {
    PathDepRelHeadProjective();
    DepRelDeclared();
    var segs := ["depRel", "head", "projective"];
    assert !ValidSegments(TestSchema, TokenType, segs[2..]);
    assert segs[1..][1..] == segs[2..];
    assert !ValidSegments(TestSchema, DependencyRelationType, segs[1..]);
  }

  lemma ValidTypes()
    ensures IsValidType(TestSchema, PosTagType)
    ensures IsValidType(TestSchema, TokenType)
    ensures IsValidType(TestSchema, LanguageType)
    ensures IsValidType(TestSchema, StringType)
    ensures IsValidType(TestSchema, "uima.cas.Integer")
  {
  }

  /** Every feature of the test type system ranges over a type that passes `isValidType`. */
  lemma TestRangesValid()
    ensures RangesValid(TestSchema)
  {
    forall t, f | t in TestSchema && f in TestSchema[t].features
      ensures IsValidType(TestSchema, Target(TestSchema[t].features[f]))
    {
      RangeValidAt(t, f);
    }
  }

  /** The range types the test type system uses. */
  predicate UsedRange(r: Range) {
    Target(r) in {StringType, "uima.cas.Integer", "uima.cas.Boolean",
                  TokenType, LemmaType, PosTagType, DependencyRelationType, AuthorType, LanguageType}
  }

  lemma RangeValidAt(t: string, f: string)
    requires t in TestSchema && f in TestSchema[t].features
    ensures IsValidType(TestSchema, Target(TestSchema[t].features[f]))
  {
    RangesUsed(t, f);
    assert StringType in PrimitiveTypes && "uima.cas.Integer" in PrimitiveTypes && "uima.cas.Boolean" in PrimitiveTypes;
    assert TestSchema[LemmaType].hasJCasClass && TestSchema[DependencyRelationType].hasJCasClass;
    assert TestSchema[AuthorType].hasJCasClass;
    ValidTypes();
  }

  lemma RangesUsed(t: string, f: string)
    requires t in TestSchema && f in TestSchema[t].features
    ensures UsedRange(TestSchema[t].features[f])
  {
    if t == TokenType {
    } else if t == LemmaType {
    } else if t == PosTagType {
    } else if t == DependencyRelationType {
    } else if t == HeaderType {
    } else {
      // Author; Language declares no features
    }
  }

  lemma NodeConformsToken1()
    ensures NodeConforms(TestSchema, Document, Document.nodes[Token1])
  {
  }

  lemma NodeConformsLemma1()
    ensures NodeConforms(TestSchema, Document, Document.nodes[Lemma1])
  {
  }

  lemma NodeConformsPosTag1()
    ensures NodeConforms(TestSchema, Document, Document.nodes[PosTag1])
  {
  }

  lemma NodeConformsPosTag2()
    ensures NodeConforms(TestSchema, Document, Document.nodes[PosTag2])
  {
  }

  lemma NodeConformsToken2()
    ensures NodeConforms(TestSchema, Document, Document.nodes[Token2])
  {
  }

  lemma NodeConformsPosTag3()
    ensures NodeConforms(TestSchema, Document, Document.nodes[PosTag3])
  {
  }

  lemma NodeConformsToken3()
    ensures NodeConforms(TestSchema, Document, Document.nodes[Token3])
  {
  }

  lemma NodeConformsDepRel1()
    ensures NodeConforms(TestSchema, Document, Document.nodes[DepRel1])
  {
  }

  lemma NodeConformsDepRel2()
    ensures NodeConforms(TestSchema, Document, Document.nodes[DepRel2])
  {
  }

  /** Node `n` of the document respects the test type system. */
  lemma NodeConformsAt(n: nat)
    requires n < |Document.nodes|
    ensures NodeConforms(TestSchema, Document, Document.nodes[n])
  {
    if n == Token1 { NodeConformsToken1(); }
    else if n == Lemma1 { NodeConformsLemma1(); }
    else if n == PosTag1 { NodeConformsPosTag1(); }
    else if n == PosTag2 { NodeConformsPosTag2(); }
    else if n == Token2 { NodeConformsToken2(); }
    else if n == PosTag3 { NodeConformsPosTag3(); }
    else if n == Token3 { NodeConformsToken3(); }
    else if n == DepRel1 { NodeConformsDepRel1(); }
    else { NodeConformsDepRel2(); }
  }

  /** The document graph respects the test type system. */
  lemma DocumentConforms()
    ensures WellFormed(Document) && Conforms(TestSchema, Document)
  {
    DocumentWellFormed();
    forall n | 0 <= n < |Document.nodes| ensures NodeConforms(TestSchema, Document, Document.nodes[n]) {
      NodeConformsAt(n);
    }
  }

  /** A path that validation rejects for Token yields no features from the third token, under any flags. */
  lemma {:induction false} RejectedPathYieldsNothing(opt: Options)
    ensures Run(Token3, "depRel/head/projective", opt) == Success([])
  {
    RejectedPathValues(opt);
  }

  lemma RejectedPathValues(opt: Options)
    ensures WellFormed(Document)
    ensures Values(Document, Token3, "depRel/head/projective", opt) == Success([])
  {
    DocumentConforms();
    TestRangesValid();
    InvalidPathThroughHead();
    InvalidPathYieldsNothing(TestSchema, Document, Token3, "depRel/head/projective", opt);
  }

  // ---------------------------------------------------------------------------
  // testTicket23: a single-segment path over a String feature, and the feature name

  const Ticket23Text := "wide .\nThis place was a tolerable long ,"

  const Ticket23 := Graph(Ticket23Text, [
    Annotation(TokenType, 12, 17, map["pos" := Prim(Text("A"))]),
    Annotation(TokenType, 7, 11, map["pos" := Prim(Text("B"))])
  ])

  lemma {:induction false} PosFeatureName()
    ensures WellFormed(Ticket23)
    ensures Ticket23Text[12..17] == "place"
    ensures var r := Extract(Ticket23, 0, Extractor("pos", DefaultOptions));
            r.Success? && |r.value| == 1 && r.value[0].value == Text("A") && r.value[0].name == "TypePath(Pos)"
    ensures var r := Extract(Ticket23, 1, Extractor("pos", DefaultOptions));
            r.Success? && |r.value| == 1 && r.value[0].value == Text("B") && r.value[0].name == "TypePath(Pos)"
  {
    PlaceText();
    Ticket23WellFormed();
    PosName();
    SplitNoSlash("pos");
    assert Walk(Ticket23, 0, ["pos"], false, false) == [Val(Text("A"))];
    assert Walk(Ticket23, 1, ["pos"], false, false) == [Val(Text("B"))];
    RenderEach(Ticket23Text, [Val(Text("A"))], [Text("A")]);
    RenderEach(Ticket23Text, [Val(Text("B"))], [Text("B")]);
  }

  lemma PlaceText()
    ensures Ticket23Text[12..17] == "place"
  {
    var t := Ticket23Text;
    assert |t| == 40;
    assert t[12] == 'p' && t[13] == 'l' && t[14] == 'a' && t[15] == 'c' && t[16] == 'e';
  }

  lemma Ticket23WellFormed()
    ensures WellFormed(Ticket23)
  {
  }

  lemma PosName()
    ensures FeatureName("pos") == "TypePath(Pos)"
  {
    SplitNoSlash("pos");
    assert Capitalize("pos") == "Pos";
  }

  // ---------------------------------------------------------------------------
  // A span outside the text, as when the text comes from another view

  const ShortText := "wide ."

  const Misplaced := Graph(ShortText, [
    Annotation(TokenType, 0, 4, map["lemma" := Ref(1)]),
    Annotation(LemmaType, 12, 17, map["value" := Prim(Text("place"))])
  ])

  lemma MisplacedWellFormed()
    ensures WellFormed(Misplaced)
  {
  }

  /** Reading the covered text of a lemma annotation whose span lies outside the text fails with that span. */
  lemma {:induction false} SpanOutsideTextFails()
    ensures WellFormed(Misplaced)
    ensures Extract(Misplaced, 0, Extractor("lemma", DefaultOptions)) == Failure(IndexOutOfBounds(12, 17, 6))
  {
    MisplacedWellFormed();
    assert |ShortText| == 6;
    SplitNoSlash("lemma");
    assert Walk(Misplaced, 0, ["lemma"], false, false) == [Covered(12, 17)];
    assert !Renders(ShortText, Covered(12, 17));
    var k := RenderFailsAtFirstBadSpan(ShortText, [Covered(12, 17)]);
  }

  /** A primitive feature of the same misplaced lemma is still read. */
  lemma {:induction false} PrimitiveOfMisplacedSpan()
    ensures WellFormed(Misplaced)
    ensures var r := Extract(Misplaced, 0, Extractor("lemma/value", DefaultOptions));
            r.Success? && |r.value| == 1 && r.value[0].value == Text("place")
  {
    MisplacedWellFormed();
    assert "lemma/value" == "lemma" + "/" + "value";
    SplitTwo("lemma", "value");
    assert ["lemma", "value"][1..] == ["value"];
    assert Walk(Misplaced, 0, ["lemma", "value"], false, false) == [Val(Text("place"))];
    RenderEach(ShortText, [Val(Text("place"))], [Text("place")]);
  }
}
