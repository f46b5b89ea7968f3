/**
 * Schema-level checks of `TypePathExtractor`: `isValidPath` walks a path over the
 * declared features of types, without any document, and `isValidType` says which
 * types can end a path.
 */
module TypeSchema {
  import opened Wrappers
  import opened TypePath

  /** The declared range of a feature: one value of a type, or an array of a type. */
  datatype Range = Single(typeName: string) | ArrayOf(elementType: string)

  /** The type a path continues from after a feature: for an array, its element type. */
  function Target(r: Range): string {
    match r
    case Single(t) => t
    case ArrayOf(t) => t
  }

  /** A declared type: its supertype, whether a JCas class exists for it, and its features. */
  datatype TypeDecl = TypeDecl(supertype: string, hasJCasClass: bool, features: map<string, Range>)

  type Schema = map<string, TypeDecl>

  const StringType := "uima.cas.String"

  /** The primitive types of the type system. */
  const PrimitiveTypes: set<string> := {
    "uima.cas.Boolean", "uima.cas.Byte", "uima.cas.Short", "uima.cas.Integer",
    "uima.cas.Long", "uima.cas.Float", "uima.cas.Double", "uima.cas.String"
  }

  /**
   * `isValidType`: a primitive type, a subtype of String (no JCas class is generated
   * for those), or a declared type that has a JCas class.
   */
  predicate IsValidType(schema: Schema, t: string)
    ensures t in PrimitiveTypes ==> IsValidType(schema, t)
    ensures t in schema && schema[t].supertype == StringType ==> IsValidType(schema, t)
    ensures t in schema && schema[t].hasJCasClass ==> IsValidType(schema, t)
    ensures IsValidType(schema, t) ==> t in PrimitiveTypes || t in schema
  {
    || t in PrimitiveTypes
    || (t in schema && (schema[t].supertype == StringType || schema[t].hasJCasClass))
  }

  /**
   * Every segment names a feature of the type the previous segments lead to, and
   * the type the last segment leads to passes `isValidType`.
   */
  predicate ValidSegments(schema: Schema, t: string, segs: seq<string>)
    decreases |segs|
  {
    && segs != []
    && t in schema
    && segs[0] in schema[t].features
    && var next := Target(schema[t].features[segs[0]]);
       if |segs| == 1 then IsValidType(schema, next) else ValidSegments(schema, next, segs[1..])
  }

  /** The type a valid run of segments leads to: the range type of its last feature. */
  function EndType(schema: Schema, t: string, segs: seq<string>): string
    requires ValidSegments(schema, t, segs)
    decreases |segs|
  {
    var next := Target(schema[t].features[segs[0]]);
    if |segs| == 1 then next else EndType(schema, next, segs[1..])
  }

  /** Every valid run of segments ends on a type that passes `isValidType`. */
  lemma {:induction false} ValidSegmentsEndOnValidType(schema: Schema, t: string, segs: seq<string>)
    requires ValidSegments(schema, t, segs)
    ensures IsValidType(schema, EndType(schema, t, segs))
    decreases |segs|
  {
    if |segs| > 1 {
      ValidSegmentsEndOnValidType(schema, Target(schema[t].features[segs[0]]), segs[1..]);
    }
  }

  /** `isValidPath`: the path string, split at `/`, is valid from type `t`. */
  predicate IsValidPath(schema: Schema, t: string, path: string)
    ensures IsValidPath(schema, t, path) ==> t in schema && Split(path)[0] in schema[t].features
  {
    ValidSegments(schema, t, Split(path))
  }

  /**
   * A path without `/` is valid exactly when the type declares a feature of that
   * name whose range type passes `isValidType`.
   */
  lemma ValidSingleSegment(schema: Schema, t: string, path: string)
    requires '/' !in path
    ensures IsValidPath(schema, t, path) <==>
      t in schema && path in schema[t].features && IsValidType(schema, Target(schema[t].features[path]))
  {
    SplitNoSlash(path);
  }

  // ---------------------------------------------------------------------------
  // Graphs that respect a schema

  /** Every declared feature ranges over a type that passes `isValidType`. */
  predicate RangesValid(schema: Schema) {
    forall t, f :: t in schema && f in schema[t].features ==> IsValidType(schema, Target(schema[t].features[f]))
  }

  predicate FieldConforms(g: Graph, f: Field, r: Range) {
    match f
    case Prim(_) => r.Single?
    case PrimArray(_) => r.ArrayOf?
    case Ref(t) => t < |g.nodes| && r == Single(g.nodes[t].typeName)
    case RefArray(ts) =>
      && r.ArrayOf?
      && forall i :: 0 <= i < |ts| ==> ts[i] < |g.nodes| && g.nodes[ts[i]].typeName == r.elementType
  }

  predicate NodeConforms(schema: Schema, g: Graph, node: Node) {
    && node.typeName in schema
    && forall f :: f in node.fields ==>
         f in schema[node.typeName].features
         && FieldConforms(g, node.fields[f], schema[node.typeName].features[f])
  }

  /**
   * Every node has a declared type, every slot a declared feature of that type,
   * and every referenced node exactly the declared range type.
   */
  predicate Conforms(schema: Schema, g: Graph) {
    forall n :: 0 <= n < |g.nodes| ==> NodeConforms(schema, g, g.nodes[n])
  }

  /**
   * Over a schema whose feature ranges all pass `isValidType`, a traversal that
   * reaches any item followed a path that validation accepts.
   */
  lemma {:induction false} WalkNeedsValidPath(schema: Schema, g: Graph, n: nat, path: seq<string>, ta: bool, ra: bool)
    requires WellFormed(g) && Conforms(schema, g) && RangesValid(schema) && n < |g.nodes| && path != []
    ensures Walk(g, n, path, ta, ra) != [] ==> ValidSegments(schema, g.nodes[n].typeName, path)
    decreases |path|, 0
  {
    var node := g.nodes[n];
    assert NodeConforms(schema, g, node);
    if |path| > 1 && path[0] in node.fields {
      match node.fields[path[0]]
      case Ref(t) => WalkNeedsValidPath(schema, g, t, path[1..], ta, ra);
      case RefArray(ts) =>
        WalkAllNeedsValidPath(schema, g, Select(ts, ta), path[1..], ta, ra,
                              Target(schema[node.typeName].features[path[0]]));
      case _ =>
    }
  }

  lemma {:induction false} WalkAllNeedsValidPath(schema: Schema, g: Graph, ns: seq<nat>, path: seq<string>,
                                                 ta: bool, ra: bool, t: string)
    requires WellFormed(g) && Conforms(schema, g) && RangesValid(schema) && InGraph(g, ns) && path != []
    requires forall i :: 0 <= i < |ns| ==> g.nodes[ns[i]].typeName == t
    ensures WalkAll(g, ns, path, ta, ra) != [] ==> ValidSegments(schema, t, path)
    decreases |path|, |ns| + 1
  {
    if ns != [] {
      WalkNeedsValidPath(schema, g, ns[0], path, ta, ra);
      WalkAllNeedsValidPath(schema, g, ns[1..], path, ta, ra, t);
    }
  }

  /**
   * Over a schema whose feature ranges all pass `isValidType`, an extractor whose
   * path fails `isValidPath` for the focus type yields no values, and no error.
   */
  lemma InvalidPathYieldsNothing(schema: Schema, g: Graph, focus: nat, path: string, opt: Options)
    requires WellFormed(g) && Conforms(schema, g) && RangesValid(schema) && focus < |g.nodes|
    requires !IsValidPath(schema, g.nodes[focus].typeName, path)
    ensures Values(g, focus, path, opt) == Success([])
  {
    WalkNeedsValidPath(schema, g, focus, Split(path), opt.traverseAllPaths, opt.returnAllValues);
  }
}
