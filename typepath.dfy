/**
 * The type-path extractor of `TypePathExtractor`: follow a `/`-separated path of
 * feature names from a focus annotation through the annotation graph and return
 * the leaf values it reaches, under three flags.
 *
 * The graph is immutable: an annotation is a node with a type name, a span
 * `[begin, end)` into the document text and named feature slots.  A slot holds a
 * primitive value, a primitive array, a reference to another node, or an array of
 * references (an `FSArray`).  Nodes are addressed by their index in `nodes`.
 *
 * The traversal yields items: primitive values, and the spans of the annotations
 * it ends on.  Rendering then reads the covered text of each span with
 * `String.substring`, which fails for a span outside the document text.
 */
module TypePath {
  import opened Wrappers
  import opened Features

  datatype Field =
    | Prim(v: Value)              // a primitive feature: String, Integer, Boolean, ...
    | PrimArray(vs: seq<Value>)   // a primitive array feature such as a StringArray
    | Ref(target: nat)            // a feature holding one annotation
    | RefArray(targets: seq<nat>) // an FSArray of annotations

  datatype Node = Node(typeName: string, begin: int, end: int, fields: map<string, Field>)

  datatype Graph = Graph(text: string, nodes: seq<Node>)

  /**
   * The extractor's three flags, in the order of its five-argument constructor.
   * traverseAllPaths: follow every element of an FSArray met before the last
   *   path segment, rather than only its first element.
   * returnAllValues: return every element of an array met at the last segment,
   *   rather than only its first element.
   * uniqueValues: keep only the first occurrence of each value.
   */
  datatype Options = Options(traverseAllPaths: bool, returnAllValues: bool, uniqueValues: bool)

  /** The flags of the two-argument constructor. */
  const DefaultOptions := Options(false, false, false)

  /** A configured extractor: the path string exactly as given, and its flags. */
  datatype Extractor = Extractor(path: string, options: Options)

  /** A `TypePathFeature`: its name, its value and the path string that produced it. */
  datatype TypePathFeature = TypePathFeature(name: string, value: Value, typePath: string)

  // ---------------------------------------------------------------------------
  // Well-formed graphs

  predicate InGraph(g: Graph, ns: seq<nat>) {
    forall i :: 0 <= i < |ns| ==> ns[i] < |g.nodes|
  }

  predicate FieldInGraph(g: Graph, f: Field) {
    match f
    case Ref(t) => t < |g.nodes|
    case RefArray(ts) => InGraph(g, ts)
    case _ => true
  }

  /** The `begin` and `end` slots of an annotation, when present, read its span. */
  predicate NodeWellFormed(g: Graph, node: Node) {
    && ("begin" in node.fields ==> node.fields["begin"] == Prim(Number(node.begin)))
    && ("end" in node.fields ==> node.fields["end"] == Prim(Number(node.end)))
    && forall f :: f in node.fields ==> FieldInGraph(g, node.fields[f])
  }

  /**
   * Every reference names a node of the graph, and the `begin` and `end` slots
   * agree with the span the covered text uses.  Spans are not required to lie
   * inside the text: one that does not makes the extraction fail.
   */
  predicate WellFormed(g: Graph) {
    forall n :: 0 <= n < |g.nodes| ==> NodeWellFormed(g, g.nodes[n])
  }

  /** Every annotation's span lies inside the document text. */
  predicate SpansInText(g: Graph) {
    forall n :: 0 <= n < |g.nodes| ==> InText(g.text, g.nodes[n].begin, g.nodes[n].end)
  }

  // ---------------------------------------------------------------------------
  // Items and their rendering

  /** What the traversal reaches: a primitive value, or the span of an annotation. */
  datatype Item = Val(v: Value) | Covered(begin: int, end: int)

  function Vals(vs: seq<Value>): (r: seq<Item>)
    ensures |r| == |vs|
  {
    if vs == [] then [] else [Val(vs[0])] + Vals(vs[1..])
  }

  /** The spans of the nodes `ns`, in order. */
  function Spans(g: Graph, ns: seq<nat>): (r: seq<Item>)
    requires InGraph(g, ns)
    ensures |r| == |ns|
  {
    if ns == [] then [] else [Covered(g.nodes[ns[0]].begin, g.nodes[ns[0]].end)] + Spans(g, ns[1..])
  }

  /** The item can be rendered: a value, or a span inside `text`. */
  predicate Renders(text: string, it: Item) {
    it.Covered? ==> InText(text, it.begin, it.end)
  }

  predicate AllRender(text: string, items: seq<Item>) {
    forall i :: 0 <= i < |items| ==> Renders(text, items[i])
  }

  /** One item as a value: a span becomes its covered text. */
  function RenderOne(text: string, it: Item): (r: Result<Value, SpanError>)
    ensures r.Success? <==> Renders(text, it)
    ensures it.Val? ==> r == Success(it.v)
    ensures it.Covered? && r.Success? ==>
      r.value.Text? && |r.value.s| == it.end - it.begin &&
      forall i :: 0 <= i < it.end - it.begin ==> r.value.s[i] == text[it.begin + i]
    ensures r.Failure? ==> r.error == IndexOutOfBounds(it.begin, it.end, |text|)
  {
    match it
    case Val(v) => Success(v)
    case Covered(b, e) =>
      match Substring(text, b, e)
      case Failure(err) => Failure(err)
      case Success(covered) => Success(Text(covered))
  }

  /**
   * The values of the items, in order; the first span outside the text fails the
   * whole extraction, as the exception thrown by `String.substring` would.
   */
  function Render(text: string, items: seq<Item>): (r: Result<seq<Value>, SpanError>)
    ensures r.Success? <==> AllRender(text, items)
    ensures r.Success? ==>
      && |r.value| == |items|
      && forall i :: 0 <= i < |items| ==> RenderOne(text, items[i]) == Success(r.value[i])
  {
    if items == [] then Success([])
    else
      match RenderOne(text, items[0])
      case Failure(e) => Failure(e)
      case Success(v) =>
        match Render(text, items[1..])
        case Failure(e) => Failure(e)
        case Success(rest) =>
          assert forall i :: 1 <= i < |items| ==> items[i] == items[1..][i - 1];
          Success([v] + rest)
  }

  /** Rendering succeeds, with these values, when each item renders to the value at its position. */
  lemma RenderEach(text: string, items: seq<Item>, vs: seq<Value>)
    requires |items| == |vs|
    requires forall i :: 0 <= i < |items| ==> RenderOne(text, items[i]) == Success(vs[i])
    ensures Render(text, items) == Success(vs)
  {
    forall i | 0 <= i < |items| ensures Renders(text, items[i]) {
      assert RenderOne(text, items[i]).Success?;
    }
    var r := Render(text, items);
    assert r.Success?;
    forall i | 0 <= i < |items| ensures r.value[i] == vs[i] {
      assert RenderOne(text, items[i]) == Success(r.value[i]);
    }
    assert r.value == vs;
  }

  /** A failed rendering reports the first span that lies outside the text. */
  lemma {:induction false} RenderFailsAtFirstBadSpan(text: string, items: seq<Item>) returns (k: nat)
    requires Render(text, items).Failure?
    ensures k < |items| && items[k].Covered? && !InText(text, items[k].begin, items[k].end)
    ensures forall j :: 0 <= j < k ==> Renders(text, items[j])
    ensures Render(text, items).error == IndexOutOfBounds(items[k].begin, items[k].end, |text|)
  {
    if !Renders(text, items[0]) {
      k := 0;
    } else {
      var j := RenderFailsAtFirstBadSpan(text, items[1..]);
      k := j + 1;
      assert items[k] == items[1..][j];
      assert forall i :: 1 <= i < k ==> items[i] == items[1..][i - 1];
    }
  }

  /** All of `s` when `all` holds, otherwise only its first element (if any). */
  function Select<T>(s: seq<T>, all: bool): (r: seq<T>)
    ensures |r| <= |s| && (all ==> |r| == |s|) && (!all ==> |r| <= 1) && (s != [] ==> r != [])
    ensures forall i :: 0 <= i < |r| ==> r[i] == s[i]
  {
    if all || s == [] then s else [s[0]]
  }

  // ---------------------------------------------------------------------------
  // Paths

  /** The segments of a path string, split at every `/`. */
  function Split(s: string): (r: seq<string>)
    ensures |r| >= 1
  {
    if s == [] then [[]]
    else
      var rest := Split(s[1..]);
      if s[0] == '/' then [[]] + rest
      else [[s[0]] + rest[0]] + rest[1..]
  }

  /** The path string of a sequence of segments. */
  function Join(segs: seq<string>): string
    requires segs != []
  {
    if |segs| == 1 then segs[0] else segs[0] + "/" + Join(segs[1..])
  }

  lemma {:induction false} JoinSplit(s: string)
    ensures Join(Split(s)) == s
  {
    if s != [] {
      var rest := Split(s[1..]);
      JoinSplit(s[1..]);
      if s[0] == '/' {
        assert Split(s) == [[]] + rest;
        assert Join(Split(s)) == [] + "/" + Join(rest);
      } else if |rest| == 1 {
        assert Split(s) == [[s[0]] + rest[0]];
      } else {
        assert Split(s) == [[s[0]] + rest[0]] + rest[1..];
        assert Join(rest) == rest[0] + "/" + Join(rest[1..]);
        assert Join(Split(s)) == ([s[0]] + rest[0]) + "/" + Join(rest[1..]);
      }
    }
  }

  /** A path has one segment more than it has `/` separators. */
  lemma {:induction false} SplitCount(s: string)
    ensures |Split(s)| == multiset(s)['/'] + 1
  {
    if s != [] {
      SplitCount(s[1..]);
      assert s == [s[0]] + s[1..];
    }
  }

  lemma {:induction false} SplitSegmentsHaveNoSlash(s: string)
    ensures forall i :: 0 <= i < |Split(s)| ==> '/' !in Split(s)[i]
  {
    if s != [] {
      SplitSegmentsHaveNoSlash(s[1..]);
    }
  }

  lemma {:induction false} SplitNoSlash(a: string)
    requires '/' !in a
    ensures Split(a) == [a]
  {
    if a != [] {
      assert a[0] != '/' && '/' !in a[1..] by { assert a[0] in a && forall c :: c in a[1..] ==> c in a; }
      SplitNoSlash(a[1..]);
      assert a == [a[0]] + a[1..];
    }
  }

  lemma {:induction false} SplitAtSlash(a: string, b: string)
    requires '/' !in a
    ensures Split(a + "/" + b) == [a] + Split(b)
  {
    if a == [] {
      assert (a + "/" + b)[1..] == b;
    } else {
      assert a[0] != '/' && '/' !in a[1..] by { assert a[0] in a && forall c :: c in a[1..] ==> c in a; }
      SplitAtSlash(a[1..], b);
      assert (a + "/" + b)[1..] == a[1..] + "/" + b;
      assert (a + "/" + b)[0] == a[0];
      assert a == [a[0]] + a[1..];
    }
  }

  lemma {:induction false} SplitJoin(segs: seq<string>)
    requires segs != []
    requires forall i :: 0 <= i < |segs| ==> '/' !in segs[i]
    ensures Split(Join(segs)) == segs
  {
    if |segs| == 1 {
      SplitNoSlash(segs[0]);
    } else {
      SplitJoin(segs[1..]);
      SplitAtSlash(segs[0], Join(segs[1..]));
    }
  }

  function UpperCase(c: char): char {
    if 'a' <= c <= 'z' then (c as int - 'a' as int + 'A' as int) as char else c
  }

  function Capitalize(seg: string): string {
    if seg == [] then [] else [UpperCase(seg[0])] + seg[1..]
  }

  function CapitalizedPath(segs: seq<string>): string {
    if segs == [] then [] else Capitalize(segs[0]) + CapitalizedPath(segs[1..])
  }

  /** The name given to the features of an extractor for `path`: "TypePath(Pos)" for "pos". */
  function FeatureName(path: string): (r: string)
    ensures |r| >= 10 && r[..9] == "TypePath(" && r[|r| - 1] == ')'
  {
    "TypePath(" + CapitalizedPath(Split(path)) + ")"
  }

  /** A path of one segment is named after that segment, capitalised: "pos" gives "TypePath(Pos)". */
  lemma FeatureNameOfSegment(seg: string)
    requires '/' !in seg
    ensures FeatureName(seg) == "TypePath(" + Capitalize(seg) + ")"
  {
    SplitNoSlash(seg);
    assert CapitalizedPath([seg]) == Capitalize(seg) + CapitalizedPath([]);
  }

  // ---------------------------------------------------------------------------
  // Traversal, depth first

  /** The items read through slot `seg` of node `n` when `seg` is the last segment. */
  function Leaf(g: Graph, n: nat, seg: string, returnAll: bool): (r: seq<Item>)
    requires WellFormed(g) && n < |g.nodes|
    ensures seg !in g.nodes[n].fields ==> r == []
    ensures !returnAll ==> |r| <= 1
    ensures seg in g.nodes[n].fields && g.nodes[n].fields[seg].Prim? ==> r == [Val(g.nodes[n].fields[seg].v)]
    ensures seg in g.nodes[n].fields && g.nodes[n].fields[seg].PrimArray? ==>
      r == Vals(Select(g.nodes[n].fields[seg].vs, returnAll))
    ensures seg in g.nodes[n].fields && g.nodes[n].fields[seg].Ref? ==>
      g.nodes[n].fields[seg].target < |g.nodes| &&
      r == [Covered(g.nodes[g.nodes[n].fields[seg].target].begin, g.nodes[g.nodes[n].fields[seg].target].end)]
    ensures seg in g.nodes[n].fields && g.nodes[n].fields[seg].RefArray? ==>
      InGraph(g, g.nodes[n].fields[seg].targets) &&
      r == Spans(g, Select(g.nodes[n].fields[seg].targets, returnAll))
  {
    var node := g.nodes[n];
    if seg !in node.fields then []
    else
      match node.fields[seg]
      case Prim(v) => [Val(v)]
      case PrimArray(vs) => Vals(Select(vs, returnAll))
      case Ref(t) => [Covered(g.nodes[t].begin, g.nodes[t].end)]
      case RefArray(ts) => Spans(g, Select(ts, returnAll))
  }

  /** The items reached from node `n` along `path`. */
  function Walk(g: Graph, n: nat, path: seq<string>, traverseAll: bool, returnAll: bool): (r: seq<Item>)
    requires WellFormed(g) && n < |g.nodes| && path != []
    ensures path[0] !in g.nodes[n].fields ==> r == []
    ensures |path| > 1 && path[0] in g.nodes[n].fields && g.nodes[n].fields[path[0]].Prim? ==> r == []
    decreases |path|, 0
  {
    var node := g.nodes[n];
    if |path| == 1 then Leaf(g, n, path[0], returnAll)
    else if path[0] !in node.fields then []
    else
      match node.fields[path[0]]
      case Ref(t) => Walk(g, t, path[1..], traverseAll, returnAll)
      case RefArray(ts) => WalkAll(g, Select(ts, traverseAll), path[1..], traverseAll, returnAll)
      case _ => []
  }

  /** The items reached along `path` from each node of `ns` in turn. */
  function WalkAll(g: Graph, ns: seq<nat>, path: seq<string>, traverseAll: bool, returnAll: bool): (r: seq<Item>)
    requires WellFormed(g) && InGraph(g, ns) && path != []
    ensures ns == [] ==> r == []
    decreases |path|, |ns| + 1
  {
    if ns == [] then [] else Walk(g, ns[0], path, traverseAll, returnAll) + WalkAll(g, ns[1..], path, traverseAll, returnAll)
  }

  // ---------------------------------------------------------------------------
  // Traversal, as a working set of nodes advanced one segment at a time

  /** The nodes one intermediate segment leads to from node `n`. */
  function Succ(g: Graph, n: nat, seg: string, traverseAll: bool): (r: seq<nat>)
    requires WellFormed(g) && n < |g.nodes|
    ensures InGraph(g, r)
  {
    var node := g.nodes[n];
    if seg !in node.fields then []
    else
      match node.fields[seg]
      case Ref(t) => [t]
      case RefArray(ts) => Select(ts, traverseAll)
      case _ => []
  }

  function Step(g: Graph, ns: seq<nat>, seg: string, traverseAll: bool): (r: seq<nat>)
    requires WellFormed(g) && InGraph(g, ns)
    ensures InGraph(g, r)
  {
    if ns == [] then [] else Succ(g, ns[0], seg, traverseAll) + Step(g, ns[1..], seg, traverseAll)
  }

  /** The working set after following every segment of `segs` from `ns`. */
  function Reach(g: Graph, ns: seq<nat>, segs: seq<string>, traverseAll: bool): (r: seq<nat>)
    requires WellFormed(g) && InGraph(g, ns)
    ensures InGraph(g, r)
    decreases |segs|
  {
    if segs == [] then ns else Reach(g, Step(g, ns, segs[0], traverseAll), segs[1..], traverseAll)
  }

  function Leaves(g: Graph, ns: seq<nat>, seg: string, returnAll: bool): seq<Item>
    requires WellFormed(g) && InGraph(g, ns)
  {
    if ns == [] then [] else Leaf(g, ns[0], seg, returnAll) + Leaves(g, ns[1..], seg, returnAll)
  }

  /** The nodes whose last-segment slot supplies the values of a path from `n`. */
  function Frontier(g: Graph, n: nat, path: seq<string>, traverseAll: bool): (r: seq<nat>)
    requires WellFormed(g) && n < |g.nodes| && path != []
    ensures InGraph(g, r)
  {
    Reach(g, [n], path[..|path| - 1], traverseAll)
  }

  // ---------------------------------------------------------------------------
  // Keeping the first occurrence of each value

  predicate NoDuplicates<T(==)>(s: seq<T>) {
    forall i, j :: 0 <= i < j < |s| ==> s[i] != s[j]
  }

  /** The values of `s`, each kept at its first occurrence only. */
  function Distinct(s: seq<Value>): (r: seq<Value>)
    ensures |r| <= |s|
    ensures forall x :: x in r <==> x in s
    ensures NoDuplicates(r)
  {
    if s == [] then []
    else
      var d := Distinct(s[..|s| - 1]);
      assert s == s[..|s| - 1] + [s[|s| - 1]];
      if s[|s| - 1] in d then d else d + [s[|s| - 1]]
  }

  /** Distinct keeps the order of first appearance: the result for a prefix is a prefix. */
  lemma {:induction false} DistinctOfPrefix(s: seq<Value>, k: nat)
    requires k <= |s|
    ensures Distinct(s[..k]) <= Distinct(s)
    decreases |s|
  {
    if k < |s| {
      var s' := s[..|s| - 1];
      DistinctOfPrefix(s', k);
      assert s'[..k] == s[..k];
    } else {
      assert s[..k] == s;
    }
  }

  /** A sequence without duplicates is left unchanged. */
  lemma {:induction false} DistinctOfDistinct(s: seq<Value>)
    requires NoDuplicates(s)
    ensures Distinct(s) == s
  {
    if s != [] {
      var s' := s[..|s| - 1];
      DistinctOfDistinct(s');
      assert s == s' + [s[|s| - 1]];
    }
  }

  // ---------------------------------------------------------------------------
  // The extractor

  /**
   * The leaf values of `path` from `focus`, before they are wrapped as features,
   * or the error of the first span outside the text.
   */
  function Values(g: Graph, focus: nat, path: string, opt: Options): (r: Result<seq<Value>, SpanError>)
    requires WellFormed(g) && focus < |g.nodes|
    ensures var rendered := Render(g.text, Walk(g, focus, Split(path), opt.traverseAllPaths, opt.returnAllValues));
            && (r.Failure? <==> rendered.Failure?)
            && (r.Failure? ==> r.error == rendered.error)
            && (r.Success? ==>
                && |r.value| <= |rendered.value|
                && (forall x :: x in r.value <==> x in rendered.value)
                && (opt.uniqueValues ==> NoDuplicates(r.value))
                && (!opt.uniqueValues ==> r.value == rendered.value))
  {
    match Render(g.text, Walk(g, focus, Split(path), opt.traverseAllPaths, opt.returnAllValues))
    case Failure(e) => Failure(e)
    case Success(raw) => Success(if opt.uniqueValues then Distinct(raw) else raw)
  }

  /** `TypePathExtractor.extract`: one feature per leaf value, each carrying the path string. */
  function Extract(g: Graph, focus: nat, ex: Extractor): (r: Result<seq<TypePathFeature>, SpanError>)
    requires WellFormed(g) && focus < |g.nodes|
    ensures var vs := Values(g, focus, ex.path, ex.options);
            && (r.Failure? <==> vs.Failure?)
            && (r.Failure? ==> r.error == vs.error)
            && (r.Success? ==>
                && |r.value| == |vs.value|
                && forall i :: 0 <= i < |r.value| ==>
                     r.value[i].value == vs.value[i]
                     && r.value[i].typePath == ex.path && r.value[i].name == FeatureName(ex.path))
  {
    match Values(g, focus, ex.path, ex.options)
    case Failure(e) => Failure(e)
    case Success(vs) =>
      Success(seq(|vs|, i requires 0 <= i < |vs| => TypePathFeature(FeatureName(ex.path), vs[i], ex.path)))
  }

  // ---------------------------------------------------------------------------
  // Properties of the traversal

  lemma {:induction false} WalkAllAppend(g: Graph, a: seq<nat>, b: seq<nat>, path: seq<string>, ta: bool, ra: bool)
    requires WellFormed(g) && InGraph(g, a) && InGraph(g, b) && path != []
    ensures InGraph(g, a + b)
    ensures WalkAll(g, a + b, path, ta, ra) == WalkAll(g, a, path, ta, ra) + WalkAll(g, b, path, ta, ra)
  {
    assert InGraph(g, a + b);
    if a != [] {
      var ab := a + b;
      assert ab[0] == a[0] && ab[1..] == a[1..] + b;
      WalkAllAppend(g, a[1..], b, path, ta, ra);
      var head := Walk(g, a[0], path, ta, ra);
      var restA := WalkAll(g, a[1..], path, ta, ra);
      var all := WalkAll(g, b, path, ta, ra);
      calc {
        WalkAll(g, ab, path, ta, ra);
        head + WalkAll(g, a[1..] + b, path, ta, ra);
        head + (restA + all);
        (head + restA) + all;
        WalkAll(g, a, path, ta, ra) + all;
      }
    } else {
      assert a + b == b;
    }
  }

  lemma {:induction false} WalkAllLastSegment(g: Graph, ns: seq<nat>, path: seq<string>, ta: bool, ra: bool)
    requires WellFormed(g) && InGraph(g, ns) && |path| == 1
    ensures WalkAll(g, ns, path, ta, ra) == Leaves(g, ns, path[0], ra)
  {
    if ns != [] {
      WalkAllLastSegment(g, ns[1..], path, ta, ra);
    }
  }

  lemma {:induction false} WalkAllStep(g: Graph, ns: seq<nat>, path: seq<string>, ta: bool, ra: bool)
    requires WellFormed(g) && InGraph(g, ns) && |path| > 1
    ensures WalkAll(g, ns, path, ta, ra) == WalkAll(g, Step(g, ns, path[0], ta), path[1..], ta, ra)
  {
    if ns != [] {
      var succ := Succ(g, ns[0], path[0], ta);
      var rest := Step(g, ns[1..], path[0], ta);
      WalkAllStep(g, ns[1..], path, ta, ra);
      assert Walk(g, ns[0], path, ta, ra) == WalkAll(g, succ, path[1..], ta, ra) by {
        if succ != [] {
          assert succ[1..] == [] ==> WalkAll(g, succ[1..], path[1..], ta, ra) == [];
        }
      }
      WalkAllAppend(g, succ, rest, path[1..], ta, ra);
    }
  }

  /**
   * The depth-first traversal agrees with the working-set description: advance
   * the list of nodes segment by segment, then read the last segment of each.
   */
  lemma {:induction false} WalkAllIsWorkingSet(g: Graph, ns: seq<nat>, path: seq<string>, ta: bool, ra: bool)
    requires WellFormed(g) && InGraph(g, ns) && path != []
    ensures WalkAll(g, ns, path, ta, ra)
         == Leaves(g, Reach(g, ns, path[..|path| - 1], ta), path[|path| - 1], ra)
    decreases |path|
  {
    if |path| == 1 {
      WalkAllLastSegment(g, ns, path, ta, ra);
    } else {
      var next := Step(g, ns, path[0], ta);
      WalkAllStep(g, ns, path, ta, ra);
      WalkAllIsWorkingSet(g, next, path[1..], ta, ra);
      assert path[..|path| - 1][1..] == path[1..][..|path[1..]| - 1];
    }
  }

  lemma WalkIsWalkAllOfOne(g: Graph, n: nat, path: seq<string>, ta: bool, ra: bool)
    requires WellFormed(g) && n < |g.nodes| && path != []
    ensures InGraph(g, [n]) && Walk(g, n, path, ta, ra) == WalkAll(g, [n], path, ta, ra)
  {
    assert [n][1..] == [];
  }

  /** One step through a single-valued reference slot. */
  lemma WalkThroughRef(g: Graph, n: nat, seg: string, rest: seq<string>, t: nat, ta: bool, ra: bool)
    requires WellFormed(g) && n < |g.nodes| && rest != []
    requires seg in g.nodes[n].fields && g.nodes[n].fields[seg] == Ref(t)
    ensures t < |g.nodes| && Walk(g, n, [seg] + rest, ta, ra) == Walk(g, t, rest, ta, ra)
  {
    assert FieldInGraph(g, g.nodes[n].fields[seg]);
    assert ([seg] + rest)[1..] == rest;
  }

  /** One step through an FSArray slot: on to its first element, or to all of them. */
  lemma WalkThroughArray(g: Graph, n: nat, seg: string, rest: seq<string>, ts: seq<nat>, ta: bool, ra: bool)
    requires WellFormed(g) && n < |g.nodes| && rest != []
    requires seg in g.nodes[n].fields && g.nodes[n].fields[seg] == RefArray(ts)
    ensures InGraph(g, Select(ts, ta))
    ensures Walk(g, n, [seg] + rest, ta, ra) == WalkAll(g, Select(ts, ta), rest, ta, ra)
  {
    assert FieldInGraph(g, g.nodes[n].fields[seg]);
    assert ([seg] + rest)[1..] == rest;
  }

  lemma WalkAllOfTwo(g: Graph, a: nat, b: nat, path: seq<string>, ta: bool, ra: bool)
    requires WellFormed(g) && a < |g.nodes| && b < |g.nodes| && path != []
    ensures InGraph(g, [a, b])
    ensures WalkAll(g, [a, b], path, ta, ra) == Walk(g, a, path, ta, ra) + Walk(g, b, path, ta, ra)
  {
    assert [a, b][1..] == [b];
    assert [b][1..] == [];
    assert WalkAll(g, [b], path, ta, ra) == Walk(g, b, path, ta, ra) + WalkAll(g, [], path, ta, ra);
  }

  /** With `traverseAllPaths`, a step through a two-element array walks on from both elements, in order. */
  lemma WalkThroughPair(g: Graph, n: nat, seg: string, rest: seq<string>, a: nat, b: nat, ra: bool)
    requires WellFormed(g) && n < |g.nodes| && rest != []
    requires seg in g.nodes[n].fields && g.nodes[n].fields[seg] == RefArray([a, b])
    ensures a < |g.nodes| && b < |g.nodes|
    ensures Walk(g, n, [seg] + rest, true, ra) == Walk(g, a, rest, true, ra) + Walk(g, b, rest, true, ra)
  {
    WalkThroughArray(g, n, seg, rest, [a, b], true, ra);
    assert InGraph(g, [a, b]);
    WalkAllOfTwo(g, a, b, rest, true, ra);
  }

  /** The `begin` and `end` slots of a node read the offsets of the span its covered text uses. */
  lemma SpanSlots(g: Graph, n: nat, ta: bool, ra: bool)
    requires WellFormed(g) && n < |g.nodes|
    ensures "begin" in g.nodes[n].fields ==> Walk(g, n, ["begin"], ta, ra) == [Val(Number(g.nodes[n].begin))]
    ensures "end" in g.nodes[n].fields ==> Walk(g, n, ["end"], ta, ra) == [Val(Number(g.nodes[n].end))]
  {
    assert NodeWellFormed(g, g.nodes[n]);
  }

  lemma {:induction false} LeavesOfSingleValued(g: Graph, ns: seq<nat>, seg: string, ra: bool)
    requires WellFormed(g) && InGraph(g, ns)
    requires forall m :: m in ns ==> seg in g.nodes[m].fields && g.nodes[m].fields[seg].Prim?
    ensures |Leaves(g, ns, seg, ra)| == |ns|
    ensures forall i :: 0 <= i < |ns| ==> Leaves(g, ns, seg, ra)[i] == Val(g.nodes[ns[i]].fields[seg].v)
  {
    if ns != [] {
      assert ns[0] in ns;
      assert forall m :: m in ns[1..] ==> m in ns;
      LeavesOfSingleValued(g, ns[1..], seg, ra);
    }
  }

  /**
   * A last segment that is single-valued on every node reached gives exactly one
   * value per reached node, in order, whatever `returnAllValues` says: values are
   * not paired with the positions of an earlier array in the path.
   */
  lemma SingleValuedLastSegment(g: Graph, n: nat, path: seq<string>, ta: bool, ra: bool)
    requires WellFormed(g) && n < |g.nodes| && path != []
    requires forall m :: m in Frontier(g, n, path, ta) ==>
      path[|path| - 1] in g.nodes[m].fields && g.nodes[m].fields[path[|path| - 1]].Prim?
    ensures |Walk(g, n, path, ta, ra)| == |Frontier(g, n, path, ta)|
    ensures forall i :: 0 <= i < |Frontier(g, n, path, ta)| ==>
      Walk(g, n, path, ta, ra)[i] == Val(g.nodes[Frontier(g, n, path, ta)[i]].fields[path[|path| - 1]].v)
  {
    WalkIsWalkAllOfOne(g, n, path, ta, ra);
    WalkAllIsWorkingSet(g, [n], path, ta, ra);
    LeavesOfSingleValued(g, Frontier(g, n, path, ta), path[|path| - 1], ra);
  }

  /** With `traverseAllPaths` and `returnAllValues` both off, a path yields at most one value. */
  lemma {:induction false} DefaultYieldsAtMostOne(g: Graph, n: nat, path: seq<string>)
    requires WellFormed(g) && n < |g.nodes| && path != []
    ensures |Walk(g, n, path, false, false)| <= 1
    decreases |path|
  {
    var node := g.nodes[n];
    if |path| > 1 && path[0] in node.fields {
      match node.fields[path[0]]
      case Ref(t) => DefaultYieldsAtMostOne(g, t, path[1..]);
      case RefArray(ts) =>
        if ts != [] {
          DefaultYieldsAtMostOne(g, ts[0], path[1..]);
          assert WalkAll(g, [ts[0]], path[1..], false, false)
              == Walk(g, ts[0], path[1..], false, false) + WalkAll(g, [], path[1..], false, false);
        }
      case _ =>
    }
  }

  /**
   * Turning `traverseAllPaths` off keeps only a prefix of the values: those reached
   * through the first element of each intermediate array.
   */
  lemma {:induction false} FirstPathIsPrefix(g: Graph, n: nat, path: seq<string>, ra: bool)
    requires WellFormed(g) && n < |g.nodes| && path != []
    ensures Walk(g, n, path, false, ra) <= Walk(g, n, path, true, ra)
    decreases |path|
  {
    var node := g.nodes[n];
    if |path| > 1 && path[0] in node.fields {
      match node.fields[path[0]]
      case Ref(t) => FirstPathIsPrefix(g, t, path[1..], ra);
      case RefArray(ts) =>
        if ts != [] {
          FirstPathIsPrefix(g, ts[0], path[1..], ra);
          var a := Walk(g, ts[0], path[1..], false, ra);
          var b := Walk(g, ts[0], path[1..], true, ra);
          var c := WalkAll(g, ts[1..], path[1..], true, ra);
          assert WalkAll(g, [ts[0]], path[1..], false, ra) == a + WalkAll(g, [], path[1..], false, ra);
          assert WalkAll(g, ts, path[1..], true, ra) == b + c;
          assert (b + c)[..|a|] == b[..|a|];
        }
      case _ =>
    }
  }

  lemma {:induction false} LeavesReturnAllLonger(g: Graph, ns: seq<nat>, seg: string)
    requires WellFormed(g) && InGraph(g, ns)
    ensures |Leaves(g, ns, seg, false)| <= |Leaves(g, ns, seg, true)|
  {
    if ns != [] {
      LeavesReturnAllLonger(g, ns[1..], seg);
    }
  }

  /** Turning `returnAllValues` off never yields more values. */
  lemma ReturnAllValuesNotShorter(g: Graph, n: nat, path: seq<string>, ta: bool)
    requires WellFormed(g) && n < |g.nodes| && path != []
    ensures |Walk(g, n, path, ta, false)| <= |Walk(g, n, path, ta, true)|
  {
    WalkIsWalkAllOfOne(g, n, path, ta, false);
    WalkIsWalkAllOfOne(g, n, path, ta, true);
    WalkAllIsWorkingSet(g, [n], path, ta, false);
    WalkAllIsWorkingSet(g, [n], path, ta, true);
    LeavesReturnAllLonger(g, Frontier(g, n, path, ta), path[|path| - 1]);
  }

  /**
   * `uniqueValues` keeps the same values, first occurrences only, in order of first
   * appearance, and never more of them; it fails exactly when the plain extraction does.
   */
  lemma UniqueValuesCollapse(g: Graph, focus: nat, path: string, ta: bool, ra: bool)
    requires WellFormed(g) && focus < |g.nodes|
    ensures var all := Values(g, focus, path, Options(ta, ra, false));
            var unique := Values(g, focus, path, Options(ta, ra, true));
            && (all.Success? <==> unique.Success?)
            && (all.Success? ==>
                && |unique.value| <= |all.value|
                && (forall x :: x in unique.value <==> x in all.value)
                && NoDuplicates(unique.value)
                && (forall k :: 0 <= k <= |all.value| ==> Distinct(all.value[..k]) <= unique.value))
  {
    var all := Values(g, focus, path, Options(ta, ra, false));
    if all.Success? {
      forall k | 0 <= k <= |all.value| ensures Distinct(all.value[..k]) <= Distinct(all.value) {
        DistinctOfPrefix(all.value, k);
      }
    }
  }

  // ---------------------------------------------------------------------------
  // When rendering cannot fail

  lemma AllRenderAppend(text: string, a: seq<Item>, b: seq<Item>)
    requires AllRender(text, a) && AllRender(text, b)
    ensures AllRender(text, a + b)
  {
  }

  lemma {:induction false} ValsRender(text: string, vs: seq<Value>)
    ensures AllRender(text, Vals(vs))
  {
    if vs != [] {
      ValsRender(text, vs[1..]);
      AllRenderAppend(text, [Val(vs[0])], Vals(vs[1..]));
    }
  }

  lemma {:induction false} SpansRender(g: Graph, ns: seq<nat>)
    requires InGraph(g, ns) && SpansInText(g)
    ensures AllRender(g.text, Spans(g, ns))
  {
    if ns != [] {
      SpansRender(g, ns[1..]);
      AllRenderAppend(g.text, [Covered(g.nodes[ns[0]].begin, g.nodes[ns[0]].end)], Spans(g, ns[1..]));
    }
  }

  /** Every item the traversal reaches can be rendered when every span lies inside the text. */
  lemma {:induction false} WalkRenders(g: Graph, n: nat, path: seq<string>, ta: bool, ra: bool)
    requires WellFormed(g) && SpansInText(g) && n < |g.nodes| && path != []
    ensures AllRender(g.text, Walk(g, n, path, ta, ra))
    decreases |path|, 0
  {
    var node := g.nodes[n];
    assert NodeWellFormed(g, node);
    if |path| == 1 {
      var seg := path[0];
      if seg in node.fields {
        match node.fields[seg]
        case Prim(v) =>
        case PrimArray(vs) => ValsRender(g.text, Select(vs, ra));
        case Ref(t) =>
        case RefArray(ts) => SpansRender(g, Select(ts, ra));
      }
    } else if path[0] in node.fields {
      match node.fields[path[0]]
      case Ref(t) => WalkRenders(g, t, path[1..], ta, ra);
      case RefArray(ts) => WalkAllRenders(g, Select(ts, ta), path[1..], ta, ra);
      case _ =>
    }
  }

  lemma {:induction false} WalkAllRenders(g: Graph, ns: seq<nat>, path: seq<string>, ta: bool, ra: bool)
    requires WellFormed(g) && SpansInText(g) && InGraph(g, ns) && path != []
    ensures AllRender(g.text, WalkAll(g, ns, path, ta, ra))
    decreases |path|, |ns| + 1
  {
    if ns != [] {
      WalkRenders(g, ns[0], path, ta, ra);
      WalkAllRenders(g, ns[1..], path, ta, ra);
      AllRenderAppend(g.text, Walk(g, ns[0], path, ta, ra), WalkAll(g, ns[1..], path, ta, ra));
    }
  }

  /** A document whose annotations all lie inside its text never makes the extractor fail. */
  lemma ValuesSucceedWhenSpansInText(g: Graph, focus: nat, path: string, opt: Options)
    requires WellFormed(g) && SpansInText(g) && focus < |g.nodes|
    ensures Values(g, focus, path, opt).Success?
  {
    WalkRenders(g, focus, Split(path), opt.traverseAllPaths, opt.returnAllValues);
  }
}
