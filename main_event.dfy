/**
 * `TemporalLinkMainEventToNextSentenceMainEventAnnotator`: pick the main event of
 * every sentence (the last event at the smallest syntactic depth) and pair the
 * main events of each two consecutive sentences, as source and target of a
 * temporal link to classify.
 *
 * A sentence is the sequence of events it covers, in index order.  The depth of
 * an event is the depth of its matching leaf in the constituent tree, or `None`
 * when no leaf matches; it is computed outside this model and carried on the event.
 */
module TemporalLinkMainEvent {
  import opened Wrappers
  import TypePath

  datatype Event = Event(id: nat, depth: Option<int>)

  type Sentence = seq<Event>

  /** A candidate link: the main event of a sentence and that of the next one. */
  datatype Pair = Pair(source: Event, target: Event)

  // ---------------------------------------------------------------------------
  // The main event of a sentence

  /** The events of `es` whose depth is `d`, in order. */
  function AtDepth(es: seq<Event>, d: Option<int>): (r: seq<Event>)
    ensures |r| <= |es|
    ensures forall i :: 0 <= i < |r| ==> r[i] in es && r[i].depth == d
  {
    if es == [] then []
    else
      var last := es[|es| - 1];
      AtDepth(es[..|es| - 1], d) + (if last.depth == d then [last] else [])
  }

  /** The smaller of a running minimum and a depth that may be missing. */
  function MinOf(m: Option<int>, d: Option<int>): Option<int> {
    if d.Some? && (m.None? || d.value < m.value) then d else m
  }

  /** The smallest depth among the events of `es` that have one, or `None` if none has. */
  function MinDepth(es: seq<Event>): (r: Option<int>)
    ensures r.None? <==> forall i :: 0 <= i < |es| ==> es[i].depth.None?
    ensures r.Some? ==> exists i :: 0 <= i < |es| && es[i].depth == r
    ensures r.Some? ==> forall i :: 0 <= i < |es| && es[i].depth.Some? ==> r.value <= es[i].depth.value
  {
    if es == [] then None
    else
      var prefix := es[..|es| - 1];
      var m := MinDepth(prefix);
      assert forall i :: 0 <= i < |prefix| ==> prefix[i] == es[i];
      MinOf(m, es[|es| - 1].depth)
  }

  /** The last event at the smallest depth, or `None` for a sentence without events. */
  function MainEvent(es: seq<Event>): (r: Option<Event>)
    ensures es == [] ==> r.None?
    ensures r.Some? ==> r.value in es && r.value.depth == MinDepth(es)
  {
    var group := AtDepth(es, MinDepth(es));
    if group == [] then None else Some(group[|group| - 1])
  }

  // ---------------------------------------------------------------------------
  // Properties of the main event

  /** An event at depth `d` makes the group at depth `d` non-empty. */
  lemma {:induction false} AtDepthHas(es: seq<Event>, d: Option<int>, i: nat)
    requires i < |es| && es[i].depth == d
    ensures AtDepth(es, d) != []
  {
    if i < |es| - 1 {
      AtDepthHas(es[..|es| - 1], d, i);
    }
  }

  /** Appending an event extends the group at its own depth and leaves the others alone. */
  lemma AtDepthSnoc(es: seq<Event>, e: Event, d: Option<int>)
    ensures AtDepth(es + [e], d) == AtDepth(es, d) + (if e.depth == d then [e] else [])
  {
    assert (es + [e])[..|es|] == es;
  }

  /** The last event at depth `d` sits at an index `k` after which no event has depth `d`. */
  lemma {:induction false} AtDepthLast(es: seq<Event>, d: Option<int>) returns (k: nat)
    requires AtDepth(es, d) != []
    ensures k < |es| && es[k] == AtDepth(es, d)[|AtDepth(es, d)| - 1]
    ensures forall j :: k < j < |es| ==> es[j].depth != d
  {
    var last := es[|es| - 1];
    var prefix := es[..|es| - 1];
    assert es == prefix + [last];
    AtDepthSnoc(prefix, last, d);
    if last.depth != d {
      assert AtDepth(es, d) == AtDepth(prefix, d);
      k := AtDepthLast(prefix, d);
      forall j | k < j < |es| ensures es[j].depth != d {
        if j < |prefix| {
          assert es[j] == prefix[j];
        }
      }
      assert es[k] == prefix[k];
    } else {
      k := |es| - 1;
    }
  }

  /** `getMainEvent` gives `null` exactly for a sentence that covers no events. */
  lemma MainEventNoneIff(es: seq<Event>)
    ensures MainEvent(es).None? <==> es == []
  {
    if es != [] {
      var m := MinDepth(es);
      if m.Some? {
        var i :| 0 <= i < |es| && es[i].depth == m;
        AtDepthHas(es, m, i);
      } else {
        AtDepthHas(es, m, 0);
      }
    }
  }

  /** When some event has a depth, the main event has the smallest depth; events without one are not chosen. */
  lemma MainEventHasMinimumDepth(es: seq<Event>)
    requires exists i :: 0 <= i < |es| && es[i].depth.Some?
    ensures MainEvent(es).Some? && MainEvent(es).value.depth.Some?
    ensures forall i :: 0 <= i < |es| && es[i].depth.Some? ==>
              MainEvent(es).value.depth.value <= es[i].depth.value
  {
    MainEventNoneIff(es);
  }

  /** No later event of the sentence has the main event's depth. */
  lemma MainEventIsLastAtItsDepth(es: seq<Event>)
    requires es != []
    ensures MainEvent(es).Some?
    ensures exists k :: 0 <= k < |es| && es[k] == MainEvent(es).value
                        && forall j :: k < j < |es| ==> es[j].depth != es[k].depth
  {
    MainEventNoneIff(es);
    var d := MinDepth(es);
    var group := AtDepth(es, d);
    var k := AtDepthLast(es, d);
    assert group[|group| - 1].depth == d;
    assert es[k] == MainEvent(es).value && es[k].depth == d;
    assert forall j :: k < j < |es| ==> es[j].depth != es[k].depth;
  }

  /**
   * A map from each depth to the events at that depth is empty exactly for a
   * sentence without events; otherwise its last entry at the smallest depth is
   * the main event.
   */
  lemma MainEventOfGroups(es: seq<Event>, groups: map<Option<int>, seq<Event>>)
    requires forall d :: d in groups <==> AtDepth(es, d) != []
    requires forall d :: d in groups ==> groups[d] == AtDepth(es, d)
    ensures groups == map[] <==> es == []
    ensures groups != map[] ==>
              && MinDepth(es) in groups && groups[MinDepth(es)] != []
              && MainEvent(es) == Some(groups[MinDepth(es)][|groups[MinDepth(es)]| - 1])
  {
    MainEventNoneIff(es);
    if es == [] {
      assert groups.Keys == {};
    } else {
      AtDepthHas(es, es[0].depth, 0);
      assert es[0].depth in groups;
    }
  }

  /** When no event has a depth, the main event is the sentence's last event. */
  lemma {:induction false} NoDepthGivesLastEvent(es: seq<Event>)
    requires es != []
    requires forall i :: 0 <= i < |es| ==> es[i].depth.None?
    ensures MainEvent(es) == Some(es[|es| - 1])
  {
    assert MinDepth(es) == None;
  }

  // ---------------------------------------------------------------------------
  // Pairs of consecutive sentences

  function PairOf(prev: Sentence, curr: Sentence): (r: seq<Pair>)
    ensures |r| <= 1
  {
    match (MainEvent(prev), MainEvent(curr))
    case (Some(s), Some(t)) => [Pair(s, t)]
    case _ => []
  }

  /** The pairs of main events of consecutive sentences, in document order. */
  function Pairs(ss: seq<Sentence>): (r: seq<Pair>)
    ensures |ss| < 2 ==> r == []
    ensures |ss| >= 1 ==> |r| <= |ss| - 1
  {
    if |ss| < 2 then []
    else Pairs(ss[..|ss| - 1]) + PairOf(ss[|ss| - 2], ss[|ss| - 1])
  }

  /** The number of consecutive sentence pairs, among the first `n` sentences, that both have events. */
  function Linked(ss: seq<Sentence>, n: nat): nat
    requires n <= |ss|
  {
    if n < 2 then 0
    else Linked(ss, n - 1) + (if ss[n - 2] != [] && ss[n - 1] != [] then 1 else 0)
  }

  /** There is one pair for each two consecutive sentences that both cover an event, so at most one fewer than sentences. */
  lemma {:induction false} PairsCount(ss: seq<Sentence>)
    ensures |Pairs(ss)| == Linked(ss, |ss|)
  {
    if |ss| >= 2 {
      var prefix := ss[..|ss| - 1];
      PairsCount(prefix);
      LinkedOfPrefix(prefix, ss, |ss| - 1);
      MainEventNoneIff(ss[|ss| - 2]);
      MainEventNoneIff(ss[|ss| - 1]);
    }
  }

  /** `Linked` looks only at the first `n` sentences. */
  lemma {:induction false} LinkedOfPrefix(a: seq<Sentence>, b: seq<Sentence>, n: nat)
    requires n <= |a| && n <= |b| && a[..n] == b[..n]
    ensures Linked(a, n) == Linked(b, n)
  {
    if n >= 2 {
      assert a[..n - 1] == a[..n][..n - 1] == b[..n][..n - 1] == b[..n - 1];
      LinkedOfPrefix(a, b, n - 1);
      assert a[n - 2] == a[..n][n - 2] && b[n - 2] == b[..n][n - 2];
      assert a[n - 1] == a[..n][n - 1] && b[n - 1] == b[..n][n - 1];
    }
  }

  /** Every pair links the main events of some sentence and of the sentence right after it. */
  lemma {:induction false} PairsAreConsecutive(ss: seq<Sentence>)
    ensures forall p :: p in Pairs(ss) ==>
      exists i :: 0 <= i < |ss| - 1 && MainEvent(ss[i]) == Some(p.source) && MainEvent(ss[i + 1]) == Some(p.target)
  {
    if |ss| >= 2 {
      var prefix := ss[..|ss| - 1];
      PairsAreConsecutive(prefix);
      var last := PairOf(ss[|ss| - 2], ss[|ss| - 1]);
      assert Pairs(ss) == Pairs(prefix) + last;
      forall p | p in Pairs(ss)
        ensures exists i :: 0 <= i < |ss| - 1 && MainEvent(ss[i]) == Some(p.source) && MainEvent(ss[i + 1]) == Some(p.target)
      {
        if p in Pairs(prefix) {
          var i :| 0 <= i < |prefix| - 1 && MainEvent(prefix[i]) == Some(p.source) && MainEvent(prefix[i + 1]) == Some(p.target);
          assert prefix[i] == ss[i] && prefix[i + 1] == ss[i + 1];
        } else {
          assert p in last;
          var i := |ss| - 2;
          assert MainEvent(ss[i]) == Some(p.source) && MainEvent(ss[i + 1]) == Some(p.target);
        }
      }
    }
  }

  /** One more sentence adds the pair of it and the sentence before it. */
  lemma PairsOfLongerPrefix(ss: seq<Sentence>, i: nat)
    requires 1 <= i < |ss|
    ensures Pairs(ss[..i + 1]) == Pairs(ss[..i]) + PairOf(ss[i - 1], ss[i])
  {
    var next := ss[..i + 1];
    assert next[..|next| - 1] == ss[..i];
  }

  /** Two consecutive sentences that both have a main event give a pair. */
  lemma {:induction false} ConsecutiveMainEventsArePaired(ss: seq<Sentence>, i: nat)
    requires i + 1 < |ss| && MainEvent(ss[i]).Some? && MainEvent(ss[i + 1]).Some?
    ensures Pair(MainEvent(ss[i]).value, MainEvent(ss[i + 1]).value) in Pairs(ss)
  {
    var prefix := ss[..|ss| - 1];
    if i + 2 < |ss| {
      ConsecutiveMainEventsArePaired(prefix, i);
      assert prefix[i] == ss[i] && prefix[i + 1] == ss[i + 1];
    }
  }

  // ---------------------------------------------------------------------------
  // The annotator

  /** The extractors for source and target events: the `tense`, `aspect` and `eventClass` features. */
  const EventExtractors: seq<TypePath.Extractor> := [
    TypePath.Extractor("tense", TypePath.DefaultOptions),
    TypePath.Extractor("aspect", TypePath.DefaultOptions),
    TypePath.Extractor("eventClass", TypePath.DefaultOptions)
  ]

  class Annotator {
    /** The outcomes the classifier may assign to a pair. */
    var labels: seq<string>
    var sourceExtractors: seq<TypePath.Extractor>
    var targetExtractors: seq<TypePath.Extractor>

    /** The link labels BEFORE, OVERLAP and AFTER; no extractors until initialisation. */
    constructor()
      ensures labels == ["BEFORE", "OVERLAP", "AFTER"]
      ensures sourceExtractors == [] && targetExtractors == []
    {
      labels := ["BEFORE", "OVERLAP", "AFTER"];
      sourceExtractors := [];
      targetExtractors := [];
    }

    /** `initialize`: the same three event extractors on both sides of a pair. */
    method Initialize()
      modifies this
      ensures sourceExtractors == EventExtractors && targetExtractors == EventExtractors
      ensures labels == old(labels)
    {
      var extractors := [];
      extractors := extractors + [TypePath.Extractor("tense", TypePath.DefaultOptions)];
      extractors := extractors + [TypePath.Extractor("aspect", TypePath.DefaultOptions)];
      extractors := extractors + [TypePath.Extractor("eventClass", TypePath.DefaultOptions)];
      sourceExtractors := extractors;
      targetExtractors := extractors;
    }

    /**
     * `getMainEvent`: group the events by depth in a map, keeping the smallest
     * depth seen, then take the last event of the group at that depth.
     */
    method GetMainEvent(sentence: Sentence) returns (r: Option<Event>)
      ensures r == MainEvent(sentence)
    {
      var minDepth: Option<int> := None;
      var depthEvents: map<Option<int>, seq<Event>> := map[];
      for i := 0 to |sentence|
        invariant minDepth == MinDepth(sentence[..i])
        invariant forall d :: d in depthEvents <==> AtDepth(sentence[..i], d) != []
        invariant forall d :: d in depthEvents ==> depthEvents[d] == AtDepth(sentence[..i], d)
      {
        var event := sentence[i];
        var depth := event.depth;
        assert sentence[..i + 1] == sentence[..i] + [event];
        forall d {
          AtDepthSnoc(sentence[..i], event, d);
        }
        if depth !in depthEvents {
          depthEvents := depthEvents[depth := []];
        }
        depthEvents := depthEvents[depth := depthEvents[depth] + [event]];
        minDepth := MinOf(minDepth, depth);
      }
      assert sentence[..|sentence|] == sentence;
      MainEventOfGroups(sentence, depthEvents);
      if depthEvents == map[] {
        r := None;
      } else {
        var events := depthEvents[minDepth];
        r := Some(events[|events| - 1]);
      }
    }

    /** `getSourceTargetPairs`: walk the sentences in order, pairing each with the one before it. */
    method GetSourceTargetPairs(sentences: seq<Sentence>) returns (pairs: seq<Pair>)
      ensures pairs == Pairs(sentences)
    {
      pairs := [];
      if sentences == [] {
        return;
      }
      var prev := sentences[0];
      var i := 1;
      while i < |sentences|
        invariant 1 <= i <= |sentences|
        invariant prev == sentences[i - 1]
        invariant pairs == Pairs(sentences[..i])
      {
        var curr := sentences[i];
        var source := GetMainEvent(prev);
        var target := GetMainEvent(curr);
        PairsOfLongerPrefix(sentences, i);
        if source.Some? && target.Some? {
          pairs := pairs + [Pair(source.value, target.value)];
        }
        prev := curr;
        i := i + 1;
      }
      assert sentences[..i] == sentences;
    }
  }
}
