/**
 * The node search (Code/Search.swift): a depth-first, pre-order walk over the
 * root nodes that scores every document node it reaches and keeps those scoring
 * more than 0.1 (1 in tenths), then the 20 best by score. Scores are those of
 * `Nodes.Score`. The work item that runs the search on the main queue, its
 * cancellation and the callback are outside the model.
 */
module Search {
  import opened Nodes
  import Strings
  import Outline

  /** A node found, with its score in tenths. */
  type Hit = (Node, nat)

  /** The least score a node must exceed to be kept (0.1). */
  const Threshold: nat := 1

  /** How many nodes `launch` hands to its callback. */
  const Shown: nat := 20

  // ---------------------------------------------------------------------------
  // What the walk finds, on values

  /** The document nodes of `t` scoring above the threshold, with their scores, in pre-order. */
  function Hits(t: Tree, query: string): seq<(Tree, nat)>
    decreases t, 1
  {
    if t.kind == Document then
      var s := Score(t.fullKey, t.translations, query);
      if s > Threshold then [(t, s)] else []
    else HitsBelow(t, |t.children|, query)
  }

  /** The hits below the first `n` children of `t`, in order. */
  function HitsBelow(t: Tree, n: nat, query: string): seq<(Tree, nat)>
    requires n <= |t.children|
    decreases t, 0, n
  {
    if n == 0 then [] else HitsBelow(t, n - 1, query) + Hits(t.children[n - 1], query)
  }

  /** Every hit is a document node with its own score, above the threshold. */
  predicate Scored(hits: seq<(Tree, nat)>, query: string)
  {
    forall h :: h in hits ==>
      h.0.kind == Document && h.1 == Score(h.0.fullKey, h.0.translations, query) && h.1 > Threshold
  }

  lemma {:induction false} HitsSound(t: Tree, query: string)
    ensures Scored(Hits(t, query), query)
    decreases t, 1
  {
    if t.kind != Document {
      HitsBelowSound(t, |t.children|, query);
    }
  }

  lemma {:induction false} HitsBelowSound(t: Tree, n: nat, query: string)
    requires n <= |t.children|
    ensures Scored(HitsBelow(t, n, query), query)
    decreases t, 0, n
  {
    if n > 0 {
      HitsBelowSound(t, n - 1, query);
      HitsSound(t.children[n - 1], query);
    }
  }

  /** Every node strictly above the end of `path` is not a document, so the walk goes through it. */
  predicate Walked(t: Tree, path: seq<nat>)
    requires Outline.PathIn(t, path)
    decreases |path|
  {
    path == [] || (t.kind != Document && Walked(t.children[path[0]], path[1..]))
  }

  /** The hits of a child are among the hits below its parent. */
  lemma {:induction false} HitsBelowHas(t: Tree, n: nat, k: nat, query: string)
    requires k < n <= |t.children|
    ensures forall h :: h in Hits(t.children[k], query) ==> h in HitsBelow(t, n, query)
  {
    if k < n - 1 {
      HitsBelowHas(t, n - 1, k, query);
    }
  }

  /**
   * The walk reaches every document node without a document above it, and keeps
   * it exactly when it scores above the threshold.
   */
  lemma {:induction false} HitsComplete(t: Tree, path: seq<nat>, query: string)
    requires Outline.PathIn(t, path) && Walked(t, path) && Outline.At(t, path).kind == Document
    ensures var d := Outline.At(t, path);
      var s := Score(d.fullKey, d.translations, query);
      (d, s) in Hits(t, query) <==> s > Threshold
    decreases |path|
  {
    var d := Outline.At(t, path);
    HitsSound(t, query);
    if path != [] {
      HitsComplete(t.children[path[0]], path[1..], query);
      HitsBelowHas(t, |t.children|, path[0], query);
    }
  }

  /** An empty query is not searched; otherwise the walk finds no node whose key and translations miss the query. */
  lemma HitsContainQuery(t: Tree, query: string)
    requires query != ""
    ensures forall h :: h in Hits(t, query) ==>
      Strings.Contains(h.0.fullKey, query) ||
      (h.0.translations.Some? && exists l :: l in h.0.translations.value && Strings.Contains(h.0.translations.value[l], query))
  {
    HitsSound(t, query);
    forall h | h in Hits(t, query)
      ensures Strings.Contains(h.0.fullKey, query) ||
        (h.0.translations.Some? && exists l :: l in h.0.translations.value && Strings.Contains(h.0.translations.value[l], query))
    {
      ScoreZero(h.0.fullKey, h.0.translations, query);
    }
  }

  // ---------------------------------------------------------------------------
  // What the walk finds, on the node objects

  /** Valid root nodes whose objects are among `repr`. */
  ghost predicate Forest(nodes: seq<Node>, repr: set<object>)
    reads repr
  {
    forall i :: 0 <= i < |nodes| ==> nodes[i] in repr && nodes[i].Repr <= repr && nodes[i].Valid()
  }

  /** The children of a valid node are valid roots with the objects below it. */
  lemma ChildrenForest(node: Node)
    requires node.Valid()
    ensures Forest(node.children, node.Repr - {node})
  {
  }

  /** The nodes of `node`'s subtree that `traverse` appends, with their scores. */
  ghost function Found(node: Node, query: string): seq<Hit>
    reads node.Repr
    requires node.Valid()
    decreases node.Repr, 0
  {
    if node.kind == Document then
      var s := Score(node.fullKey, node.translations, query);
      if s > Threshold then [(node, s)] else []
    else
      ChildrenForest(node);
      FoundIn(node.children, node.Repr - {node}, |node.children|, query)
  }

  /** What the walk appends for the first `n` nodes of a list, in order. */
  ghost function FoundIn(nodes: seq<Node>, repr: set<object>, n: nat, query: string): seq<Hit>
    reads repr
    requires Forest(nodes, repr) && n <= |nodes|
    decreases repr, 1, n
  {
    if n == 0 then [] else FoundIn(nodes, repr, n - 1, query) + Found(nodes[n - 1], query)
  }

  /** The found nodes are the hits of the subtree's value, node for node. */
  lemma {:induction false} FoundModels(node: Node, query: string)
    requires node.Valid()
    ensures |Found(node, query)| == |Hits(node.Model(), query)|
    ensures forall i :: 0 <= i < |Found(node, query)| ==>
      Found(node, query)[i].0.Valid() && Found(node, query)[i].0.Model() == Hits(node.Model(), query)[i].0
      && Found(node, query)[i].1 == Hits(node.Model(), query)[i].1
    decreases node.Repr, 1
  {
    if node.kind != Document {
      node.ModelChildren();
      ChildrenForest(node);
      FoundInModels(node, |node.children|, query);
    } else {
      assert node.Model().fullKey == node.fullKey && node.Model().translations == node.translations;
    }
  }

  lemma {:induction false} FoundInModels(node: Node, n: nat, query: string)
    requires node.Valid() && n <= |node.children|
    requires forall i :: 0 <= i < |node.children| ==> node.Model().children[i] == node.children[i].Model()
    ensures Forest(node.children, node.Repr - {node})
    ensures var found := FoundIn(node.children, node.Repr - {node}, n, query);
      var hits := HitsBelow(node.Model(), n, query);
      && |found| == |hits|
      && forall i :: 0 <= i < |found| ==>
        found[i].0.Valid() && found[i].0.Model() == hits[i].0 && found[i].1 == hits[i].1
    decreases node.Repr, 0, n
  {
    ChildrenForest(node);
    if n > 0 {
      FoundInModels(node, n - 1, query);
      FoundModels(node.children[n - 1], query);
    }
  }

  // ---------------------------------------------------------------------------
  // top

  /** `hit` put before the first hit of a sorted list that does not score more. */
  function InsertByScore(hit: Hit, sorted: seq<Hit>): (r: seq<Hit>)
    ensures |r| == |sorted| + 1
    ensures multiset(r) == multiset(sorted) + multiset{hit}
  {
    if sorted == [] || hit.1 >= sorted[0].1 then [hit] + sorted
    else
      assert sorted == [sorted[0]] + sorted[1..];
      [sorted[0]] + InsertByScore(hit, sorted[1..])
  }

  /** The hits by non-increasing score; hits of equal score keep their order. */
  function Ranked(hits: seq<Hit>): (r: seq<Hit>)
    ensures |r| == |hits|
    ensures multiset(r) == multiset(hits)
  {
    if hits == [] then []
    else
      assert hits == [hits[0]] + hits[1..];
      InsertByScore(hits[0], Ranked(hits[1..]))
  }

  /** Scores never increase along the list. */
  predicate Descending(hits: seq<Hit>)
  {
    forall i, j :: 0 <= i < j < |hits| ==> hits[i].1 >= hits[j].1
  }

  lemma {:induction false} InsertByScoreDescending(hit: Hit, sorted: seq<Hit>)
    requires Descending(sorted)
    ensures Descending(InsertByScore(hit, sorted))
    ensures InsertByScore(hit, sorted) != [] && InsertByScore(hit, sorted)[0].1 >= hit.1
    ensures sorted != [] ==> InsertByScore(hit, sorted)[0].1 >= sorted[0].1
  {
    if sorted != [] && hit.1 < sorted[0].1 {
      InsertByScoreDescending(hit, sorted[1..]);
    }
  }

  /** `sorted(by: { $0.1 > $1.1 })`: a reordering of the hits by non-increasing score. */
  lemma {:induction false} RankedDescending(hits: seq<Hit>)
    ensures Descending(Ranked(hits))
  {
    if hits != [] {
      RankedDescending(hits[1..]);
      InsertByScoreDescending(hits[0], Ranked(hits[1..]));
    }
  }

  /** `top(n)`: the first `n` nodes of the ranked hits. */
  function Top(hits: seq<Hit>, n: nat): (r: seq<Node>)
  {
    var ranked := Ranked(hits);
    var k := if n < |ranked| then n else |ranked|;
    seq(k, i requires 0 <= i < k => ranked[i].0)
  }

  /**
   * `top(n)` gives `n` nodes, or all when there are fewer hits; each is a found
   * node, listed with a score no lower than the next one's, and no hit left out
   * scores more than a node kept.
   */
  lemma TopBest(hits: seq<Hit>, n: nat)
    ensures |Top(hits, n)| == if n < |hits| then n else |hits|
    ensures forall i :: 0 <= i < |Top(hits, n)| ==> (Top(hits, n)[i], Ranked(hits)[i].1) in hits
    ensures forall i, j :: 0 <= i < |Top(hits, n)| <= j < |hits| ==> Ranked(hits)[i].1 >= Ranked(hits)[j].1
    ensures forall i, j :: 0 <= i < j < |Top(hits, n)| ==> Ranked(hits)[i].1 >= Ranked(hits)[j].1
  {
    RankedDescending(hits);
    var ranked := Ranked(hits);
    forall i | 0 <= i < |Top(hits, n)|
      ensures (Top(hits, n)[i], ranked[i].1) in hits
    {
      assert ranked[i] in multiset(ranked);
    }
  }

  // ---------------------------------------------------------------------------
  // The search object

  class Search {
    /** The root nodes searched. */
    var nodes: seq<Node>
    var query: string
    /** The nodes found so far, with their scores. */
    var result: seq<Hit>
    /** The objects of the trees below the root nodes. */
    ghost var Repr: set<object>

    ghost predicate Valid()
      reads this, Repr
    {
      this !in Repr && Forest(nodes, Repr)
    }

    /** `init(_:in:)`. */
    constructor(query: string, nodes: seq<Node>, ghost repr: set<object>)
      requires Forest(nodes, repr)
      ensures Valid() && this.nodes == nodes && this.query == query && result == [] && Repr == repr
    {
      this.nodes := nodes;
      this.query := query;
      result := [];
      Repr := repr;
    }

    /** `execute`: no result for an empty query, else the walk over the roots in order. */
    method Execute()
      requires Valid()
      modifies this
      ensures Valid() && nodes == old(nodes) && query == old(query) && Repr == old(Repr)
      ensures result == if query == "" then [] else FoundIn(nodes, Repr, |nodes|, query)
    {
      result := [];
      if query == "" {
        return;
      }
      TraverseAll(nodes, Repr);
    }

    /** `traverse`: a document node is scored and kept above the threshold; any other node is walked through. */
    method Traverse(node: Node)
      requires node.Valid() && this !in node.Repr
      modifies this
      ensures nodes == old(nodes) && query == old(query) && Repr == old(Repr)
      ensures result == old(result) + Found(node, query)
      decreases node.Repr, 0
    {
      if node.kind == Document {
        var score := node.SearchScore(query);
        if score > Threshold {
          result := result + [(node, score)];
        }
      } else {
        ChildrenForest(node);
        TraverseAll(node.children, node.Repr - {node});
      }
    }

    /** `traverse` of each node of a list in turn: the children of a node, or the roots. */
    method TraverseAll(list: seq<Node>, ghost repr: set<object>)
      requires Forest(list, repr) && this !in repr
      modifies this
      ensures nodes == old(nodes) && query == old(query) && Repr == old(Repr)
      ensures result == old(result) + FoundIn(list, repr, |list|, query)
      decreases repr, 1
    {
      for i := 0 to |list|
        invariant nodes == old(nodes) && query == old(query) && Repr == old(Repr)
        invariant result == old(result) + old(FoundIn(list, repr, i, query))
      {
        Traverse(list[i]);
      }
    }
  }

  /** `launch` without its work item: the search's 20 best nodes. */
  method Launch(query: string, nodes: seq<Node>, ghost repr: set<object>) returns (top: seq<Node>)
    requires Forest(nodes, repr)
    ensures top == Top(if query == "" then [] else FoundIn(nodes, repr, |nodes|, query), Shown)
  {
    var search := new Search(query, nodes, repr);
    search.Execute();
    top := Top(search.result, Shown);
  }
}
