/**
 * The outline's node objects (Code/Models/Node.swift). A `Node` is a heap object
 * shared by the outline, the value table and the search; its `fullKey` is the
 * dotted key path of the translation, `ownKey` the last segment of it, and
 * assigning `fullKey` renames the whole subtree below the node. `Tree` is the
 * value of a node and its subtree at one moment, used to state what the
 * methods do.
 */
module Nodes {
  import opened Wrappers
  import opened Strings

  /** `NodeType`. */
  datatype NodeType = Container | Document | Sequence | Unknown

  /** A node and its subtree as a value. */
  datatype Tree = Tree(
    kind: NodeType,
    fullKey: string,
    ownKey: string,
    translations: Option<map<string, string>>,
    isSequenceContainer: bool,
    children: seq<Tree>)

  /**
   * Each child's key contains its parent's key: what the rename cascade needs,
   * since it looks the parent's old key up in each child's key and traps when
   * it is missing.
   */
  predicate Nested(t: Tree)
    decreases t, 1
  {
    forall i :: 0 <= i < |t.children| ==> NestedAt(t, i)
  }

  /** Child `i` of `t` contains the key of `t` and is nested itself. */
  predicate NestedAt(t: Tree, i: int)
    decreases t, 0
  {
    0 <= i < |t.children| && Contains(t.children[i].fullKey, t.fullKey) && Nested(t.children[i])
  }

  /** The key a child gets when its parent is renamed from `oldKey` to `newKey`. */
  function ChildKey(childKey: string, oldKey: string, newKey: string): (r: string)
    requires Contains(childKey, oldKey) && HasSegment(newKey, '.')
    ensures HasSegment(r, '.') && Contains(r, newKey)
  {
    ReplaceFirstWithin(childKey, oldKey, newKey, '.');
    ReplaceFirst(childKey, oldKey, newKey)
  }

  /**
   * The subtree after `fullKey := newKey` on its root: the root takes the new key
   * and its last segment as `ownKey`, and every child is renamed in turn to its
   * own key with the root's old key replaced by the new one.
   */
  function Renamed(t: Tree, newKey: string): (r: Tree)
    requires Nested(t) && HasSegment(newKey, '.')
    ensures r.fullKey == newKey && |r.children| == |t.children|
    decreases t, 1
  {
    Tree(t.kind, newKey, LastPiece(newKey, '.'), t.translations, t.isSequenceContainer,
         RenamedChildren(t, newKey))
  }

  function RenamedChildren(t: Tree, newKey: string): (r: seq<Tree>)
    requires Nested(t) && HasSegment(newKey, '.')
    ensures |r| == |t.children|
    decreases t, 0
  {
    seq(|t.children|, i requires 0 <= i < |t.children| =>
      assert NestedAt(t, i);
      Renamed(t.children[i], ChildKey(t.children[i].fullKey, t.fullKey, newKey)))
  }

  /** Each child is renamed to its own key with the old root key replaced. */
  lemma RenamedAt(t: Tree, newKey: string)
    requires Nested(t) && HasSegment(newKey, '.')
    ensures forall k :: NestedAt(t, k) ==>
      Renamed(t, newKey).children[k]
        == Renamed(t.children[k], ChildKey(t.children[k].fullKey, t.fullKey, newKey))
  {
  }

  /** Renaming keeps the keys nested, so the subtree can be renamed again. */
  lemma {:induction false} RenamedNested(t: Tree, newKey: string)
    requires Nested(t) && HasSegment(newKey, '.')
    ensures Nested(Renamed(t, newKey))
    decreases t
  {
    var r := Renamed(t, newKey);
    RenamedAt(t, newKey);
    forall i | 0 <= i < |r.children|
      ensures Contains(r.children[i].fullKey, r.fullKey) && Nested(r.children[i])
    {
      var c := t.children[i];
      assert NestedAt(t, i);
      RenamedNested(c, ChildKey(c.fullKey, t.fullKey, newKey));
    }
  }

  /** Every node of the subtree keeps its kind, translations and number of children. */
  lemma {:induction false} RenamedKeepsContent(t: Tree, newKey: string)
    requires Nested(t) && HasSegment(newKey, '.')
    ensures Shape(Renamed(t, newKey)) == Shape(t)
    decreases t
  {
    var r := Renamed(t, newKey);
    RenamedAt(t, newKey);
    forall i | 0 <= i < |t.children|
      ensures Shape(r.children[i]) == Shape(t.children[i])
    {
      var c := t.children[i];
      assert NestedAt(t, i);
      RenamedKeepsContent(c, ChildKey(c.fullKey, t.fullKey, newKey));
    }
    ShapeOfChildren(r, t);
  }

  /** A tree with its keys blanked out: what a rename must not touch. */
  function Shape(t: Tree): (r: Tree)
    ensures r.kind == t.kind && r.translations == t.translations
    ensures |r.children| == |t.children|
    decreases t, 1
  {
    Tree(t.kind, "", "", t.translations, t.isSequenceContainer, ShapeChildren(t, |t.children|))
  }

  function ShapeChildren(t: Tree, n: nat): (r: seq<Tree>)
    requires n <= |t.children|
    ensures |r| == n
    decreases t, 0, n
  {
    if n == 0 then [] else ShapeChildren(t, n - 1) + [Shape(t.children[n - 1])]
  }

  lemma {:induction false} ShapeChildrenAt(t: Tree, n: nat)
    requires n <= |t.children|
    ensures forall k :: 0 <= k < n ==> ShapeChildren(t, n)[k] == Shape(t.children[k])
  {
    if n > 0 {
      ShapeChildrenAt(t, n - 1);
    }
  }

  lemma ShapeOfChildren(a: Tree, b: Tree)
    requires a.kind == b.kind && a.translations == b.translations
    requires a.isSequenceContainer == b.isSequenceContainer
    requires |a.children| == |b.children|
    requires forall i :: 0 <= i < |a.children| ==> Shape(a.children[i]) == Shape(b.children[i])
    ensures Shape(a) == Shape(b)
  {
    ShapeChildrenAt(a, |a.children|);
    ShapeChildrenAt(b, |b.children|);
    assert ShapeChildren(a, |a.children|) == ShapeChildren(b, |b.children|);
  }

  /**
   * Every key of the subtree starts with its parent's key and a dot, as the keys
   * the outline builds do.
   */
  predicate PrefixKeyed(t: Tree)
    decreases t
  {
    forall i :: 0 <= i < |t.children| ==>
      t.fullKey + "." <= t.children[i].fullKey && PrefixKeyed(t.children[i])
  }

  lemma {:induction false} PrefixKeyedNested(t: Tree)
    requires PrefixKeyed(t) && t.fullKey != ""
    ensures Nested(t)
    decreases t
  {
    forall i | 0 <= i < |t.children|
      ensures Contains(t.children[i].fullKey, t.fullKey) && Nested(t.children[i])
    {
      var c := t.children[i];
      ContainsPrefix(c.fullKey, t.fullKey);
      PrefixKeyedNested(c);
    }
  }

  /** The keys of a subtree all start with the first `n` characters of its root's key. */
  predicate KeysExtend(t: Tree, n: nat)
    decreases t
  {
    n <= |t.fullKey| && forall i :: 0 <= i < |t.children| ==> KeysExtend(t.children[i], n)
  }

  lemma {:induction false} PrefixKeyedExtends(t: Tree, n: nat)
    requires PrefixKeyed(t) && n <= |t.fullKey|
    ensures KeysExtend(t, n)
    decreases t
  {
    forall i | 0 <= i < |t.children| ensures KeysExtend(t.children[i], n) {
      assert (t.fullKey + ".") <= t.children[i].fullKey;
      PrefixKeyedExtends(t.children[i], n);
    }
  }

  /**
   * The reference for a rename in a prefix-keyed subtree: the first `n`
   * characters of every key are replaced by `p`, and every `ownKey` follows.
   */
  function Rekeyed(t: Tree, n: nat, p: string): (r: Tree)
    requires KeysExtend(t, n) && HasSegment(p, '.')
    decreases t, 1
  {
    var k := p + t.fullKey[n..];
    HasSegmentWithin([], p, t.fullKey[n..], '.');
    assert [] + p + t.fullKey[n..] == k;
    Tree(t.kind, k, LastPiece(k, '.'), t.translations, t.isSequenceContainer,
         RekeyedChildren(t, n, p))
  }

  function RekeyedChildren(t: Tree, n: nat, p: string): (r: seq<Tree>)
    requires KeysExtend(t, n) && HasSegment(p, '.')
    ensures |r| == |t.children|
    decreases t, 0
  {
    seq(|t.children|, i requires 0 <= i < |t.children| => Rekeyed(t.children[i], n, p))
  }

  /**
   * In a prefix-keyed subtree, renaming the root replaces the root's old key by
   * the new one at the start of every key below it, and nothing else.
   */
  lemma RenameReplacesPrefix(t: Tree, newKey: string)
    requires PrefixKeyed(t) && t.fullKey != "" && HasSegment(newKey, '.')
    ensures Nested(t)
    ensures KeysExtend(t, |t.fullKey|)
    ensures Renamed(t, newKey) == Rekeyed(t, |t.fullKey|, newKey)
    ensures PrefixKeyed(Renamed(t, newKey))
  {
    PrefixKeyedNested(t);
    PrefixKeyedExtends(t, |t.fullKey|);
    assert newKey + t.fullKey[|t.fullKey|..] == newKey;
    RenameWithin(t, |t.fullKey|, newKey);
  }

  lemma {:induction false} RenameWithin(t: Tree, n: nat, p: string)
    requires PrefixKeyed(t) && Nested(t) && HasSegment(p, '.')
    requires 0 < n <= |t.fullKey|
    ensures KeysExtend(t, n)
    ensures HasSegment(p + t.fullKey[n..], '.')
    ensures Renamed(t, p + t.fullKey[n..]) == Rekeyed(t, n, p)
    ensures PrefixKeyed(Renamed(t, p + t.fullKey[n..]))
    decreases t, 0
  {
    PrefixKeyedExtends(t, n);
    var k := p + t.fullKey[n..];
    HasSegmentWithin([], p, t.fullKey[n..], '.');
    assert [] + p + t.fullKey[n..] == k;
    var r := Renamed(t, k);
    var q := Rekeyed(t, n, p);
    assert r.children == RenamedChildren(t, k);
    assert q.children == RekeyedChildren(t, n, p);
    forall i | 0 <= i < |t.children|
      ensures r.children[i] == q.children[i]
      ensures k + "." <= r.children[i].fullKey && PrefixKeyed(r.children[i])
    {
      var c := t.children[i];
      assert NestedAt(t, i);
      assert r.children[i] == Renamed(c, ChildKey(c.fullKey, t.fullKey, k));
      assert q.children[i] == Rekeyed(c, n, p);
      RenameChildWithin(c, t.fullKey, n, p);
    }
    assert r.children == q.children;
  }

  /** A key that extends `parentKey + "."` gets the new parent key in front of the rest. */
  lemma ChildKeyOfPrefix(key: string, parentKey: string, n: nat, p: string)
    requires HasSegment(p, '.')
    requires parentKey + "." <= key && 0 < n <= |parentKey|
    ensures Contains(key, parentKey) && HasSegment(p + parentKey[n..], '.')
    ensures ChildKey(key, parentKey, p + parentKey[n..]) == p + key[n..]
    ensures p + parentKey[n..] + "." <= p + key[n..]
  {
    var k := p + parentKey[n..];
    HasSegmentWithin([], p, parentKey[n..], '.');
    assert [] + p + parentKey[n..] == k;
    var rest := key[|parentKey|..];
    assert key == parentKey + rest;
    ReplaceFirstPrefix(parentKey, rest, k);
    assert k + rest == p + key[n..];
    assert rest[..1] == ".";
  }

  /** One child of `RenameWithin`: its new key is the parent's new key followed by the rest of its own. */
  lemma {:induction false} RenameChildWithin(c: Tree, parentKey: string, n: nat, p: string)
    requires PrefixKeyed(c) && Nested(c) && HasSegment(p, '.')
    requires parentKey + "." <= c.fullKey && 0 < n <= |parentKey|
    ensures Contains(c.fullKey, parentKey) && HasSegment(p + parentKey[n..], '.')
    ensures KeysExtend(c, n)
    ensures Renamed(c, ChildKey(c.fullKey, parentKey, p + parentKey[n..])) == Rekeyed(c, n, p)
    ensures p + parentKey[n..] + "." <= Renamed(c, ChildKey(c.fullKey, parentKey, p + parentKey[n..])).fullKey
    ensures PrefixKeyed(Renamed(c, ChildKey(c.fullKey, parentKey, p + parentKey[n..])))
    decreases c, 1
  {
    ChildKeyOfPrefix(c.fullKey, parentKey, n, p);
    RenameWithin(c, n, p);
  }

  /**
   * `updateFullKey(newSuffix:)`: all segments but the last, then the new suffix,
   * joined by dots.
   */
  function SuffixRenamed(fullKey: string, newSuffix: string): string
    requires HasSegment(fullKey, '.')
  {
    HasSegmentSplit(fullKey, '.');
    var parts := Split(fullKey, '.');
    Join(parts[..|parts| - 1] + [newSuffix], '.')
  }

  /** A dot-free suffix becomes the last segment, the other segments stay. */
  lemma SuffixRenamedSegments(fullKey: string, newSuffix: string)
    requires HasSegment(fullKey, '.') && newSuffix != "" && '.' !in newSuffix
    ensures HasSegment(SuffixRenamed(fullKey, newSuffix), '.')
    ensures var parts := Split(fullKey, '.');
      |parts| > 0 &&
      Split(SuffixRenamed(fullKey, newSuffix), '.') == parts[..|parts| - 1] + [newSuffix]
    ensures LastPiece(SuffixRenamed(fullKey, newSuffix), '.') == newSuffix
  {
    HasSegmentSplit(fullKey, '.');
    var parts := Split(fullKey, '.');
    var q := parts[..|parts| - 1] + [newSuffix];
    SplitJoin(q, '.');
    HasSegmentSplit(SuffixRenamed(fullKey, newSuffix), '.');
  }

  /** `translations?[locale] = value` behind its guard: nil stays nil. */
  function TranslationSet(translations: Option<map<string, string>>, locale: string, value: string)
    : (r: Option<map<string, string>>)
    ensures r.None? <==> translations.None?
    ensures r.Some? ==> locale in r.value && r.value[locale] == value
    ensures r.Some? ==> forall l :: l != locale ==>
      (l in r.value <==> l in translations.value) &&
      (l in r.value ==> r.value[l] == translations.value[l])
  {
    match translations
    case None => None
    case Some(m) => Some(m[locale := value])
  }

  /** The guard of `updateTranslation`: `translations?[locale] != value`. */
  predicate TranslationDiffers(translations: Option<map<string, string>>, locale: string, value: string)
  {
    !(translations.Some? && locale in translations.value && translations.value[locale] == value)
  }

  // ---------------------------------------------------------------------------
  // Search score

  /** The translation values in the order `searchScore` visits them (ascending locale). */
  function ValuesInOrder(m: map<string, string>): (r: seq<string>)
    ensures |r| == |m|
    ensures forall v :: v in r <==> exists l :: l in m && m[l] == v
  {
    var ls := SortedKeys(m.Keys);
    var r := seq(|ls|, i requires 0 <= i < |ls| => m[ls[i]]);
    assert forall v :: (exists l :: l in m && m[l] == v) ==> v in r by {
      forall v, l | l in m && m[l] == v ensures v in r {
        var i :| 0 <= i < |ls| && ls[i] == l;
        assert r[i] == v;
      }
    }
    r
  }

  /** The loop over the translation values: the first one equal (7) or containing (3) wins. */
  function ValuesScore(values: seq<string>, query: string): (r: nat)
  {
    if values == [] then 0
    else if values[0] == query then 7
    else if Contains(values[0], query) then 3
    else ValuesScore(values[1..], query)
  }

  /** `searchScore`, in tenths: 10, 5, 7, 3 or 0, the first rule that applies. */
  function Score(fullKey: string, translations: Option<map<string, string>>, query: string): nat
  {
    if fullKey == query then 10
    else if Contains(fullKey, query) then 5
    else if translations.Some? then ValuesScore(ValuesInOrder(translations.value), query)
    else 0
  }

  lemma {:induction false} ValuesScoreFacts(values: seq<string>, query: string)
    ensures ValuesScore(values, query) in {0, 3, 7}
    ensures ValuesScore(values, query) == 7 ==> query in values
    ensures ValuesScore(values, query) == 3 ==> exists v :: v in values && v != query && Contains(v, query)
    ensures ValuesScore(values, query) == 0 <==> forall v :: v in values ==> v != query && !Contains(v, query)
    ensures forall i ::
      (0 <= i < |values| && (values[i] == query || Contains(values[i], query)) &&
       forall k :: 0 <= k < i ==> values[k] != query && !Contains(values[k], query)) ==>
      ValuesScore(values, query) == if values[i] == query then 7 else 3
  {
    if values != [] {
      var rest := values[1..];
      ValuesScoreFacts(rest, query);
      assert forall v :: v in values <==> v == values[0] || v in rest;
      forall i | 0 < i < |values| && (values[i] == query || Contains(values[i], query))
        && (forall k :: 0 <= k < i ==> values[k] != query && !Contains(values[k], query))
        ensures ValuesScore(values, query) == if values[i] == query then 7 else 3
      {
        assert values[0] != query && !Contains(values[0], query);
        assert rest[i - 1] == values[i];
        assert forall k :: 0 <= k < i - 1 ==> rest[k] == values[k + 1];
      }
    }
  }

  /**
   * The rules of `searchScore`: an exact key scores 10, a key containing the query
   * 5, otherwise 7 or 3 when some translation equals or contains it, else 0.
   * Whether a node scores at all does not depend on the order of its translations.
   */
  lemma ScoreRules(fullKey: string, translations: Option<map<string, string>>, query: string)
    ensures var s := Score(fullKey, translations, query);
      && s in {0, 3, 5, 7, 10}
      && (s == 10 <==> fullKey == query)
      && (s == 5 <==> fullKey != query && Contains(fullKey, query))
      && (s == 7 ==> translations.Some? && exists l :: l in translations.value && translations.value[l] == query)
      && (s == 3 ==> translations.Some? && exists l :: l in translations.value && Contains(translations.value[l], query))
  {
    if translations.Some? {
      var m := translations.value;
      ValuesScoreFacts(ValuesInOrder(m), query);
    }
  }

  /** A node whose objects are all untouched keeps its validity and its value. */
  twostate lemma Untouched(n: Node)
    requires old(n.Valid()) && unchanged(old(n.Repr))
    ensures n.Valid() && n.Repr == old(n.Repr) && n.Model() == old(n.Model())
  {
  }

  /** For a non-empty query, a node scores 0 exactly when nothing of it contains the query. */
  lemma ScoreZero(fullKey: string, translations: Option<map<string, string>>, query: string)
    requires query != ""
    ensures Score(fullKey, translations, query) == 0 <==>
      !Contains(fullKey, query) &&
      (translations.Some? ==> forall l :: l in translations.value ==> !Contains(translations.value[l], query))
  {
    if fullKey == query {
      ContainsPrefix(fullKey, query);
    }
    if translations.Some? {
      var m := translations.value;
      ValuesScoreFacts(ValuesInOrder(m), query);
      forall l | l in m && m[l] == query ensures Contains(m[l], query) {
        ContainsPrefix(m[l], query);
      }
    }
  }

  // ---------------------------------------------------------------------------
  // The node objects

  class Node {
    var kind: NodeType
    var fullKey: string
    var ownKey: string
    var translations: Option<map<string, string>>
    var isSequenceContainer: bool
    var children: seq<Node>
    /** This node and the nodes below it. */
    ghost var Repr: set<object>

    /**
     * The `didSet` of `fullKey` has run (a key with a segment, `ownKey` its last one),
     * and the children form a tree of their own below this node.
     */
    ghost predicate Valid()
      reads this, Repr
      decreases Repr
    {
      && this in Repr
      && HasSegment(fullKey, '.') && ownKey == LastPiece(fullKey, '.')
      && (forall i :: 0 <= i < |children| ==>
            children[i] in Repr && children[i].Repr <= Repr && this !in children[i].Repr
            && children[i].Valid())
      && (forall i, j :: 0 <= i < j < |children| ==> children[i].Repr !! children[j].Repr)
    }

    /** The node and its subtree as a value. */
    ghost function Model(): (t: Tree)
      reads this, Repr
      requires Valid()
      ensures t.fullKey == fullKey && t.ownKey == ownKey && t.kind == kind
      ensures t.translations == translations && t.isSequenceContainer == isSequenceContainer
      ensures |t.children| == |children|
      decreases Repr, 1
    {
      Tree(kind, fullKey, ownKey, translations, isSequenceContainer, ChildModels(|children|))
    }

    ghost function ChildModels(n: nat): (r: seq<Tree>)
      reads this, Repr
      requires Valid() && n <= |children|
      ensures |r| == n
      decreases Repr, 0, n
    {
      if n == 0 then [] else ChildModels(n - 1) + [children[n - 1].Model()]
    }

    /** The children of the value are the values of the children. */
    lemma ModelChildren()
      requires Valid()
      ensures forall i :: 0 <= i < |children| ==> Model().children[i] == children[i].Model()
    {
      ChildModelsAt(|children|);
    }

    lemma {:induction false} ChildModelsAt(n: nat)
      requires Valid() && n <= |children|
      ensures forall i :: 0 <= i < n ==> ChildModels(n)[i] == children[i].Model()
    {
      if n > 0 {
        ChildModelsAt(n - 1);
      }
    }

    /** `init(fullKey:)`: an `.unknown` node without translations or children. */
    constructor(key: string)
      requires HasSegment(key, '.')
      ensures Valid() && fresh(Repr) && Repr == {this}
      ensures Model() == Tree(Unknown, key, LastPiece(key, '.'), None, false, [])
    {
      kind := Unknown;
      fullKey := key;
      ownKey := LastPiece(key, '.');
      translations := None;
      isSequenceContainer := false;
      children := [];
      Repr := {this};
    }

    /** `isLeaf`. */
    predicate IsLeaf()
      reads this
    {
      kind == Document
    }

    /** Assigning `fullKey`, with its `didSet` renaming the subtree. */
    method SetFullKey(newKey: string)
      requires Valid() && Nested(Model()) && HasSegment(newKey, '.')
      modifies Repr
      ensures Valid() && Repr == old(Repr)
      ensures Model() == Renamed(old(Model()), newKey)
      decreases Repr, 1
    {
      ghost var before := Model();
      ModelChildren();
      var oldKey := fullKey;
      fullKey := newKey;
      ownKey := LastPiece(newKey, '.');
      var i := 0;
      while i < |children|
        invariant Repr == old(Repr) && children == old(children)
        invariant RenamedUpTo(before, oldKey, newKey, i)
      {
        RenameChild(before, oldKey, newKey, i);
        i := i + 1;
      }
      RenamedFromChildren(before, oldKey, newKey);
    }

    /** One turn of the loop of `SetFullKey`: child `i` replaces the old key in its own. */
    method RenameChild(ghost before: Tree, oldKey: string, newKey: string, i: int)
      requires RenamedUpTo(before, oldKey, newKey, i) && i < |children|
      modifies Repr
      ensures Repr == old(Repr) && children == old(children)
      ensures RenamedUpTo(before, oldKey, newKey, i + 1)
      decreases Repr, 0
    {
      var c := children[i];
      assert NestedAt(before, i);
      c.UpdateFullKeyReplacePrefix(oldKey, newKey);
      forall k | 0 <= k < |children| && k != i
        ensures children[k].Valid() && children[k].Repr == old(children[k].Repr)
        ensures children[k].Model() == old(children[k].Model())
      {
        assert old(children[k].Repr !! c.Repr);
        Untouched(children[k]);
      }
    }

    /**
     * The state of the loop of `SetFullKey` after `i` children: the node holds the
     * new key, the first `i` children are renamed and the others are as before.
     */
    ghost predicate RenamedUpTo(before: Tree, oldKey: string, newKey: string, i: int)
      reads this, Repr
    {
      && Valid()
      && Nested(before) && HasSegment(newKey, '.') && oldKey == before.fullKey
      && 0 <= i <= |children| == |before.children|
      && fullKey == newKey
      && kind == before.kind && translations == before.translations
      && isSequenceContainer == before.isSequenceContainer
      && (forall k :: 0 <= k < i ==>
            NestedAt(before, k) &&
            children[k].Model()
              == Renamed(before.children[k], ChildKey(before.children[k].fullKey, oldKey, newKey)))
      && (forall k :: i <= k < |children| ==> children[k].Model() == before.children[k])
    }

    /** The node has the new key and every child is renamed: the subtree is renamed. */
    lemma RenamedFromChildren(before: Tree, oldKey: string, newKey: string)
      requires RenamedUpTo(before, oldKey, newKey, |children|)
      ensures Valid() && Model() == Renamed(before, newKey)
    {
      ModelChildren();
      RenamedAt(before, newKey);
      assert Model().children == Renamed(before, newKey).children;
    }

    /** `updateFullKey(replacePrefix:with:)`: the first occurrence of the old prefix is replaced. */
    method UpdateFullKeyReplacePrefix(oldPrefix: string, newPrefix: string)
      requires Valid() && Nested(Model())
      requires Contains(fullKey, oldPrefix) && HasSegment(newPrefix, '.')
      modifies Repr
      ensures Valid() && Repr == old(Repr)
      ensures Model() == Renamed(old(Model()), ChildKey(old(fullKey), oldPrefix, newPrefix))
      decreases Repr, 2
    {
      SetFullKey(ChildKey(fullKey, oldPrefix, newPrefix));
    }

    /** `updateFullKey(newSuffix:)`. */
    method UpdateFullKeySuffix(newSuffix: string)
      requires Valid() && Nested(Model())
      requires HasSegment(SuffixRenamed(fullKey, newSuffix), '.')
      modifies Repr
      ensures Valid() && Repr == old(Repr)
      ensures Model() == Renamed(old(Model()), SuffixRenamed(old(fullKey), newSuffix))
    {
      HasSegmentSplit(fullKey, '.');
      var parts := Split(fullKey, '.');
      parts := parts[..|parts| - 1];
      SetFullKey(Join(parts + [newSuffix], '.'));
    }

    /**
     * `updateTranslation`: the update notification is posted unless the locale
     * already has that value; with no translations nothing is stored, yet the
     * notification is still posted.
     */
    method UpdateTranslation(locale: string, value: string) returns (posted: bool)
      requires Valid()
      modifies this
      ensures Valid() && Repr == old(Repr)
      ensures posted == TranslationDiffers(old(translations), locale, value)
      ensures translations == if posted then TranslationSet(old(translations), locale, value)
                              else old(translations)
      ensures fullKey == old(fullKey) && ownKey == old(ownKey) && kind == old(kind)
      ensures children == old(children) && isSequenceContainer == old(isSequenceContainer)
    {
      posted := TranslationDiffers(translations, locale, value);
      if posted {
        translations := TranslationSet(translations, locale, value);
      }
    }

    /** `searchScore`, visiting the translation values in ascending locale order. */
    method SearchScore(query: string) returns (score: nat)
      ensures score == Score(fullKey, translations, query)
    {
      if fullKey == query {
        return 10;
      }
      if Contains(fullKey, query) {
        return 5;
      }
      if translations.Some? {
        var values := ValuesInOrder(translations.value);
        var i := 0;
        while i < |values|
          invariant 0 <= i <= |values|
          invariant ValuesScore(values[i..], query) == ValuesScore(values, query)
        {
          assert values[i..][1..] == values[i + 1..];
          if values[i] == query {
            return 7;
          }
          if Contains(values[i], query) {
            return 3;
          }
          i := i + 1;
        }
      }
      return 0;
    }
  }
}
