/**
 * The data side of the outline (Code/OutlineViewController.swift): the root node
 * list `contents` and the locale set, filled from the loader's dictionary. Each
 * dictionary level becomes one node per key; a dictionary of translations
 * becomes a document node and any other dictionary a container whose entries
 * are its children. The tree controller's `insert` at an index path is list
 * insertion at that index.
 */
module Outline {
  import opened Wrappers
  import opened Strings
  import opened Nodes
  import YamlKey
  import YamlLoader

  type Dictionary = YamlLoader.Dictionary

  // ---------------------------------------------------------------------------
  // What addNodes builds, as values

  /** The keys of a dictionary in ascending order; `addNodes` visits them from the last. */
  function Keys(dict: Dictionary): (r: seq<string>)
    ensures |r| == |dict.Keys|
    ensures forall k :: k in r <==> k in dict
    ensures Ascending(r)
  {
    SortedKeys(dict.Keys)
  }

  /** The `fullKey` of the node for `key` below `keyPath`. */
  function NodeKey(keyPath: seq<string>, key: string): string
  {
    Join(keyPath + [key], '.')
  }

  /**
   * Every node created below `keyPath` gets a key with a segment, which the
   * `didSet` of `fullKey` needs: the path has one already, or it is the root
   * level and every root key has one.
   */
  predicate CanName(dict: Dictionary, keyPath: seq<string>)
  {
    HasSegment(Join(keyPath, '.'), '.') || (keyPath == [] && forall k :: k in dict ==> HasSegment(k, '.'))
  }

  lemma NodeKeyNamed(dict: Dictionary, keyPath: seq<string>, key: string)
    requires CanName(dict, keyPath) && key in dict
    ensures HasSegment(NodeKey(keyPath, key), '.')
  {
    if keyPath != [] {
      NodeKeyExtends(keyPath, key);
      HasSegmentWithin("", Join(keyPath, '.'), "." + key, '.');
      assert "" + Join(keyPath, '.') + ("." + key) == Join(keyPath, '.') + "." + key;
    } else {
      assert NodeKey(keyPath, key) == key;
    }
  }

  /** Below a non-empty path, a node's key is its parent's key, ".", and its own key. */
  lemma NodeKeyExtends(keyPath: seq<string>, key: string)
    requires keyPath != []
    ensures NodeKey(keyPath, key) == Join(keyPath, '.') + "." + key
  {
    JoinAppend(keyPath, key, '.');
  }

  /** `subdict.values.first is String`, the first value taken at the least key. */
  predicate FirstValueIsString(sub: Dictionary)
  {
    sub != map[] && sub[Least(sub.Keys)].Str?
  }

  /** `subdict as? [String: String]`. */
  function Translations(sub: Dictionary): (r: Option<map<string, string>>)
    ensures r.Some? <==> forall l :: l in sub ==> sub[l].Str?
    ensures r.Some? ==> r.value.Keys == sub.Keys && forall l :: l in sub ==> r.value[l] == sub[l].s
  {
    if forall l :: l in sub ==> sub[l].Str? then Some(map l | l in sub :: sub[l].s) else None
  }

  /**
   * The loop of `addNodes` after the keys from position `n` on: the nodes built
   * so far, the keys they were built for, the warnings shown, and whether a
   * value that is no dictionary has stopped the loop.
   */
  datatype Built = Built(trees: seq<Tree>, keys: seq<string>, warnings: nat, stopped: bool)

  function BuildFrom(dict: Dictionary, keyPath: seq<string>, n: nat): (b: Built)
    requires n <= |dict.Keys| && CanName(dict, keyPath)
    ensures |b.trees| == |b.keys|
    ensures (b.keys, b.stopped) == Visit(dict, Keys(dict), n)
    decreases YamlLoader.Dict(dict), 0, |dict.Keys| - n
  {
    if n == |dict.Keys| then Built([], [], 0, false)
    else
      var rest := BuildFrom(dict, keyPath, n + 1);
      var key := Keys(dict)[n];
      if rest.stopped then rest
      else
        match dict[key]
        case Str(_) => rest.(warnings := rest.warnings + 1, stopped := true)
        case Dict(sub) =>
          NodeKeyNamed(dict, keyPath, key);
          var (t, w) := NodeFor(key, sub, keyPath);
          Built([t] + rest.trees, [key] + rest.keys, rest.warnings + w, false)
  }

  /** The nodes `addNodes(dict, keyPath:)` inserts, in the order they end up in. */
  function BuildTrees(dict: Dictionary, keyPath: seq<string>): Built
    requires CanName(dict, keyPath)
  {
    BuildFrom(dict, keyPath, 0)
  }

  /** The node for `key` with its subtree, and the warnings shown while building it. */
  function NodeFor(key: string, sub: Dictionary, keyPath: seq<string>): (r: (Tree, nat))
    requires HasSegment(NodeKey(keyPath, key), '.')
    ensures r.0.fullKey == NodeKey(keyPath, key)
    decreases YamlLoader.Dict(sub), 1
  {
    var fullKey := NodeKey(keyPath, key);
    if FirstValueIsString(sub) then
      (Tree(Document, fullKey, LastPiece(fullKey, '.'), Translations(sub), false, []), 0)
    else
      var below := BuildFrom(sub, keyPath + [key], 0);
      (Tree(Container, fullKey, LastPiece(fullKey, '.'), None, "[0000]" in sub, below.trees), below.warnings)
  }

  // ---------------------------------------------------------------------------
  // Properties of what addNodes builds

  /**
   * The keys the loop of `addNodes` turns into nodes, from position `n` of `keys`
   * on, and whether a value that is no dictionary stopped it: the loop without
   * the nodes.
   */
  function Visit(dict: Dictionary, keys: seq<string>, n: nat): (seq<string>, bool)
    requires n <= |keys| && forall i :: 0 <= i < |keys| ==> keys[i] in dict
    decreases |keys| - n
  {
    if n == |keys| then ([], false)
    else
      var rest := Visit(dict, keys, n + 1);
      if rest.1 then rest
      else if dict[keys[n]].Str? then (rest.0, true)
      else ([keys[n]] + rest.0, false)
  }

  /**
   * The loop visits the keys from the last down: the nodes built are those of
   * the last keys, all of them dictionaries, and all keys from position `n` on
   * when nothing stopped the loop.
   */
  lemma {:induction false} VisitOrder(dict: Dictionary, keys: seq<string>, n: nat)
    requires n <= |keys| && forall i :: 0 <= i < |keys| ==> keys[i] in dict
    ensures var (visited, stopped) := Visit(dict, keys, n);
      && |visited| <= |keys| - n
      && visited == keys[|keys| - |visited|..]
      && (forall k :: k in visited ==> dict[k].Dict?)
      && (!stopped ==> |visited| == |keys| - n)
    decreases |keys| - n
  {
    if n < |keys| {
      VisitOrder(dict, keys, n + 1);
      assert [keys[n]] + keys[n + 1..] == keys[n..];
    }
  }

  /**
   * A stop happens exactly when some value from position `n` on is a
   * translation, which is then the key just below the keys visited.
   */
  lemma {:induction false} VisitStops(dict: Dictionary, keys: seq<string>, n: nat)
    requires n <= |keys| && forall i :: 0 <= i < |keys| ==> keys[i] in dict
    ensures var (visited, stopped) := Visit(dict, keys, n);
      && (stopped <==> exists j :: n <= j < |keys| && dict[keys[j]].Str?)
      && (stopped ==> |visited| < |keys| - n && dict[keys[|keys| - |visited| - 1]].Str?)
    decreases |keys| - n
  {
    if n < |keys| {
      VisitStops(dict, keys, n + 1);
      VisitOrder(dict, keys, n + 1);
    }
  }

  /**
   * `addNodes` leaves the siblings in ascending key order, each node's `fullKey`
   * its key path joined with ".", and every subtree keyed below its parent, so
   * that renaming a built node replaces the key prefix of its whole subtree.
   */
  lemma SiblingsAscending(dict: Dictionary, keyPath: seq<string>)
    requires CanName(dict, keyPath)
    ensures Ascending(BuildTrees(dict, keyPath).keys) && KeyedBelow(keyPath, BuildTrees(dict, keyPath))
  {
    var keys := Keys(dict);
    VisitAscending(dict, keys, 0);
    BuiltPrefixKeyed(dict, keyPath, 0);
    var b := BuildFrom(dict, keyPath, 0);
    assert BuildTrees(dict, keyPath) == b && b.keys == Visit(dict, keys, 0).0;
  }

  /** The keys visited keep the order of `keys`. */
  lemma VisitAscending(dict: Dictionary, keys: seq<string>, n: nat)
    requires n <= |keys| && forall i :: 0 <= i < |keys| ==> keys[i] in dict
    requires Ascending(keys)
    ensures Ascending(Visit(dict, keys, n).0)
  {
    VisitOrder(dict, keys, n);
    var visited := Visit(dict, keys, n).0;
    var m := |keys| - |visited|;
    forall i, j | 0 <= i < j < |visited| ensures Less(visited[i], visited[j]) {
      assert visited[i] == keys[m + i] && visited[j] == keys[m + j];
    }
  }

  /** Each node built has the key path of its key, and its subtree is keyed below it. */
  predicate KeyedBelow(keyPath: seq<string>, b: Built)
  {
    && |b.trees| == |b.keys|
    && forall i :: 0 <= i < |b.trees| ==>
         b.trees[i].fullKey == NodeKey(keyPath, b.keys[i]) && b.trees[i].fullKey != ""
         && PrefixKeyed(b.trees[i])
  }

  /** The nodes `addNodes` builds are keyed below their key path. */
  lemma {:induction false} BuiltPrefixKeyed(dict: Dictionary, keyPath: seq<string>, n: nat)
    requires n <= |dict.Keys| && CanName(dict, keyPath)
    ensures KeyedBelow(keyPath, BuildFrom(dict, keyPath, n))
    decreases YamlLoader.Dict(dict), 0, |dict.Keys| - n
  {
    var keys := Keys(dict);
    if n < |keys| {
      BuiltPrefixKeyed(dict, keyPath, n + 1);
      var rest := BuildFrom(dict, keyPath, n + 1);
      if !rest.stopped && dict[keys[n]].Dict? {
        BuildStep(dict, keyPath, n);
        var node := NodeFor(keys[n], dict[keys[n]].entries, keyPath);
        NodeForPrefixKeyed(keys[n], dict[keys[n]].entries, keyPath);
        KeyedCons(keyPath, node.0, keys[n], rest, rest.warnings + node.1);
      }
    }
  }

  /** A node keyed below `keyPath` put in front keeps the built nodes keyed below it. */
  lemma KeyedCons(keyPath: seq<string>, t: Tree, key: string, rest: Built, warnings: nat)
    requires KeyedBelow(keyPath, rest)
    requires t.fullKey == NodeKey(keyPath, key) && t.fullKey != "" && PrefixKeyed(t)
    ensures KeyedBelow(keyPath, Built([t] + rest.trees, [key] + rest.keys, warnings, false))
  {
    var b := Built([t] + rest.trees, [key] + rest.keys, warnings, false);
    forall i | 0 < i < |b.trees|
      ensures b.trees[i].fullKey == NodeKey(keyPath, b.keys[i]) && b.trees[i].fullKey != ""
      ensures PrefixKeyed(b.trees[i])
    {
      assert b.trees[i] == rest.trees[i - 1] && b.keys[i] == rest.keys[i - 1];
    }
  }

  lemma NodeForPrefixKeyed(key: string, sub: Dictionary, keyPath: seq<string>)
    requires HasSegment(NodeKey(keyPath, key), '.')
    ensures NodeFor(key, sub, keyPath).0.fullKey != ""
    ensures PrefixKeyed(NodeFor(key, sub, keyPath).0)
    decreases YamlLoader.Dict(sub), 1
  {
    var fullKey := NodeKey(keyPath, key);
    if !FirstValueIsString(sub) {
      var path := keyPath + [key];
      assert Join(path, '.') == fullKey;
      BuiltPrefixKeyed(sub, path, 0);
      var below := BuildFrom(sub, path, 0);
      assert KeyedBelow(path, below);
      var t := NodeFor(key, sub, keyPath).0;
      assert t.children == below.trees && t.fullKey == fullKey;
      forall i | 0 <= i < |t.children|
        ensures fullKey + "." <= t.children[i].fullKey && PrefixKeyed(t.children[i])
      {
        NodeKeyExtends(path, below.keys[i]);
        assert below.trees[i].fullKey == fullKey + "." + below.keys[i];
      }
    }
  }

  /**
   * A key every locale file gives a scalar becomes a document node whose
   * translations hold each locale's text.
   */
  lemma ScalarsMakeDocument(key: string, sub: Dictionary, keyPath: seq<string>, text: string, locale: string)
    requires HasSegment(NodeKey(keyPath, key), '.')
    requires forall l :: l in sub ==> sub[l].Str?
    ensures var filled := YamlLoader.Fill(YamlLoader.Scalar(text), sub, locale);
      var t := NodeFor(key, filled, keyPath).0;
      && t.kind == Document && t.children == []
      && t.translations.Some? && t.translations.value.Keys == sub.Keys + {locale}
      && t.translations.value[locale] == text
  {
  }

  /**
   * A YAML sequence becomes a sequence container: its items are stored at
   * "[0000]", "[0001]", ..., each a dictionary, so the first value is no string
   * and the key "[0000]" is present.
   */
  lemma SequenceMakesSequenceContainer(key: string, sub: Dictionary, keyPath: seq<string>,
                                       items: seq<YamlLoader.Yaml>, locale: string)
    requires HasSegment(NodeKey(keyPath, key), '.') && items != []
    requires forall k :: k in sub ==> sub[k].Dict?
    ensures var filled := YamlLoader.Fill(YamlLoader.Sequence(items), sub, locale);
      var t := NodeFor(key, filled, keyPath).0;
      t.kind == Container && t.isSequenceContainer
  {
    var filled := YamlLoader.Fill(YamlLoader.Sequence(items), sub, locale);
    SequenceFilled(items, sub, locale);
    assert !FirstValueIsString(filled);
  }

  /** Filling a sequence into dictionaries gives dictionaries only, with the key "[0000]". */
  lemma SequenceFilled(items: seq<YamlLoader.Yaml>, sub: Dictionary, locale: string)
    requires items != []
    requires forall k :: k in sub ==> sub[k].Dict?
    ensures var filled := YamlLoader.Fill(YamlLoader.Sequence(items), sub, locale);
      && "[0000]" in filled
      && forall k :: k in filled ==> filled[k].Dict?
  {
    var node := YamlLoader.Sequence(items);
    ItemsAreDictionaries(node, |items|, sub, locale);
    YamlLoader.FillItemsFrame(node, |items|, sub, locale);
    FirstIndexKey();
    YamlLoader.ItemKeyIn(0, |items|);
  }

  /** The key of the first sequence item. */
  lemma FirstIndexKey()
    ensures YamlLoader.IndexKey(0) == "[0000]"
  {
    assert YamlLoader.Decimal(0) == "0" && YamlLoader.Zeros(3) == "000";
  }

  /** Every value of a sequence filled into dictionaries is a dictionary. */
  lemma {:induction false} ItemsAreDictionaries(node: YamlLoader.Yaml, n: nat, sub: Dictionary, locale: string)
    requires node.Sequence? && n <= |node.items|
    requires forall k :: k in sub ==> sub[k].Dict?
    ensures forall k :: k in YamlLoader.FillItems(node, n, sub, locale) ==>
      YamlLoader.FillItems(node, n, sub, locale)[k].Dict?
  {
    if n > 0 {
      ItemsAreDictionaries(node, n - 1, sub, locale);
    }
  }

  // ---------------------------------------------------------------------------
  // Node lists

  /**
   * A list of valid subtrees that share no object, whose objects are among
   * `repr` and whose values are `trees`: what a node needs of its children, and
   * what the outline needs of its root list.
   */
  ghost predicate SubtreesOf(nodes: seq<Node>, repr: set<object>, trees: seq<Tree>)
    reads nodes, repr
  {
    && |nodes| == |trees|
    && (forall i :: 0 <= i < |nodes| ==> nodes[i].Repr <= repr && nodes[i].Valid() && nodes[i].Model() == trees[i])
    && (forall i, j :: 0 <= i < j < |nodes| ==> nodes[i].Repr !! nodes[j].Repr)
  }

  /** Inserting a valid subtree with objects of its own in front keeps the list well formed. */
  lemma Prepend(node: Node, nodes: seq<Node>, repr: set<object>, trees: seq<Tree>)
    requires node.Valid() && node.Repr !! repr && SubtreesOf(nodes, repr, trees)
    ensures SubtreesOf([node] + nodes, node.Repr + repr, [node.Model()] + trees)
  {
    assert SubtreesOf([node], node.Repr, [node.Model()]);
    Concat([node], node.Repr, [node.Model()], nodes, repr, trees);
  }

  // ---------------------------------------------------------------------------
  // addNodes, addLeafNode, addBranchNode

  /**
   * `addNodes(dict, indexPath:, keyPath:)`: the keys in descending order, each
   * node inserted at the same index, so that the list returned holds them in
   * ascending order; a value that is no dictionary shows a warning and ends the
   * loop. The list returned is what the loop leaves at its index path, in front
   * of whatever followed there.
   */
  method AddNodes(dict: Dictionary, keyPath: seq<string>) returns (nodes: seq<Node>, warnings: nat, ghost repr: set<object>)
    requires CanName(dict, keyPath)
    ensures SubtreesOf(nodes, repr, BuildTrees(dict, keyPath).trees) && fresh(repr)
    ensures warnings == BuildTrees(dict, keyPath).warnings
    decreases YamlLoader.Dict(dict), 0
  {
    var keys := Keys(dict);
    nodes, warnings, repr := [], 0, {};
    var n := |keys|;
    while n > 0
      invariant 0 <= n <= |keys|
      invariant SubtreesOf(nodes, repr, BuildFrom(dict, keyPath, n).trees) && fresh(repr)
      invariant !BuildFrom(dict, keyPath, n).stopped
      invariant BuildFrom(dict, keyPath, n).warnings == warnings
    {
      n := n - 1;
      var key := keys[n];
      match dict[key] {
        case Str(_) =>
          warnings := warnings + 1;
          StoppedBuild(dict, keyPath, n);
          return;
        case Dict(subdict) =>
          BuildStep(dict, keyPath, n);
          var w;
          nodes, w, repr := AddNode(key, subdict, keyPath, nodes, repr, BuildFrom(dict, keyPath, n + 1).trees);
          warnings := warnings + w;
      }
    }
  }

  /** A dictionary value extends the nodes built after it by its own node. */
  lemma BuildStep(dict: Dictionary, keyPath: seq<string>, n: nat)
    requires n < |dict.Keys| && CanName(dict, keyPath)
    requires !BuildFrom(dict, keyPath, n + 1).stopped && dict[Keys(dict)[n]].Dict?
    ensures HasSegment(NodeKey(keyPath, Keys(dict)[n]), '.')
    ensures var key := Keys(dict)[n];
      var node := NodeFor(key, dict[key].entries, keyPath);
      var rest := BuildFrom(dict, keyPath, n + 1);
      BuildFrom(dict, keyPath, n) == Built([node.0] + rest.trees, [key] + rest.keys, rest.warnings + node.1, false)
  {
    NodeKeyNamed(dict, keyPath, Keys(dict)[n]);
  }

  /** Once the loop has stopped, the keys before the stop are never visited. */
  lemma {:induction false} StoppedBuild(dict: Dictionary, keyPath: seq<string>, n: nat)
    requires n <= |dict.Keys| && CanName(dict, keyPath) && BuildFrom(dict, keyPath, n).stopped
    ensures BuildTrees(dict, keyPath) == BuildFrom(dict, keyPath, n)
    decreases n
  {
    if n > 0 {
      StoppedBuild(dict, keyPath, n - 1);
    }
  }

  /**
   * One turn of the loop of `addNodes`: `Node(fullKey:)`, then a leaf or a branch,
   * inserted in front of the nodes of the later keys.
   */
  method AddNode(key: string, subdict: Dictionary, keyPath: seq<string>,
                 nodes: seq<Node>, ghost repr: set<object>, ghost trees: seq<Tree>)
    returns (inserted: seq<Node>, warnings: nat, ghost repr': set<object>)
    requires HasSegment(NodeKey(keyPath, key), '.') && SubtreesOf(nodes, repr, trees)
    ensures |inserted| == |nodes| + 1 && inserted[1..] == nodes
    ensures SubtreesOf(inserted, repr', [NodeFor(key, subdict, keyPath).0] + trees)
    ensures warnings == NodeFor(key, subdict, keyPath).1
    ensures repr <= repr' && fresh(repr' - repr)
    decreases YamlLoader.Dict(subdict), 3
  {
    var node;
    node, warnings := NewNode(key, subdict, keyPath);
    Prepend(node, nodes, repr, trees);
    inserted, repr' := [node] + nodes, node.Repr + repr;
  }

  /** `Node(fullKey:)` for the key path, made a leaf or a branch. */
  method NewNode(key: string, subdict: Dictionary, keyPath: seq<string>) returns (node: Node, warnings: nat)
    requires HasSegment(NodeKey(keyPath, key), '.')
    ensures node.Valid() && fresh(node.Repr)
    ensures (node.Model(), warnings) == NodeFor(key, subdict, keyPath)
    decreases YamlLoader.Dict(subdict), 2
  {
    node := new Node(Join(keyPath + [key], '.'));
    if FirstValueIsString(subdict) {
      AddLeafNode(node, Translations(subdict));
      warnings := 0;
    } else {
      warnings := AddBranchNode(node, subdict, keyPath + [key]);
    }
  }

  /** `addLeafNode`. */
  method AddLeafNode(node: Node, translations: Option<map<string, string>>)
    requires node.Valid() && node.children == []
    modifies node
    ensures node.Valid() && node.Repr == old(node.Repr)
    ensures node.Model() == old(node.Model()).(kind := Document, translations := translations)
  {
    node.kind := Document;
    node.translations := translations;
  }

  /** `addBranchNode`: a container whose children are the nodes of `children`. */
  method AddBranchNode(node: Node, children: Dictionary, keyPath: seq<string>) returns (warnings: nat)
    requires node.Valid() && node.children == [] && node.Repr == {node}
    requires HasSegment(Join(keyPath, '.'), '.') && node.fullKey == Join(keyPath, '.')
    modifies node
    ensures node.Valid() && fresh(node.Repr - {node})
    ensures node.Model() == old(node.Model()).(kind := Container,
      isSequenceContainer := "[0000]" in children, children := BuildTrees(children, keyPath).trees)
    ensures warnings == BuildTrees(children, keyPath).warnings
    decreases YamlLoader.Dict(children), 1
  {
    var below; ghost var repr;
    below, warnings, repr := AddNodes(children, keyPath);
    Adopt(node, Container, "[0000]" in children, below, repr, BuildTrees(children, keyPath).trees);
  }

  /** A childless node becomes the parent of a forest of fresh subtrees. */
  method Adopt(node: Node, kind: NodeType, isSequenceContainer: bool, below: seq<Node>,
                ghost repr: set<object>, ghost trees: seq<Tree>)
    requires node.Valid() && node.children == [] && node.Repr == {node} && node !in repr
    requires SubtreesOf(below, repr, trees)
    modifies node
    ensures node.Valid() && node.Repr == {node} + repr
    ensures node.Model() == Tree(kind, old(node.fullKey), old(node.ownKey), old(node.translations),
      isSequenceContainer, trees)
  {
    node.kind, node.isSequenceContainer, node.children, node.Repr := kind, isSequenceContainer, below, {node} + repr;
    forall i | 0 <= i < |below|
      ensures below[i].Valid() && below[i].Repr == old(below[i].Repr) && below[i].Model() == trees[i]
    {
      Untouched(below[i]);
    }
    AdoptChildren(node, repr, trees);
  }

  /** A node over valid subtrees that share no object, holding their objects, is a valid subtree. */
  lemma AdoptChildren(node: Node, repr: set<object>, models: seq<Tree>)
    requires HasSegment(node.fullKey, '.') && node.ownKey == LastPiece(node.fullKey, '.')
    requires node.Repr == {node} + repr && node !in repr && SubtreesOf(node.children, repr, models)
    ensures node.Valid()
    ensures node.Model() == Tree(node.kind, node.fullKey, node.ownKey, node.translations, node.isSequenceContainer, models)
  {
    forall i | 0 <= i < |node.children|
      ensures node.children[i] in node.children[i].Repr
    {
    }
    assert node.Valid();
    node.ModelChildren();
  }

  // ---------------------------------------------------------------------------
  // addFolderAtItem, addTranslationAtItem

  /** The node `Node(fullKey: target.fullKey + ".untitled")` given the type `kind`. */
  function Untitled(parentKey: string, kind: NodeType): Tree
  {
    var key := parentKey + ".untitled";
    LastPieceAppend(parentKey, "untitled", '.');
    assert key == parentKey + ['.'] + "untitled";
    Tree(kind, key, LastPiece(key, '.'), None, false, [])
  }

  /** The new node is called "untitled" and is keyed below its parent. */
  lemma UntitledKey(parentKey: string, kind: NodeType)
    ensures Untitled(parentKey, kind).ownKey == "untitled"
    ensures parentKey + "." <= Untitled(parentKey, kind).fullKey
    ensures PrefixKeyed(Untitled(parentKey, kind))
  {
    LastPieceAppend(parentKey, "untitled", '.');
    assert parentKey + ".untitled" == parentKey + ['.'] + "untitled";
  }

  /** `path` leads from `t` to a node of its subtree, one child index per level. */
  predicate PathIn(t: Tree, path: seq<nat>)
    decreases |path|
  {
    path == [] || (path[0] < |t.children| && PathIn(t.children[path[0]], path[1..]))
  }

  /** The node `path` leads to. */
  function At(t: Tree, path: seq<nat>): Tree
    requires PathIn(t, path)
    decreases |path|
  {
    if path == [] then t else At(t.children[path[0]], path[1..])
  }

  /** `t` after a new node of type `kind` is inserted after the children of the node at `path`. */
  function AddedAt(t: Tree, path: seq<nat>, kind: NodeType): Tree
    requires PathIn(t, path)
    decreases |path|
  {
    if path == [] then t.(children := t.children + [Untitled(t.fullKey, kind)])
    else t.(children := t.children[path[0] := AddedAt(t.children[path[0]], path[1..], kind)])
  }

  /**
   * The node at `path` gains the untitled node as its last child, and keeps its
   * key and its other children.
   */
  lemma {:induction false} AddedAtTarget(t: Tree, path: seq<nat>, kind: NodeType)
    requires PathIn(t, path)
    ensures PathIn(AddedAt(t, path, kind), path)
    ensures var target := At(t, path);
      At(AddedAt(t, path, kind), path) == target.(children := target.children + [Untitled(target.fullKey, kind)])
    decreases |path|
  {
    if path != [] {
      AddedAtTarget(t.children[path[0]], path[1..], kind);
    }
  }

  /** Adding a node keeps every key of the subtree below its parent's. */
  lemma {:induction false} AddedPrefixKeyed(t: Tree, path: seq<nat>, kind: NodeType)
    requires PathIn(t, path) && PrefixKeyed(t)
    ensures AddedAt(t, path, kind).fullKey == t.fullKey
    ensures PrefixKeyed(AddedAt(t, path, kind))
    decreases |path|
  {
    var r := AddedAt(t, path, kind);
    if path == [] {
      UntitledKey(t.fullKey, kind);
      assert forall i :: 0 <= i < |t.children| ==> r.children[i] == t.children[i];
    } else {
      AddedPrefixKeyed(t.children[path[0]], path[1..], kind);
    }
  }

  /** The untitled node of type `kind`, as a new object. */
  method NewUntitled(parentKey: string, kind: NodeType) returns (node: Node)
    ensures node.Valid() && fresh(node.Repr) && node.Model() == Untitled(parentKey, kind)
  {
    LastPieceAppend(parentKey, "untitled", '.');
    assert parentKey + ".untitled" == parentKey + ['.'] + "untitled";
    node := new Node(parentKey + ".untitled");
    node.kind := kind;
  }

  /** The untitled node inserted after the last child of `target`. */
  method AddHere(target: Node, kind: NodeType) returns (ghost added: set<object>)
    requires target.Valid()
    modifies target
    ensures target.Valid() && target.Repr == old(target.Repr) + added && fresh(added)
    ensures target.Model() == AddedAt(old(target.Model()), [], kind)
  {
    var child := NewUntitled(target.fullKey, kind);
    added := child.Repr;
    Attach(target, child);
  }

  /** `treeController.insert` after the last child of `target`. */
  method Attach(target: Node, child: Node)
    requires target.Valid() && child.Valid() && target.Repr !! child.Repr
    modifies target
    ensures target.Valid() && target.Repr == old(target.Repr) + child.Repr
    ensures target.Model() == old(target.Model()).(children := old(target.Model()).children + [child.Model()])
  {
    ghost var repr := target.Repr - {target};
    ChildrenSubtrees(target);
    var all := target.children + [child];
    ghost var trees := target.Model().children + [child.Model()];
    Append(target.children, child, repr, target.Model().children);
    target.children, target.Repr := all, target.Repr + child.Repr;
    forall i | 0 <= i < |all|
      ensures all[i].Valid() && all[i].Repr == old(all[i].Repr) && all[i].Model() == trees[i]
    {
      Untouched(all[i]);
    }
    AdoptChildren(target, repr + child.Repr, trees);
  }

  /** The children of a valid node are valid subtrees with the objects below it. */
  lemma ChildrenSubtrees(node: Node)
    requires node.Valid()
    ensures SubtreesOf(node.children, node.Repr - {node}, node.Model().children)
  {
    node.ModelChildren();
  }

  /** Appending a valid subtree with objects of its own keeps the list well formed. */
  lemma Append(nodes: seq<Node>, node: Node, repr: set<object>, trees: seq<Tree>)
    requires node.Valid() && node.Repr !! repr && SubtreesOf(nodes, repr, trees)
    ensures SubtreesOf(nodes + [node], repr + node.Repr, trees + [node.Model()])
  {
    var all := nodes + [node];
    assert all[|nodes|] == node;
    assert forall i :: 0 <= i < |nodes| ==> all[i] == nodes[i];
  }

  /**
   * Inserts the untitled node after the children of the node `path` leads to
   * from `node`; every node on the way takes the new object into its footprint.
   */
  method AddBelow(node: Node, path: seq<nat>, kind: NodeType) returns (ghost added: set<object>)
    requires node.Valid() && PathIn(node.Model(), path)
    modifies node.Repr
    ensures node.Valid() && node.Repr == old(node.Repr) + added && fresh(added)
    ensures node.Model() == AddedAt(old(node.Model()), path, kind)
    decreases |path|, 1
  {
    if path == [] {
      added := AddHere(node, kind);
    } else {
      ghost var trees := node.Model().children;
      ChildrenSubtrees(node);
      added := AddInList(node.children, node.Repr - {node}, trees, path[0], path[1..], kind);
      node.Repr := node.Repr + added;
      AdoptChildren(node, old(node.Repr) - {node} + added, trees[path[0] := AddedAt(trees[path[0]], path[1..], kind)]);
    }
  }

  /**
   * `AddBelow` through subtree `k` of a list of subtrees: the list stays well
   * formed, with the new objects, and subtree `k` has the node added.
   */
  method AddInList(nodes: seq<Node>, ghost repr: set<object>, ghost trees: seq<Tree>, k: nat, path: seq<nat>,
                   kind: NodeType) returns (ghost added: set<object>)
    requires SubtreesOf(nodes, repr, trees) && k < |nodes| && PathIn(trees[k], path)
    modifies nodes[k].Repr
    ensures fresh(added)
    ensures SubtreesOf(nodes, repr + added, trees[k := AddedAt(trees[k], path, kind)])
    decreases |path| + 1, 0
  {
    var child := nodes[k];
    added := AddBelow(child, path, kind);
    forall i | 0 <= i < |nodes| && i != k
      ensures nodes[i].Valid() && nodes[i].Model() == trees[i]
      ensures nodes[i].Repr == old(nodes[i].Repr) && nodes[i].Repr !! child.Repr
    {
      Untouched(nodes[i]);
    }
  }

  /** Two lists of subtrees without common objects make one list. */
  lemma Concat(a: seq<Node>, ra: set<object>, ta: seq<Tree>, b: seq<Node>, rb: set<object>, tb: seq<Tree>)
    requires SubtreesOf(a, ra, ta) && SubtreesOf(b, rb, tb) && ra !! rb
    ensures SubtreesOf(a + b, ra + rb, ta + tb)
  {
    var all := a + b;
    assert forall i :: 0 <= i < |a| ==> all[i] == a[i];
    assert forall i :: |a| <= i < |all| ==> all[i] == b[i - |a|];
  }

  // ---------------------------------------------------------------------------
  // Locales

  /**
   * The loop of `populateFromYamls` over the accepted files in `urls` order,
   * each calling `useLocale` with its locale: the locales in use afterwards, and
   * the files warned about for an invalid or duplicate locale.
   */
  function UseLocales(locales: set<string>, urls: seq<string>, byFile: map<string, string>)
    : (r: (set<string>, seq<string>))
    requires forall i :: 0 <= i < |urls| ==> urls[i] in byFile
    decreases |urls|
  {
    if urls == [] then (locales, [])
    else
      var url := urls[|urls| - 1];
      UseFileLocale(UseLocales(locales, urls[..|urls| - 1], byFile), url, byFile[url])
  }

  /** One turn of that loop: the file's locale is used, or the file is warned about. */
  function UseFileLocale(state: (set<string>, seq<string>), url: string, locale: string): (set<string>, seq<string>)
  {
    var sanitized := YamlKey.Sanitized(locale);
    if sanitized.Some? && sanitized.value !in state.0 then (state.0 + {sanitized.value}, state.1)
    else (state.0, state.1 + [url])
  }

  /** The loop after `i + 1` files is one more turn after `i` files. */
  lemma UseLocalesPrefix(locales: set<string>, urls: seq<string>, byFile: map<string, string>, i: nat)
    requires i < |urls| && forall j :: 0 <= j < |urls| ==> urls[j] in byFile
    ensures UseLocales(locales, urls[..i + 1], byFile)
      == UseFileLocale(UseLocales(locales, urls[..i], byFile), urls[i], byFile[urls[i]])
  {
    assert urls[..i + 1][..i] == urls[..i];
  }

  /** The sanitized forms of the locales of the files that have one. */
  function SanitizedLocales(urls: seq<string>, byFile: map<string, string>): set<string>
    requires forall i :: 0 <= i < |urls| ==> urls[i] in byFile
  {
    if urls == [] then {}
    else
      var sanitized := YamlKey.Sanitized(byFile[urls[|urls| - 1]]);
      SanitizedLocales(urls[..|urls| - 1], byFile) + (if sanitized.Some? then {sanitized.value} else {})
  }

  /** The locales in use afterwards are the ones there were and the sanitized locales of the files. */
  lemma {:induction false} UseLocalesUsed(locales: set<string>, urls: seq<string>, byFile: map<string, string>)
    requires forall i :: 0 <= i < |urls| ==> urls[i] in byFile
    ensures UseLocales(locales, urls, byFile).0 == locales + SanitizedLocales(urls, byFile)
    decreases |urls|
  {
    if urls != [] {
      UseLocalesUsed(locales, urls[..|urls| - 1], byFile);
    }
  }

  /** Every file either adds a locale not in use before or is warned about. */
  lemma {:induction false} UseLocalesCount(locales: set<string>, urls: seq<string>, byFile: map<string, string>)
    requires forall i :: 0 <= i < |urls| ==> urls[i] in byFile
    ensures locales <= UseLocales(locales, urls, byFile).0
    ensures |UseLocales(locales, urls, byFile).0| + |UseLocales(locales, urls, byFile).1| == |locales| + |urls|
    decreases |urls|
  {
    if urls != [] {
      var front := urls[..|urls| - 1];
      UseLocalesCount(locales, front, byFile);
      UseFileLocaleCount(UseLocales(locales, front, byFile), urls[|urls| - 1], byFile[urls[|urls| - 1]]);
    }
  }

  /** One turn adds one locale or one warning. */
  lemma UseFileLocaleCount(state: (set<string>, seq<string>), url: string, locale: string)
    ensures state.0 <= UseFileLocale(state, url, locale).0
    ensures |UseFileLocale(state, url, locale).0| + |UseFileLocale(state, url, locale).1| == |state.0| + |state.1| + 1
  {
    var r := UseFileLocale(state, url, locale);
    var sanitized := YamlKey.Sanitized(locale);
    if sanitized.Some? && sanitized.value !in state.0 {
      assert r.0 == state.0 + {sanitized.value} && r.1 == state.1;
    } else {
      assert r.0 == state.0 && r.1 == state.1 + [url];
    }
  }

  /**
   * A file is warned about only when its locale has no sanitized form or that
   * form is in use.
   */
  lemma {:induction false} UseLocalesWarned(locales: set<string>, urls: seq<string>, byFile: map<string, string>)
    requires forall i :: 0 <= i < |urls| ==> urls[i] in byFile
    ensures var r := UseLocales(locales, urls, byFile);
      forall u :: u in r.1 ==>
        u in urls && (YamlKey.Sanitized(byFile[u]).None? || YamlKey.Sanitized(byFile[u]).value in r.0)
    decreases |urls|
  {
    if urls != [] {
      var front := urls[..|urls| - 1];
      UseLocalesWarned(locales, front, byFile);
      UseLocalesCount(locales, front, byFile);
      var before := UseLocales(locales, front, byFile);
      var r := UseLocales(locales, urls, byFile);
      assert before.0 <= r.0;
      forall u | u in r.1
        ensures u in urls && (YamlKey.Sanitized(byFile[u]).None? || YamlKey.Sanitized(byFile[u]).value in r.0)
      {
        if u in before.1 {
          assert u in front;
        }
      }
    }
  }

  // ---------------------------------------------------------------------------
  // The outline

  /** What `load` hands to the outline: its result, empty after an error. */
  function Loaded(files: seq<YamlLoader.SourceFile>): YamlLoader.Result
  {
    match YamlLoader.ReadFiles(files)
    case None => YamlLoader.Result(map[], map[])
    case Some(state) => YamlLoader.Result(state.dict, state.localesByFile)
  }

  /** The locales the files of `result` give, in ascending url order, and the files refused. */
  function FileLocales(result: YamlLoader.Result): (set<string>, seq<string>)
  {
    UseLocales({}, SortedKeys(result.localesByFile.Keys), result.localesByFile)
  }

  /** The data part of `OutlineViewController`. */
  class Outline {
    /** `contents`: the root nodes, as the tree controller arranges them. */
    var contents: seq<Node>
    /** `locales`. */
    var locales: set<string>
    /** `valueViewController.locales`, the locales the value table shows. */
    var shownLocales: seq<string>
    /** The objects of the trees below the root nodes. */
    ghost var Repr: set<object>
    /** The root nodes and their subtrees as values. */
    ghost var Trees: seq<Tree>

    ghost predicate Valid()
      reads this, contents, Repr
    {
      this !in Repr && SubtreesOf(contents, Repr, Trees)
    }

    constructor()
      ensures Valid() && fresh(Repr)
      ensures contents == [] && Trees == [] && locales == {} && shownLocales == []
    {
      contents, locales, shownLocales := [], {}, [];
      Repr, Trees := {}, [];
    }

    /** `clearData`: no root nodes and no locales; the value table keeps its locales. */
    method ClearData()
      modifies this
      ensures Valid() && Repr == {}
      ensures contents == [] && Trees == [] && locales == {} && shownLocales == old(shownLocales)
    {
      contents, locales := [], {};
      Repr, Trees := {}, [];
    }

    /**
     * `useLocale`: the sanitized locale joins the set unless it has no sanitized
     * form or is in the set already; only then is the value table given the
     * sorted locales.
     */
    method UseLocale(locale: string) returns (ok: bool)
      requires Valid()
      modifies this
      ensures Valid()
      ensures ok <==> YamlKey.Sanitized(locale).Some? && YamlKey.Sanitized(locale).value !in old(locales)
      ensures locales == if ok then old(locales) + {YamlKey.Sanitized(locale).value} else old(locales)
      ensures shownLocales == if ok then SortedKeys(locales) else old(shownLocales)
      ensures contents == old(contents) && Repr == old(Repr) && Trees == old(Trees)
    {
      var sanitized := YamlKey.Sanitized(locale);
      if sanitized.None? || sanitized.value in locales {
        return false;
      }
      locales := locales + {sanitized.value};
      shownLocales := SortedKeys(locales);
      return true;
    }

    /**
     * `populateFromDict`: the nodes of `dict` go in after the root nodes there
     * are, in ascending key order.
     */
    method PopulateFromDict(dict: Dictionary) returns (warnings: nat)
      requires Valid() && CanName(dict, [])
      modifies this
      ensures Valid() && fresh(Repr - old(Repr))
      ensures Trees == old(Trees) + BuildTrees(dict, []).trees
      ensures |contents| == |Trees| && contents[..|old(contents)|] == old(contents)
      ensures warnings == BuildTrees(dict, []).warnings
      ensures locales == old(locales) && shownLocales == old(shownLocales)
    {
      var nodes;
      ghost var repr;
      nodes, warnings, repr := AddNodes(dict, []);
      AppendRoots(nodes, repr, BuildTrees(dict, []).trees);
    }

    /** The root nodes, with subtrees of their own, go in after those there are. */
    method AppendRoots(nodes: seq<Node>, ghost repr: set<object>, ghost trees: seq<Tree>)
      requires Valid() && SubtreesOf(nodes, repr, trees) && Repr !! repr && this !in repr
      modifies this
      ensures Valid() && Repr == old(Repr) + repr
      ensures contents == old(contents) + nodes && Trees == old(Trees) + trees
      ensures locales == old(locales) && shownLocales == old(shownLocales)
    {
      Concat(contents, Repr, Trees, nodes, repr, trees);
      contents, Repr, Trees := contents + nodes, Repr + repr, Trees + trees;
    }

    /**
     * `populateFromYamls`: clears the outline, loads the files, uses the locale
     * of every accepted file in ascending url order, warning about those refused,
     * and builds the nodes of the merged dictionary.
     */
    method PopulateFromYamls(files: seq<YamlLoader.SourceFile>)
      returns (loadWarnings: seq<YamlLoader.Warning>, localeWarnings: seq<string>, structureWarnings: nat)
      requires CanName(Loaded(files).dict, [])
      modifies this
      ensures Valid() && fresh(Repr)
      ensures locales == FileLocales(Loaded(files)).0 && localeWarnings == FileLocales(Loaded(files)).1
      ensures shownLocales == if locales == {} then old(shownLocales) else SortedKeys(locales)
      ensures Trees == BuildTrees(Loaded(files).dict, []).trees
      ensures structureWarnings == BuildTrees(Loaded(files).dict, []).warnings
      ensures loadWarnings == if YamlLoader.ReadFiles(files).None? then [YamlLoader.LoadFailed]
        else YamlLoader.SkipWarnings(YamlLoader.Rejected(files))
    {
      ClearData();
      var result;
      result, loadWarnings := YamlLoader.Load(files);
      assert result == Loaded(files);
      localeWarnings, structureWarnings := Fill(result);
    }

    /** The part of `populateFromYamls` after loading, on an empty outline. */
    method Fill(result: YamlLoader.Result) returns (localeWarnings: seq<string>, structureWarnings: nat)
      requires Valid() && contents == [] && Trees == [] && Repr == {} && locales == {}
      requires CanName(result.dict, [])
      modifies this
      ensures Valid() && fresh(Repr)
      ensures locales == FileLocales(result).0 && localeWarnings == FileLocales(result).1
      ensures shownLocales == if locales == {} then old(shownLocales) else SortedKeys(locales)
      ensures Trees == BuildTrees(result.dict, []).trees
      ensures structureWarnings == BuildTrees(result.dict, []).warnings
    {
      var urls := SortedKeys(result.localesByFile.Keys);
      localeWarnings := UseFileLocales(urls, result.localesByFile);
      structureWarnings := PopulateFromDict(result.dict);
    }

    /**
     * `addFolderAtItem`: a container called "untitled" goes in after the
     * children of the node that `path` gives, its index path from the roots.
     */
    method AddFolderAtItem(path: seq<nat>)
      requires Valid() && path != [] && path[0] < |Trees| && PathIn(Trees[path[0]], path[1..])
      modifies this, Repr
      ensures Valid() && fresh(Repr - old(Repr))
      ensures Trees == old(Trees)[path[0] := AddedAt(old(Trees)[path[0]], path[1..], Container)]
      ensures contents == old(contents) && locales == old(locales) && shownLocales == old(shownLocales)
    {
      InsertUntitled(path, Container);
    }

    /**
     * `addTranslationAtItem`: once the open panel is confirmed (`chosen`), a
     * document called "untitled" goes in after the children of the node at `path`.
     */
    method AddTranslationAtItem(path: seq<nat>, chosen: bool)
      requires Valid() && path != [] && path[0] < |Trees| && PathIn(Trees[path[0]], path[1..])
      modifies this, Repr
      ensures Valid() && fresh(Repr - old(Repr))
      ensures Trees == if chosen then old(Trees)[path[0] := AddedAt(old(Trees)[path[0]], path[1..], Document)]
        else old(Trees)
      ensures contents == old(contents) && locales == old(locales) && shownLocales == old(shownLocales)
    {
      if chosen {
        InsertUntitled(path, Document);
      }
    }

    /** `treeController.insert` of the untitled node of type `kind` below the node at `path`. */
    method InsertUntitled(path: seq<nat>, kind: NodeType)
      requires Valid() && path != [] && path[0] < |Trees| && PathIn(Trees[path[0]], path[1..])
      modifies this, Repr
      ensures Valid() && fresh(Repr - old(Repr))
      ensures Trees == old(Trees)[path[0] := AddedAt(old(Trees)[path[0]], path[1..], kind)]
      ensures contents == old(contents) && locales == old(locales) && shownLocales == old(shownLocales)
    {
      ghost var added;
      added := AddInList(contents, Repr, Trees, path[0], path[1..], kind);
      Repr, Trees := Repr + added, Trees[path[0] := AddedAt(Trees[path[0]], path[1..], kind)];
    }

    /**
     * The locale loop of `populateFromYamls`: `useLocale` with the locale of each
     * file in `urls`, warning about the file when it returns false.
     */
    method UseFileLocales(urls: seq<string>, byFile: map<string, string>) returns (warned: seq<string>)
      requires Valid() && forall i :: 0 <= i < |urls| ==> urls[i] in byFile
      modifies this
      ensures Valid() && contents == old(contents) && Repr == old(Repr) && Trees == old(Trees)
      ensures locales == UseLocales(old(locales), urls, byFile).0
      ensures warned == UseLocales(old(locales), urls, byFile).1
      ensures shownLocales == if locales == old(locales) then old(shownLocales) else SortedKeys(locales)
    {
      warned := [];
      for i := 0 to |urls|
        invariant Valid() && contents == old(contents) && Repr == old(Repr) && Trees == old(Trees)
        invariant locales == UseLocales(old(locales), urls[..i], byFile).0
        invariant warned == UseLocales(old(locales), urls[..i], byFile).1
        invariant old(locales) <= locales
        invariant shownLocales == if locales == old(locales) then old(shownLocales) else SortedKeys(locales)
      {
        UseLocalesPrefix(old(locales), urls, byFile, i);
        warned := UseLocaleOf(urls[i], byFile[urls[i]], warned);
      }
      assert urls[..|urls|] == urls;
    }

    /** The body of the locale loop: `useLocale`, and a warning about the file when it returns false. */
    method UseLocaleOf(url: string, locale: string, warned: seq<string>) returns (warnedAfter: seq<string>)
      requires Valid()
      modifies this
      ensures Valid() && contents == old(contents) && Repr == old(Repr) && Trees == old(Trees)
      ensures (locales, warnedAfter) == UseFileLocale((old(locales), warned), url, locale)
      ensures old(locales) <= locales
      ensures shownLocales == if locales == old(locales) then old(shownLocales) else SortedKeys(locales)
    {
      var ok := UseLocale(locale);
      warnedAfter := if ok then warned else warned + [url];
    }
  }
}
