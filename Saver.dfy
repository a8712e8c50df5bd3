/**
 * Saving the outline (Code/YamlSaver.swift): for each locale, the root nodes are
 * turned into one nested value, keyed by the nodes' `ownKey`s, under the locale
 * as its only top-level key; the YAML emitter turns that value into text, which
 * is written to `<locale>.yml` in the target directory. The emitter and the
 * file system are outside the model: the emitter is the parameter `emit`, and
 * whether a write succeeds the parameter `canWrite`.
 */
module Saver {
  import opened Wrappers
  import opened Nodes
  import Outline
  import YamlFinder
  import YamlLoader

  /** A value of the `[String: Any]` handed to the emitter. */
  datatype Out =
    | OStr(s: string)
    | OList(items: seq<string>)
    | OMap(entries: map<string, Out>)

  // ---------------------------------------------------------------------------
  // What `insert` builds, as values

  /** `node.translations?[locale] ?? ""`. */
  function Text(translations: Option<map<string, string>>, locale: string): string
  {
    if translations.Some? && locale in translations.value then translations.value[locale] else ""
  }

  /**
   * What a node contributes under its `ownKey`: a document its translation, a
   * sequence container the translations of its children as a list, and any
   * other node the map its children build.
   */
  function Content(t: Tree, locale: string): Out
    decreases t, 1
  {
    if t.kind == Document then OStr(Text(t.translations, locale))
    else if t.isSequenceContainer then
      OList(seq(|t.children|, i requires 0 <= i < |t.children| => Text(t.children[i].translations, locale)))
    else OMap(Entries(t, |t.children|, locale))
  }

  /** The map the first `n` children of `t` build, inserted in order. */
  function Entries(t: Tree, n: nat, locale: string): map<string, Out>
    requires n <= |t.children|
    decreases t, 0, n
  {
    if n == 0 then map[]
    else Entries(t, n - 1, locale)[t.children[n - 1].ownKey := Content(t.children[n - 1], locale)]
  }

  /** The root list as the children of a nameless container. */
  function Root(trees: seq<Tree>): Tree
  {
    Tree(Container, "", "", None, false, trees)
  }

  /** `[locale: localeContent]`: the value `stringFromTree` hands to the emitter. */
  function LocaleValue(trees: seq<Tree>, locale: string): map<string, Out>
  {
    map[locale := OMap(Entries(Root(trees), |trees|, locale))]
  }

  /** The keys of a node's map are exactly its children's `ownKey`s. */
  lemma {:induction false} EntriesKeys(t: Tree, n: nat, locale: string)
    requires n <= |t.children|
    ensures Entries(t, n, locale).Keys == set j | 0 <= j < n :: t.children[j].ownKey
  {
    if n > 0 {
      EntriesKeys(t, n - 1, locale);
      assert (set j | 0 <= j < n :: t.children[j].ownKey)
        == (set j | 0 <= j < n - 1 :: t.children[j].ownKey) + {t.children[n - 1].ownKey};
    }
  }

  /** No later sibling of child `j` has the same `ownKey`. */
  predicate LastWithKey(t: Tree, j: nat)
  {
    j < |t.children| && forall k :: j < k < |t.children| ==> t.children[k].ownKey != t.children[j].ownKey
  }

  /**
   * Of siblings with the same `ownKey`, the last one's content is the one that
   * stays: each insert overwrites the entry of the one before.
   */
  lemma {:induction false} EntriesLast(t: Tree, n: nat, j: nat, locale: string)
    requires j < n <= |t.children|
    requires forall k :: j < k < n ==> t.children[k].ownKey != t.children[j].ownKey
    ensures t.children[j].ownKey in Entries(t, n, locale)
    ensures Entries(t, n, locale)[t.children[j].ownKey] == Content(t.children[j], locale)
  {
    if j < n - 1 {
      EntriesLast(t, n - 1, j, locale);
    }
  }

  /** The `ownKey`s of the nodes `path` passes through below `t`. */
  function PathKeys(t: Tree, path: seq<nat>): seq<string>
    requires Outline.PathIn(t, path)
    decreases |path|
  {
    if path == [] then [] else [t.children[path[0]].ownKey] + PathKeys(t.children[path[0]], path[1..])
  }

  /**
   * Every node `path` passes through is saved as a map (neither a document nor
   * a sequence container), and no later sibling shadows the child it takes.
   */
  predicate MapPath(t: Tree, path: seq<nat>)
    requires Outline.PathIn(t, path)
    decreases |path|
  {
    path == [] ||
    (t.kind != Document && !t.isSequenceContainer && LastWithKey(t, path[0])
     && MapPath(t.children[path[0]], path[1..]))
  }

  /** The value found by following `keys` through nested maps. */
  function Get(o: Out, keys: seq<string>): Option<Out>
    decreases |keys|
  {
    if keys == [] then Some(o)
    else if o.OMap? && keys[0] in o.entries then Get(o.entries[keys[0]], keys[1..])
    else None
  }

  /** Following the `ownKey`s of a path through the saved value finds the content of the node at its end. */
  lemma {:induction false} SavedAt(t: Tree, path: seq<nat>, locale: string)
    requires Outline.PathIn(t, path) && MapPath(t, path)
    ensures Get(Content(t, locale), PathKeys(t, path)) == Some(Content(Outline.At(t, path), locale))
    decreases |path|
  {
    if path != [] {
      var c := t.children[path[0]];
      EntriesLast(t, |t.children|, path[0], locale);
      SavedAt(c, path[1..], locale);
    }
  }

  /**
   * The file of `locale` holds the translation of every document node, under the
   * locale and the `ownKey`s of the path to it, as long as no sibling on the way
   * shadows it; the leaf test comes first, so a document is saved as a string
   * even when it is flagged as a sequence container.
   */
  lemma SavedTranslation(trees: seq<Tree>, path: seq<nat>, locale: string)
    requires Outline.PathIn(Root(trees), path) && MapPath(Root(trees), path)
    requires Outline.At(Root(trees), path).kind == Document
    ensures Get(OMap(LocaleValue(trees, locale)), [locale] + PathKeys(Root(trees), path))
      == Some(OStr(Text(Outline.At(Root(trees), path).translations, locale)))
  {
    SavedAt(Root(trees), path, locale);
    assert ([locale] + PathKeys(Root(trees), path))[1..] == PathKeys(Root(trees), path);
  }

  // ---------------------------------------------------------------------------
  // insert, stringFromTree

  /** `insert(node, into: &dict, locale:)`: the entry at the node's `ownKey` becomes its content. */
  method Insert(node: Node, ghost t: Tree, dict: map<string, Out>, locale: string) returns (r: map<string, Out>)
    requires node.Valid() && node.Model() == t
    ensures r == dict[t.ownKey := Content(t, locale)]
    decreases node.Repr, 0
  {
    if node.IsLeaf() {
      r := dict[node.ownKey := OStr(Text(node.translations, locale))];
    } else if node.isSequenceContainer {
      var children := node.children;
      var items := seq(|children|, i requires 0 <= i < |children| reads children =>
        Text(children[i].translations, locale));
      node.ModelChildren();
      assert Content(t, locale) == OList(items);
      r := dict[node.ownKey := OList(items)];
    } else {
      Outline.ChildrenSubtrees(node);
      var subdict := InsertAll(node.children, node.Repr - {node}, t, locale);
      r := dict[node.ownKey := OMap(subdict)];
    }
  }

  /**
   * The loop of `insert` over a list of nodes, into a fresh dictionary: the
   * children of a branch node, or the root nodes.
   */
  method InsertAll(nodes: seq<Node>, ghost repr: set<object>, ghost t: Tree, locale: string)
    returns (dict: map<string, Out>)
    requires Outline.SubtreesOf(nodes, repr, t.children)
    ensures dict == Entries(t, |t.children|, locale)
    decreases repr, 1
  {
    dict := map[];
    for i := 0 to |nodes|
      invariant dict == Entries(t, i, locale)
    {
      dict := Insert(nodes[i], t.children[i], dict, locale);
    }
  }

  /**
   * `stringFromTree` up to the emitter: the value it hands to `Yams.dump` has
   * the locale as its only key.
   */
  method LocaleDocument(roots: seq<Node>, ghost repr: set<object>, ghost trees: seq<Tree>, locale: string)
    returns (doc: map<string, Out>)
    requires Outline.SubtreesOf(roots, repr, trees)
    ensures doc == LocaleValue(trees, locale)
  {
    var content := InsertAll(roots, repr, Root(trees), locale);
    doc := map[locale := OMap(content)];
  }

  // ---------------------------------------------------------------------------
  // save, writeToDisk

  /** `dir.appendingPathComponent("<locale>.yml")`. */
  function FilePath(dir: string, locale: string): string
  {
    YamlFinder.AppendPath(dir, locale + ".yml")
  }

  /** What `save` does, in order: notifications, files written and warnings shown. */
  datatype Event =
    | Saving
    | Wrote(path: string, text: string)
    | CouldNotBuild(locale: string)
    | CouldNotWrite(path: string)
    | SavingDone

  /** The one event of `locale` in the loop of `save`. */
  function Outcome(trees: seq<Tree>, locale: string, dir: string,
                   emit: map<string, Out> -> Option<string>, canWrite: string -> bool): Event
  {
    match emit(LocaleValue(trees, locale))
    case None => CouldNotBuild(locale)
    case Some(text) => if canWrite(FilePath(dir, locale)) then Wrote(FilePath(dir, locale), text)
                       else CouldNotWrite(FilePath(dir, locale))
  }

  /** The events of the first `n` locales. */
  function Outcomes(trees: seq<Tree>, locales: seq<string>, n: nat, dir: string,
                    emit: map<string, Out> -> Option<string>, canWrite: string -> bool): (r: seq<Event>)
    requires n <= |locales|
    ensures |r| == n
  {
    seq(n, i requires 0 <= i < n => Outcome(trees, locales[i], dir, emit, canWrite))
  }

  /**
   * `writeToDisk`: a failed write only warns, and a written file is one the
   * loader reads back under the same locale.
   */
  method WriteToDisk(text: string, locale: string, dir: string, canWrite: string -> bool) returns (event: Event)
    ensures event == if canWrite(FilePath(dir, locale)) then Wrote(FilePath(dir, locale), text)
      else CouldNotWrite(FilePath(dir, locale))
    ensures event.Wrote? && locale != "" && '.' !in locale && '/' !in locale ==>
      YamlLoader.BaseName(event.path) == locale
  {
    var path := FilePath(dir, locale);
    if locale != "" && '.' !in locale && '/' !in locale {
      YamlLoader.FinderFileBaseName(dir, locale);
    }
    if canWrite(path) {
      event := Wrote(path, text);
    } else {
      event := CouldNotWrite(path);
    }
  }

  /**
   * `save`: every locale, in ascending order, is built and written or warned
   * about, between the two notifications.
   */
  method Save(roots: seq<Node>, ghost repr: set<object>, ghost trees: seq<Tree>, locales: set<string>,
              dir: string, emit: map<string, Out> -> Option<string>, canWrite: string -> bool)
    returns (events: seq<Event>)
    requires Outline.SubtreesOf(roots, repr, trees)
    ensures var ls := Strings.SortedKeys(locales);
      events == [Saving] + Outcomes(trees, ls, |ls|, dir, emit, canWrite) + [SavingDone]
  {
    var ls := Strings.SortedKeys(locales);
    events := [Saving];
    for i := 0 to |ls|
      invariant events == [Saving] + Outcomes(trees, ls, i, dir, emit, canWrite)
    {
      var event := SaveLocale(roots, repr, trees, ls[i], dir, emit, canWrite);
      OutcomesNext(trees, ls, i, dir, emit, canWrite);
      events := events + [event];
    }
    events := events + [SavingDone];
  }

  /** The events of `n + 1` locales are those of `n` and then the next one's. */
  lemma OutcomesNext(trees: seq<Tree>, locales: seq<string>, n: nat, dir: string,
                     emit: map<string, Out> -> Option<string>, canWrite: string -> bool)
    requires n < |locales|
    ensures Outcomes(trees, locales, n + 1, dir, emit, canWrite)
      == Outcomes(trees, locales, n, dir, emit, canWrite) + [Outcome(trees, locales[n], dir, emit, canWrite)]
  {
  }

  /** One turn of the loop of `save`: build the locale's text, then write it. */
  method SaveLocale(roots: seq<Node>, ghost repr: set<object>, ghost trees: seq<Tree>, locale: string,
                    dir: string, emit: map<string, Out> -> Option<string>, canWrite: string -> bool)
    returns (event: Event)
    requires Outline.SubtreesOf(roots, repr, trees)
    ensures event == Outcome(trees, locale, dir, emit, canWrite)
  {
    var doc := LocaleDocument(roots, repr, trees, locale);
    var text := emit(doc);
    if text.None? {
      event := CouldNotBuild(locale);
    } else {
      event := WriteToDisk(text.value, locale, dir, canWrite);
    }
  }

  /**
   * Every locale gets exactly one event, and only a locale's own file is
   * written: one failure does not stop the others.
   */
  lemma OutcomesPerLocale(trees: seq<Tree>, locales: seq<string>, dir: string,
                          emit: map<string, Out> -> Option<string>, canWrite: string -> bool)
    ensures var r := Outcomes(trees, locales, |locales|, dir, emit, canWrite);
      forall i :: 0 <= i < |locales| ==>
        (r[i].Wrote? <==> emit(LocaleValue(trees, locales[i])).Some? && canWrite(FilePath(dir, locales[i])))
        && (r[i].Wrote? ==> r[i].path == FilePath(dir, locales[i]) && Some(r[i].text) == emit(LocaleValue(trees, locales[i])))
        && (r[i].CouldNotBuild? <==> emit(LocaleValue(trees, locales[i])).None?)
        && (r[i].CouldNotBuild? ==> r[i].locale == locales[i])
  {
  }

  /**
   * A file written for a locale without "." or "/" is one the finder lists and
   * the loader accepts: its base name is the locale, which is the document's
   * first top-level key whenever the emitter keeps the value's one key first.
   */
  lemma SavedFileLoads(dir: string, locale: string, doc: YamlLoader.Yaml)
    requires locale != "" && '.' !in locale && '/' !in locale
    requires YamlLoader.RootEntry(doc).Some? && YamlLoader.RootEntry(doc).value.0 == locale
    ensures YamlFinder.IsLocaleFileName(locale + ".yml")
    ensures YamlLoader.Accepted(YamlLoader.SourceFile(FilePath(dir, locale), YamlLoader.Composed(doc)))
  {
    YamlLoader.FinderFileBaseName(dir, locale);
  }
}
