# LocaLoca locale-file pipeline, modelled in Dafny

LocaLoca is a macOS editor for Rails-style locale files: one YAML file per
locale (`de.yml`, `en.yml`, …), each with the locale as its only top-level key.
This project models the logic between the files and the outline the user edits:

- finding the locale files in a directory (`YamlFinder`);
- reading them and merging every locale into one nested dictionary, with
  translations as `{locale: text}` leaves and sequence items under `[0000]`,
  `[0001]`, … (`YamlLoader`);
- building the outline's `Node` tree from that dictionary, using the locales
  of the files, and adding folders and translations (`Outline`, the data part
  of `OutlineViewController`);
- the `Node` itself: `ownKey` derived from `fullKey`, renaming that cascades
  through the subtree, suffix renames, translation updates and the search score
  (`Nodes`);
- searching the outline (`Search`) and saving it back, one file per locale
  (`Saver`);
- the small cores: locale-key sanitising (`YamlKey`), locale names with flags
  (`Locale`), the row layout of the value table (`ValueTable`) and the list of
  recently opened directories (`RecentlyOpened`).

`Wrappers` (an `Option` type) and `Strings` (splitting, joining, substring
search, the string order and sorted keys) are shared helpers.

Where the program works on heap objects, the model does too. `Node`,
`Outline`, `Search`, `ValueTable` and `RecentlyOpened` are classes whose
methods update their fields. Each node has a ghost footprint `Repr` and a ghost
value `Model()`, the `Tree` it stands for. The methods are proved against pure
functions on `Tree`s, dictionaries and sequences (`Renamed`, `BuildTrees`,
`AddedAt`, `Parse`, `Content`, `Hits`, …). The lemmas state what the program
promises about those functions.

The model follows the code where it and its description differ:

- `YamlKey.sanitized` does no case folding. A name starting with an upper-case
  letter is refused, and `en-US` becomes `en-`: only the trailing run outside
  `[a-z_-]` is trimmed (`YamlKey.SanitizedTrimsRegion`).
- Only the first top-level key of a locale file is checked and loaded. Further
  top-level keys are neither read nor reported (`YamlLoader.ExtraRootKeysIgnored`).
- `clearData` empties the root nodes and the locale set. It does not reset the
  locales the value table shows, so those stay when a directory without usable
  locales is loaded (`Outline.Outline.ClearData`).

## Model

| member | source | states |
|---|---|---|
| YamlKey.Sanitized | Code/Models/YamlKey.swift:9-16 | defined exactly for a non-empty name whose first character is in a-z; the result is then a non-empty prefix of the name that ends in `[a-z_-]`, and every character cut off is outside `[a-z_-]` |
| YamlKey.SanitizedIdempotent | Code/Models/YamlKey.swift:9-16 | sanitising a sanitised key gives it back unchanged |
| YamlKey.SanitizedKeeps | Code/Models/YamlKey.swift:9-16 | `de` and `pt-br` are kept as they are |
| YamlKey.SanitizedRefuses | Code/Models/YamlKey.swift:10-13 | `De` and the empty name are refused |
| YamlKey.SanitizedTrimsRegion | Code/Models/YamlKey.swift:15 | `en-US` becomes `en-`, since the upper-case region is a trailing run outside `[a-z_-]` |
| YamlKey.FirstHead | Code/Models/YamlKey.swift:12-13 | the index of the first a-z character, with none of that kind before it, or none at all |
| YamlKey.TrimStart | Code/Models/YamlKey.swift:15 | drops exactly the leading run outside `[a-z_-]`: the result is a suffix that is empty or starts inside the set |
| YamlKey.TrimEnd | Code/Models/YamlKey.swift:15 | drops exactly the trailing run outside `[a-z_-]`: the result is a prefix that is empty or ends inside the set |
| YamlFinder.KeptFiles | Code/YamlFinder.swift:44-55 | a path is kept iff it is `dir + "/" + name` for a listed name that ends in `.yml` and has exactly two dot-separated components |
| YamlFinder.KeptFilesAppend | Code/YamlFinder.swift:49-51 | the filter keeps the listing order: filtering a concatenation concatenates the results |
| YamlFinder.IsLocaleFileName | Code/YamlFinder.swift:50 | the filter of the listing: a name ending in `.yml` with exactly two `.`-separated parts (examples in `LocaleFileNameExamples`, `OtherExtensionExamples`, `DottedNameExample`) |
| YamlFinder.YamlsInDir | Code/YamlFinder.swift:44-55 | the filtered listing of a directory, each name appended to the directory, and no files when it cannot be listed (stated through `LocaleYamlsInDir`) |
| YamlFinder.DetermineSearchUrl | Code/YamlFinder.swift:30-42 | `base/config/locales` when it exists, else `base` (stated through `LocaleYamlsInDir`) |
| YamlFinder.LocaleYamlsInDir | Code/YamlFinder.swift:20-42 | searches `base/config/locales` exactly when it exists, else `base`; success iff some file is kept; the files are the filtered listing of the searched directory, in listing order, and none when it cannot be listed |
| YamlFinder.OpenUrl | Code/YamlFinder.swift:12-18 | the result is the search result, with exactly one warning when it has no success and none otherwise |
| YamlFinder.LocaleFileNameExamples | Code/YamlFinder.swift:50 | `de.yml` and `en.yml` are locale file names |
| YamlFinder.OtherExtensionExamples | Code/YamlFinder.swift:50 | `es.toml` and `fr.json` are not |
| YamlFinder.DottedNameExample | Code/YamlFinder.swift:50 | `some.gem.de.yml` is not, having more than two components |
| YamlLoader.Parse | Code/YamlLoader.swift:56-81 | after parsing a node at `at`, the dictionary has exactly its old keys plus `at`, `at` holds a dictionary and every other entry is unchanged |
| YamlLoader.ParseYamsNode | Code/YamlLoader.swift:56-81 | the in-place parse leaves exactly `Parse(node, dict, at, locale)` |
| YamlLoader.ParseEntries | Code/YamlLoader.swift:59-66 | the mapping loop, fetching the sub-dictionary again before every entry after the first, fills all entries in order and stores the result at `at` |
| YamlLoader.ParseItems | Code/YamlLoader.swift:67-75 | the sequence loop fills item `i` in at its zero-padded index key, in order |
| YamlLoader.Fetch | Code/YamlLoader.swift:83-89 | the dictionary stored at `at`, or an empty one when there is none or a translation is there (its use stated by `ParseMerges`) |
| YamlLoader.Fill | Code/YamlLoader.swift:57-80 | the fetched sub-dictionary with the node filled in: a scalar under the locale, a mapping entry by entry, a sequence item by item (stated by `FillFrame` and `FillEffect`) |
| YamlLoader.FillEntries | Code/YamlLoader.swift:59-65 | the first `n` entries of a mapping parsed in order, each at its key (stated by `FillEntriesFrame` and `EntriesFillEffect`) |
| YamlLoader.FillItems | Code/YamlLoader.swift:66-74 | the first `n` items of a sequence parsed in order, item `i` at its index key (stated by `FillItemsFrame` and `ItemsFillEffect`) |
| YamlLoader.PaddedIndex | Code/YamlLoader.swift:71-72 | the padding loop puts zeros in front of the decimal index until it has at least four digits |
| YamlLoader.IndexKeyOrder | Code/YamlLoader.swift:67-75 | below 10000, item keys are six characters long, distinct, and sort as their indices do |
| YamlLoader.IndexKeyOrderBreaks | Code/YamlLoader.swift:71-72 | from 10000 on the padding no longer fixes the order: `[10000]` sorts before `[9999]` |
| YamlLoader.FillFrame | Code/YamlLoader.swift:56-81 | filling a node into a sub-dictionary adds exactly the keys it writes (its own keys, the item keys or the locale) and keeps every other entry |
| YamlLoader.FillEntriesFrame | Code/YamlLoader.swift:59-66 | the same for the first `n` entries of a mapping |
| YamlLoader.FillItemsFrame | Code/YamlLoader.swift:67-75 | the same for the first `n` items of a sequence |
| YamlLoader.ParseMerges | Code/YamlLoader.swift:56-89 | the merge is additive: a dictionary already at `at` keeps the entries the node does not write, and a translation found there is replaced by a fresh dictionary |
| YamlLoader.ChainStored | Code/YamlLoader.swift:56-81 | a scalar reached through keys `k1…kn` is stored at `[at, k1, …, kn, locale]`, whatever the dictionary held |
| YamlLoader.ParseEffect | Code/YamlLoader.swift:56-81 | at any depth, a path parsing leaves alone keeps its value, and a path whose last write is a scalar holds that scalar |
| YamlLoader.FillEffect | Code/YamlLoader.swift:57-78 | the same for filling a node into the sub-dictionary fetched at `at` |
| YamlLoader.EntriesFillEffect | Code/YamlLoader.swift:59-65 | the same for the first `n` entries of a mapping, parsed in order |
| YamlLoader.ItemsFillEffect | Code/YamlLoader.swift:66-74 | the same for the first `n` items of a sequence, parsed in order |
| YamlLoader.EffectOtherLocale | Code/YamlLoader.swift:56-81 | a node parsed for one locale never writes the path `keys + [other]` of another locale that is none of its keys |
| YamlLoader.ChainKeepsOtherLocale | Code/YamlLoader.swift:56-81 | parsing a chain of keys for one locale leaves the value of another locale under the same keys as it was |
| YamlLoader.ChainPuts | Code/YamlLoader.swift:59-77 | a chain of keys ending in a scalar writes that scalar under the keys and the locale |
| YamlLoader.FinderFileBaseName | Code/YamlLoader.swift:52 | a file the finder keeps, `dir/<lang>.yml`, has the base name `lang` |
| YamlLoader.BaseName | Code/YamlLoader.swift:52 | the last path component without its extension (stated by `FinderFileBaseName`) |
| YamlLoader.Directory | Code/YamlLoader.swift:100 | the path without its last component, the identifier of the skip warning |
| YamlLoader.SupportedLocaleYaml | Code/YamlLoader.swift:50-54 | a file is supported iff its document has a first top-level key and that key is the file's base name (stated by `ReadFilesAccepts`) |
| YamlLoader.MergeRoot | Code/YamlLoader.swift:38-40 | the entries of the root value are parsed into the dictionary in order; a root value that is no mapping adds nothing |
| YamlLoader.ReadFile | Code/YamlLoader.swift:32-43 | one turn of the file loop: an unreadable or malformed file ends loading, a supported one is merged and recorded, any other is skipped (stated by `ReadFileStep`) |
| YamlLoader.ReadFiles | Code/YamlLoader.swift:31-44 | the file loop over all files in order (stated by `ReadFilesFails`, `ReadFilesAccepts`, `ReadFilesEffect`) |
| YamlLoader.ReadFilesFails | Code/YamlLoader.swift:31-33 | reading fails iff some file cannot be read or composed |
| YamlLoader.ReadFilesStopped | Code/YamlLoader.swift:31-33 | once a file fails, the whole batch fails |
| YamlLoader.ReadFileStep | Code/YamlLoader.swift:34-43 | one turn on a composed file either records its locale under its url (accepted) or appends the url to the skipped list |
| YamlLoader.ReadFilesAccepts | Code/YamlLoader.swift:31-54 | a url has a locale iff some accepted file has it, that locale is the file's base name, and the skipped urls are the rejected files in order |
| YamlLoader.ReadFilesEffect | Code/YamlLoader.swift:31-44 | in the merged dictionary, a path no accepted file writes is absent, and a path whose last write is a scalar holds it |
| YamlLoader.FilesEffectFrom | Code/YamlLoader.swift:31-44 | a write by one file that no later file touches is the last write |
| YamlLoader.TranslationSurvives | Code/YamlLoader.swift:31-44 | a translation a file writes under `keys` and its locale survives every later accepted file whose locale differs, is not one of `keys`, and whose document has no key equal to the earlier locale |
| YamlLoader.ReadTwo | Code/YamlLoader.swift:31-44 | reading two accepted files fills the first file's root value into an empty dictionary, then the second's into the result |
| YamlLoader.LocaleKeyFill | Code/YamlLoader.swift:56-88 | filling `en: {a: x}` and then `de: {a: {en: y}}` replaces the translation at `a`, `en` by the dictionary `{de: y}` |
| YamlLoader.LocaleKeyLosesTranslation | Code/YamlLoader.swift:31-44 | the same through the file loop: after `en.yml` the path `a`, `en` holds "x"; after `de.yml` it holds `{de: y}`, and the English text is lost |
| YamlLoader.AcceptedUrls | Code/YamlLoader.swift:35-37 | extending the files by one keeps the urls with a locale exactly the accepted ones |
| YamlLoader.ExtraRootKeysIgnored | Code/YamlLoader.swift:34-35 | only the first top-level key counts: a file reads the same with its further top-level keys removed |
| YamlLoader.SkipWarnings | Code/YamlLoader.swift:91-101 | at most one warning, and one exactly when some file was skipped |
| YamlLoader.ReadLocaleYamls | Code/YamlLoader.swift:26-48 | the file loop fails iff a file fails; otherwise it returns the merged dictionary and the locales by file, and warns about the skipped files |
| YamlLoader.Load | Code/YamlLoader.swift:15-24 | a failed batch gives an empty result and the load warning; otherwise the merged result and one warning listing exactly the rejected files, if any |
| Outline.Keys | Code/OutlineViewController.swift:179 | the keys of a dictionary, each once, in ascending order |
| Outline.Translations | Code/OutlineViewController.swift:186-197 | a document's translations exist iff every value of its sub-dictionary is a string, and then they are that dictionary |
| Outline.BuildFrom | Code/OutlineViewController.swift:178-193 | the built nodes are those of the keys visited from key `n` on, and the build stops where the key walk stops |
| Outline.BuildTrees | Code/OutlineViewController.swift:178-193 | the nodes `addNodes` inserts for a dictionary, in their final order (stated by `SiblingsAscending`, `BuiltPrefixKeyed`, `AddNodes`) |
| Outline.Visit | Code/OutlineViewController.swift:179-183 | the keys the loop turns into nodes and whether a translation stopped it (stated by `VisitOrder`, `VisitStops`) |
| Outline.VisitOrder | Code/OutlineViewController.swift:179-192 | the keys visited are a contiguous run of the ascending keys that ends at the last key; each holds a dictionary; without a stop all are visited |
| Outline.VisitStops | Code/OutlineViewController.swift:180-183 | `addNodes` stops iff some key holds a translation instead of a dictionary, and it stops at the greatest such key, keeping the nodes already inserted |
| Outline.VisitAscending | Code/OutlineViewController.swift:179 | the visited keys are in ascending order |
| Outline.SiblingsAscending | Code/OutlineViewController.swift:178-206 | descending iteration with insertion at the same index leaves siblings in ascending key order, each keyed below its parent |
| Outline.BuiltPrefixKeyed | Code/OutlineViewController.swift:184-206 | every built node's `fullKey` is its key path and each subtree's keys extend its root's key |
| Outline.NodeForPrefixKeyed | Code/OutlineViewController.swift:184-190 | a node built from a key and its sub-dictionary has a non-empty key that prefixes every key below it |
| Outline.ScalarsMakeDocument | Code/OutlineViewController.swift:186-197 | a key whose values are translations becomes a document holding them, the new locale included |
| Outline.SequenceMakesSequenceContainer | Code/OutlineViewController.swift:201-203 | a key holding a parsed sequence becomes a container marked as a sequence container |
| Outline.SequenceFilled | Code/YamlLoader.swift:67-75 | a parsed non-empty sequence has the key `[0000]` and only dictionaries below it |
| Outline.FirstIndexKey | Code/OutlineViewController.swift:203 | the first item key is `[0000]`, the key the outline tests for |
| Outline.AddNodes | Code/OutlineViewController.swift:178-193 | the inserted nodes are fresh, well-formed subtrees whose models are `BuildTrees(dict, keyPath)`, with its warning count |
| Outline.AddNode | Code/OutlineViewController.swift:184-191 | one key's node goes in front of the nodes inserted so far |
| Outline.NewNode | Code/OutlineViewController.swift:185-191 | the node built for a key is a fresh subtree whose model is `NodeFor` |
| Outline.AddLeafNode | Code/OutlineViewController.swift:195-199 | the node becomes a document holding the translations, nothing else changing |
| Outline.AddBranchNode | Code/OutlineViewController.swift:201-207 | the node becomes a container, a sequence container iff its children have `[0000]`, with the children `addNodes` builds below it |
| Outline.Adopt | Code/OutlineViewController.swift:201-206 | a childless node takes the built subtrees as its children |
| Outline.UntitledKey | Code/OutlineViewController.swift:275 | the added node's own key is `untitled`, its full key extends the target's key and a dot, and its keys are nested |
| Outline.Untitled | Code/OutlineViewController.swift:275-276 | the childless node keyed `<parent>.untitled` of the given kind (stated by `UntitledKey`) |
| Outline.AddedAt | Code/OutlineViewController.swift:273-277 | the tree with the untitled node appended to the children of the node at the path (stated by `AddedAtTarget`, `AddedPrefixKeyed`) |
| Outline.AddedAtTarget | Code/OutlineViewController.swift:273-277 | adding at a path keeps the path valid and gives the target one more child, an untitled node after its existing children, with everything else about the target unchanged |
| Outline.AddedPrefixKeyed | Code/OutlineViewController.swift:273-277 | adding keeps every subtree's keys extending its root's key |
| Outline.NewUntitled | Code/OutlineViewController.swift:275-276 | the new node is a fresh childless node of the given kind keyed `<target>.untitled` |
| Outline.AddHere | Code/OutlineViewController.swift:273-277 | the target's model gets the untitled child appended |
| Outline.Attach | Code/OutlineViewController.swift:277 | appending a child subtree appends its model to the target's children |
| Outline.AddBelow | Code/OutlineViewController.swift:267-281 | inserting below a node at an index path changes its model exactly to `AddedAt` |
| Outline.AddInList | Code/OutlineViewController.swift:267-281 | inserting below node `k` of a list changes only that node's model, to `AddedAt` |
| Outline.UseLocalesUsed | Code/OutlineViewController.swift:150-154 | after the file loop the locale set is the old one plus the sanitised locales of the files |
| Outline.UseLocales | Code/OutlineViewController.swift:150-154 | the locale set and the warned urls after the file loop (stated by `UseLocalesUsed`, `UseLocalesCount`, `UseLocalesWarned`) |
| Outline.UseLocalesCount | Code/OutlineViewController.swift:150-154 | each file either adds one locale or gets one warning |
| Outline.UseFileLocaleCount | Code/OutlineViewController.swift:151-153 | one file either adds one locale or gets one warning, and no locale is lost |
| Outline.UseLocalesWarned | Code/OutlineViewController.swift:151-153 | a warned url is one of the files, and its locale is invalid or already used |
| Outline.Outline.constructor | Code/OutlineViewController.swift:26-27 | an outline starts without root nodes and locales |
| Outline.Outline.ClearData | Code/OutlineViewController.swift:158-161 | no root nodes and no locales afterwards; the locales shown in the value table stay |
| Outline.Outline.UseLocale | Code/OutlineViewController.swift:358-363 | succeeds iff the sanitised locale exists and is new; then it alone is added and the table shows the sorted set, else nothing changes |
| Outline.Outline.PopulateFromDict | Code/OutlineViewController.swift:163-176 | the nodes of the dictionary go in after the existing roots, as `BuildTrees(dict, [])` |
| Outline.Outline.AppendRoots | Code/OutlineViewController.swift:168 | new root subtrees are appended after the existing ones |
| Outline.Outline.PopulateFromYamls | Code/OutlineViewController.swift:143-156 | clears, loads, uses the locale of every file with a warning for each refused one, and builds the roots from the merged dictionary; the load warnings are those of `Load` |
| Outline.Outline.Fill | Code/OutlineViewController.swift:150-155 | on an empty outline, the locales of the loaded files are used and the merged dictionary's nodes built |
| Outline.Outline.UseFileLocales | Code/OutlineViewController.swift:150-154 | the loop over the files in url order leaves the locale set and warnings given by `UseLocales` |
| Outline.Outline.UseLocaleOf | Code/OutlineViewController.swift:151-153 | one file's locale is used, or its url warned about |
| Outline.Outline.AddFolderAtItem | Code/OutlineViewController.swift:267-281 | the tree at the index path gets an untitled container appended to the target's children; nothing else changes |
| Outline.Outline.AddTranslationAtItem | Code/OutlineViewController.swift:284-310 | when a translation was chosen, an untitled document is appended the same way; otherwise nothing changes |
| Outline.Outline.InsertUntitled | Code/OutlineViewController.swift:273-277 | the root list is unchanged except the tree at the path's head, which becomes `AddedAt` |
| Nodes.ScoreRules | Code/Models/Node.swift:82-92 | the score is 10, 5, 7, 3 or 0 tenths; 10 iff the key equals the query; 5 iff the key contains it otherwise; 7 and 3 only for a translation equal to or containing it |
| Nodes.Score | Code/Models/Node.swift:82-92 | the search score in tenths, the first rule that applies (stated by `ScoreRules`, `ScoreZero`) |
| Nodes.ScoreZero | Code/Models/Node.swift:82-92 | for a non-empty query the score is 0 iff neither the key nor any translation contains the query |
| Nodes.ValuesScoreFacts | Code/Models/Node.swift:85-90 | the score of the values is 0, 3 or 7; the first value that equals or contains the query decides it, 7 if equal and 3 if only containing; 0 iff no value matches |
| Nodes.ValuesInOrder | Code/Models/Node.swift:86 | the translation values in the order iterated: one per locale, each one a value of the map |
| Nodes.Node.SearchScore | Code/Models/Node.swift:82-92 | the node's score is `Score` of its key and translations |
| Nodes.Node.IsLeaf | Code/Models/Node.swift:64-66 | a node is a leaf iff it is a document |
| Nodes.Node.constructor | Code/Models/Node.swift:30-33 | a new node is `.unknown`, childless and without translations, with its `ownKey` the last segment of its key |
| Nodes.Node.Model | Code/Models/Node.swift:14-28 | a node's tree carries its fields and one child tree per child |
| Nodes.Node.SetFullKey | Code/Models/Node.swift:16-25 | assigning `fullKey` leaves the subtree renamed: `ownKey` is the last segment, and each child's key has the old key replaced by the new, recursively |
| Nodes.Node.RenameChild | Code/Models/Node.swift:21-23 | one turn of the `didSet` loop renames child `i` and leaves its siblings unchanged |
| Nodes.Node.RenamedFromChildren | Code/Models/Node.swift:16-25 | with every child renamed, the node's model is the renamed tree |
| Nodes.Node.UpdateFullKeyReplacePrefix | Code/Models/Node.swift:42-46 | the first occurrence of the old prefix in the key is replaced, and the subtree renamed to match |
| Nodes.Node.UpdateFullKeySuffix | Code/Models/Node.swift:35-40 | the last segment of the key is replaced by the new suffix, and the subtree renamed to match |
| Nodes.Node.UpdateTranslation | Code/Models/Node.swift:48-52 | the update is posted unless the locale already holds exactly that value; then that entry alone is set, and without translations nothing is stored though the update is still posted; no other field changes |
| Nodes.TranslationSet | Code/Models/Node.swift:50 | `translations?[locale] = value`: nil stays nil; otherwise the locale gets the value and every other entry stays |
| Nodes.RenamedNested | Code/Models/Node.swift:16-25 | renaming keeps the keys of the subtree nested in each other |
| Nodes.RenamedKeepsContent | Code/Models/Node.swift:16-25 | renaming changes keys only: kinds, translations and the shape of the subtree stay |
| Nodes.RenameReplacesPrefix | Code/Models/Node.swift:16-46 | in a subtree whose keys extend its root's, renaming replaces the root key as a prefix of every key below it |
| Nodes.SuffixRenamedSegments | Code/Models/Node.swift:35-40 | a suffix rename keeps all segments but the last and makes the new suffix the `ownKey` |
| Nodes.ChildKey | Code/Models/Node.swift:42-44 | a child's renamed key contains the new key and has a non-empty segment |
| Nodes.Renamed | Code/Models/Node.swift:16-25 | the tree after assigning `fullKey`: the root has the new key and as many children as before |
| Saver.Insert | Code/YamlSaver.swift:34-48 | inserting a node sets its `ownKey` to its content and nothing else: a document gives its translation or "", a sequence container the list of its children's translations, any other node the map of its children |
| Saver.Content | Code/YamlSaver.swift:34-48 | what a node contributes under its `ownKey` (stated by `Insert`, `SavedAt`, `SavedTranslation`) |
| Saver.Entries | Code/YamlSaver.swift:42-46 | the map a container's children build, inserted in order (stated by `EntriesKeys`, `EntriesLast`) |
| Saver.LocaleValue | Code/YamlSaver.swift:26-32 | the value handed to the emitter (stated by `LocaleDocument`, `SavedTranslation`) |
| Saver.InsertAll | Code/YamlSaver.swift:43-45 | inserting the nodes of a list in order leaves `Entries`, where a later sibling with the same `ownKey` overwrites an earlier one |
| Saver.EntriesKeys | Code/YamlSaver.swift:43-46 | the map of a container has exactly its children's `ownKey`s as keys |
| Saver.EntriesLast | Code/YamlSaver.swift:43-46 | under a key, the last child with that `ownKey` wins |
| Saver.SavedAt | Code/YamlSaver.swift:34-48 | following the `ownKey`s of a path from a node reaches the content of the node at that path |
| Saver.SavedTranslation | Code/YamlSaver.swift:27-36 | in a locale's document, under the locale and the key path, a translation is that locale's text or "" |
| Saver.LocaleDocument | Code/YamlSaver.swift:26-32 | the value handed to the emitter has one top-level key, the locale, holding the map of all root nodes |
| Saver.WriteToDisk | Code/YamlSaver.swift:60-67 | a failed write only warns; the text is written to the locale's own file, whose base name is the locale, so the loader reads it back under the same locale |
| Saver.SaveLocale | Code/YamlSaver.swift:16-20 | one locale's outcome: not built, written, or not writable |
| Saver.FilePath | Code/YamlSaver.swift:61 | `<dir>/<locale>.yml` (stated by `SavedFileLoads`, `WriteToDisk`) |
| Saver.Outcome | Code/YamlSaver.swift:15-21 | one locale's event (stated by `OutcomesPerLocale`) |
| Saver.Save | Code/YamlSaver.swift:12-24 | between the two notifications, each locale in ascending order gets exactly its outcome |
| Saver.OutcomesPerLocale | Code/YamlSaver.swift:15-21 | every locale gets one event: written to its own file iff built and writable, otherwise a warning about it; one failure does not stop the others |
| Saver.OutcomesNext | Code/YamlSaver.swift:15-21 | the events of one more locale are those before and then its own |
| Saver.SavedFileLoads | Code/YamlSaver.swift:61 | a saved file has a locale file name, and a document whose first key is its locale is accepted when read back |
| Search.HitsSound | Code/Search.swift:42-53 | every hit is a document whose recorded score is its score, above the threshold |
| Search.Hits | Code/Search.swift:42-53 | the documents of a subtree scoring above the threshold, in pre-order (stated by `HitsSound`, `HitsComplete`, `HitsContainQuery`) |
| Search.HitsComplete | Code/Search.swift:42-53 | a document reached through containers is a hit iff its score is above 0.1 |
| Search.HitsBelowHas | Code/Search.swift:48-51 | the hits below a container include those of each child |
| Search.HitsContainQuery | Code/Search.swift:42-53 | for a non-empty query, every hit's key or one of its translations contains the query |
| Search.FoundModels | Code/Search.swift:42-53 | the hits collected from a node are, in order, those of its model |
| Search.FoundInModels | Code/Search.swift:48-51 | the same for a node's first `n` children |
| Search.InsertByScore | Code/Search.swift:37 | inserting a hit into the ranking adds exactly that hit |
| Search.Ranked | Code/Search.swift:37 | the ranking is a permutation of the hits |
| Search.RankedDescending | Code/Search.swift:37 | the ranking has non-increasing scores |
| Search.InsertByScoreDescending | Code/Search.swift:37 | inserting a hit keeps the scores non-increasing |
| Search.TopBest | Code/Search.swift:36-40 | `top(n)` returns `min(n, hits)` nodes, each collected with its score, in non-increasing score, none beaten by a node left out |
| Search.Top | Code/Search.swift:36-40 | the first `n` nodes of the ranked hits (stated by `TopBest`) |
| Search.Search.Execute | Code/Search.swift:29-34 | an empty query gives no hits; otherwise the hits of the roots in order |
| Search.Search.constructor | Code/Search.swift:24-27 | a search starts with the query, the nodes and no result |
| Search.Search.Traverse | Code/Search.swift:42-53 | appends the node's hits: a document if it scores above 0.1, otherwise the hits of its children in order |
| Search.Search.TraverseAll | Code/Search.swift:48-51 | appends the hits of a list of nodes, in list order |
| Search.Launch | Code/Search.swift:14-22 | the callback gets the top 20 of the hits, none for an empty query |
| Locale.NameWithFlag | Code/Models/Locale.swift:6-9 | the flag, a space and the code when there is a flag, else the code alone |
| Locale.Language | Code/Models/Locale.swift:14 | the language has no `-`, and it is empty iff the code has no non-empty `-`-separated part |
| Locale.LanguageOfSubtags | Code/Models/Locale.swift:14 | the language of `lang-rest` and of `lang` is `lang` |
| Locale.EmojiFlag | Code/Models/Locale.swift:13-49 | a flag, when there is one, is not empty |
| Locale.TableShape | Code/Models/Locale.swift:15-46 | the table's languages are two letters; only `ca` has no flag; the others name a region |
| Locale.TableFlags | Code/Models/Locale.swift:15-46 | `ca` has no flag; a listed language has its region's flag sequence |
| Locale.FlagOfLanguage | Code/Models/Locale.swift:14-47 | the flag depends on the language only, and an unlisted language gets the computed flag |
| Locale.CountryFlag | Code/Models/Locale.swift:51-60 | a computed flag needs a code of exactly two scalars and has one or two scalars |
| Locale.EmojiFlagOfCountryCode | Code/Models/Locale.swift:51-60 | the loop over the upper-cased scalars, skipping invalid ones, builds `CountryFlag` |
| Locale.CountryFlagNeedsTwo | Code/Models/Locale.swift:52 | a code of other than two characters gets no flag |
| Locale.CountryFlagOfLetters | Code/Models/Locale.swift:51-60 | two letters give the regional indicator sequence of their upper case |
| Locale.RegionFlagRoundTrip | Code/Models/Locale.swift:55 | shifting a region code by 0x1F1A5 gives a flag sequence that shifts back to it |
| Locale.Uppercased | Code/Models/Locale.swift:54 | upper-casing keeps the length, leaves no `a`-`z`, turns each lower-case letter into its capital and keeps every other character |
| Locale.Shifted | Code/Models/Locale.swift:55 | the shift lands on a regional indicator symbol iff the scalar is a capital, and `A`..`Z` go in order onto U+1F1E6..U+1F1FF |
| Locale.Shifts | Code/Models/Locale.swift:53-58 | the shifted scalars of a string, skipping those past U+10FFFF; never longer than the string, and when every scalar can be shifted, scalar `k` of the result is scalar `k` of the string shifted |
| ValueTable.ValueTable.constructor | Code/ValueViewController.swift:6-18 | no locales, no nodes, and 0 rows per node |
| ValueTable.ValueTable.SetLocales | Code/ValueViewController.swift:7-12 | setting the locales sets the rows per node to one more than their number |
| ValueTable.ValueTable.SetNodes | Code/ValueViewController.swift:14-18 | setting the nodes changes nothing else |
| ValueTable.ValueTable.NumberOfRows | Code/ValueViewController.swift:36-38 | no rows iff no nodes or no rows per node; two or more per node once there are locales |
| ValueTable.ValueTable.NodeForRow | Code/ValueViewController.swift:73-75 | the node of a row in range is one of the nodes |
| ValueTable.ValueTable.LocaleForRow | Code/ValueViewController.swift:69-71 | the locale of a non-group row in range is one of the locales |
| ValueTable.ValueTable.IsGroupRow | Code/ValueViewController.swift:65-67 | a row is a group row iff it is a multiple of the rows per node (stated by `Layout`, `RowDecomposition`) |
| ValueTable.ValueTable.Layout | Code/ValueViewController.swift:65-75 | node `i` has its group row at `i * rowsPerNode`, followed by one row per locale in order |
| ValueTable.ValueTable.RowDecomposition | Code/ValueViewController.swift:65-75 | every row in range belongs to a node in range, is a group row iff its remainder is 0, and otherwise has a locale in range |
| RecentlyOpened.Capped | Code/RecentlyOpened.swift:24-28 | the stored list is a prefix of the list, all of it up to ten entries and exactly ten otherwise |
| RecentlyOpened.Without | Code/RecentlyOpened.swift:12 | exactly the entries other than the url are kept |
| RecentlyOpened.Added | Code/RecentlyOpened.swift:11-14 | the list `add` stores (stated by `AddedFront`, `AddedIdempotent`) |
| RecentlyOpened.AddedFront | Code/RecentlyOpened.swift:11-14 | after `add`, the url is first and appears once; the other entries follow in their old order, all of them when fewer than ten, otherwise the first nine |
| RecentlyOpened.AddedIdempotent | Code/RecentlyOpened.swift:11-14 | adding the same url twice is the same as once |
| RecentlyOpened.RemovedAsWritten | Code/RecentlyOpened.swift:16-18 | `remove` as written keeps exactly the entries equal to the url |
| RecentlyOpened.RemovedAsWrittenKeepsUrl | Code/RecentlyOpened.swift:16-18 | removing `/a` from `[/a, /b]` keeps `/a` and drops `/b` as written, and the reverse as intended |
| RecentlyOpened.Removed | Code/RecentlyOpened.swift:16-18 | `remove` as intended drops the url and keeps every other entry |
| RecentlyOpened.RemovedAfterAdded | Code/RecentlyOpened.swift:11-18 | removing a url just added leaves the other entries in order |
| RecentlyOpened.RecentlyOpened.constructor | Code/RecentlyOpened.swift:6-9 | the list is whatever the defaults hold |
| RecentlyOpened.RecentlyOpened.Set | Code/RecentlyOpened.swift:24-28 | stores the first ten urls |
| RecentlyOpened.RecentlyOpened.Add | Code/RecentlyOpened.swift:11-14 | the url goes first, once, with at most ten entries |
| RecentlyOpened.RecentlyOpened.Remove | Code/RecentlyOpened.swift:16-18 | the url is gone and the other entries stay (the intended filter) |
| RecentlyOpened.RecentlyOpened.RemoveAll | Code/RecentlyOpened.swift:20-22 | the list is empty |

## Left out

- The YAML parser and emitter (Yams). A parsed document is the input datatype `Yaml`: mappings with string keys, sequences and scalars. The emitter is the parameter `emit`, and the document marker, key sorting, quoting and escaping it produces are not modelled.
- File and settings I/O. Reading a file gives `Composed`, `Unreadable` or `Malformed`; the whitespace trimming before composing belongs to the parser. Writing is the parameter `canWrite`. The directory listing and the existence check are the `FileSystem` value. The user defaults entry is the `stored` field.
- URLs are paths (strings). `deletingPathExtension().lastPathComponent` is modelled for the plain file names the finder produces (`BaseName`).
- Swift dictionaries and sets have no defined iteration order. The model iterates in ascending key order: `for (url, locale) in localesByFile`, `subdict.values.first`, `translations.values` and `for locale in locales`. `Outline.Translations` is order-independent, and `Nodes.ScoreZero` holds for any order.
- `Search.Ranked`: the model sorts stably by score, while Swift's `sorted(by:)` promises no stability. `TopBest` states only what holds for any order among equal scores.
- Scores are integer tenths (10, 5, 7, 3, 0) with the threshold 1, not `Double`s.
- `Locale.EmojiFlag`: the flag literals of the language table are kept as regions (`FlagRegions`), and each flag is the regional indicator pair of its region, as in emoji flag sequences (definition ED-14 of Unicode Technical Standard #51). Upper-casing is ASCII only.
- Concurrency and UI: the work item, cancellation and main-queue dispatch of `launch`; notifications; alerts; the open panel (the `chosen` flag of `AddTranslationAtItem`); the tree controller's selection; `rowToAdd`; drag and drop; icons.
- `NSTreeController.insert` is modelled as list insertion on the nodes' `children` and the outline's `contents`. The item of `addFolderAtItem` and `addTranslationAtItem` is given by its index path.
- The value table's `locales` is the outline's `shownLocales` field. Warnings are returned values or events.
- `Outline.CanName`: every key path must have a non-empty segment. Otherwise `ownKey` would come from `split(...).last!` of an empty list, which crashes the program.
- Documents the model cannot express, because `Yaml` has only string keys and every file composes to a node: an empty document stops the source at the forced unwrap of `compose(yaml:)`, and so does a key below the root that is no scalar (`key.scalar!`). A root key that is no scalar is different: `supportedLocaleYaml` refuses it, and the file is skipped with a warning. That skip path is not modelled.
- Locale.CountryFlag: the source's `count == 2` counts grapheme clusters, and the model counts Unicode scalars, so a two-character code written with combining marks gets a flag in the source but none here.
- Strings.Less and dictionary keys compare strings scalar by scalar. Swift `String` comparison and hashing use canonical equivalence, so two differently normalised spellings of a key are one key in the source and two here. Inputs in one normalisation form behave the same.
- The merge keeps earlier translations only while later files do not use an earlier locale as a key (`TranslationSurvives`). Otherwise `fetchSubdict` finds a translation where it needs a dictionary and starts from an empty one, and the earlier text is lost (`LocaleKeyLosesTranslation`). The model states this limit of the source and does not change it.
- `YamlLoader.IndexKeyOrder` holds below 10000 items only; `IndexKeyOrderBreaks` shows where the order breaks.
- `isSequenceContainer` is used by the outline and the saver but not declared in `Code/Models/Node.swift`. It is a plain field of `Node` here.
- Plural healing and the dropping of mismatched keys that the loader tests expect are not in `Code/YamlLoader.swift`; they are not part of this model.
- `Nodes.Node.SetFullKey` requires the node's keys to be nested (each key below its parent's) and the new key to have a non-empty segment. Outside that, `range(of:)!` or `split(...).last!` crashes the program.

## Findings

| source | as written | input that shows it | evidently intended | confidence | as-written member | corrected member |
|---|---|---|---|---|---|---|
| Code/RecentlyOpened.swift:17 | `remove(url)` keeps the entries whose path equals the url's, so the url stays and every other directory is dropped | list `[/a, /b]`, `remove(/a)` gives `[/a]`; the caller at Code/AppDelegate.swift:37 calls it for a directory without locale files | keep the entries whose path differs, giving `[/b]` | high, not executed | RecentlyOpened.RemovedAsWritten (shown by RecentlyOpened.RemovedAsWrittenKeepsUrl) | RecentlyOpened.Removed (RecentlyOpened.RemovedAfterAdded, RecentlyOpened.RecentlyOpened.Remove) |
