/**
 * Loading locale files (Code/YamlLoader.swift). Every file holds one locale: its
 * first top-level key names the locale and must equal the file's base name. The
 * trees below that key, from all files, are merged into one nested dictionary
 * whose innermost entries map a locale to its translation; YAML sequences become
 * dictionaries keyed "[0000]", "[0001]", ...
 *
 * Reading a file and composing its YAML are outside the model: each file comes
 * with what they produced (`Content`).
 */
module YamlLoader {
  import opened Wrappers
  import opened Strings
  import YamlFinder

  // ---------------------------------------------------------------------------
  // Documents and the dictionary built from them

  /** A composed YAML node with scalar mapping keys, entries in document order. */
  datatype Yaml =
    | Mapping(entries: seq<(string, Yaml)>)
    | Sequence(items: seq<Yaml>)
    | Scalar(text: string)

  /** A value of the loader's `[String: Any]`: a translation or a nested dictionary. */
  datatype Value = Str(s: string) | Dict(entries: map<string, Value>)

  type Dictionary = map<string, Value>

  /** `fetchSubdict`: the dictionary stored at `at`, or an empty one. */
  function Fetch(dict: Dictionary, at: string): Dictionary
  {
    if at in dict && dict[at].Dict? then dict[at].entries else map[]
  }

  /**
   * What `parseYamsNode(node, into: &dict, at:, locale:)` leaves in `dict`: the
   * entry at `at` becomes the dictionary fetched there with `node` filled in,
   * and no other entry changes.
   */
  function Parse(node: Yaml, dict: Dictionary, at: string, locale: string): (r: Dictionary)
    ensures r.Keys == dict.Keys + {at} && r[at].Dict?
    ensures forall k :: k in dict && k != at ==> r[k] == dict[k]
    decreases node, 2
  {
    dict[at := Dict(Fill(node, Fetch(dict, at), locale))]
  }

  /** The sub-dictionary `sub` after `node` is filled into it. */
  function Fill(node: Yaml, sub: Dictionary, locale: string): Dictionary
    decreases node, 1
  {
    match node
    case Scalar(text) => sub[locale := Str(text)]
    case Mapping(entries) => FillEntries(node, |entries|, sub, locale)
    case Sequence(items) => FillItems(node, |items|, sub, locale)
  }

  /** The first `n` entries of a mapping, parsed in order, each at its own key. */
  function FillEntries(node: Yaml, n: nat, sub: Dictionary, locale: string): Dictionary
    requires node.Mapping? && n <= |node.entries|
    decreases node, 0, n
  {
    if n == 0 then sub
    else
      var entry := node.entries[n - 1];
      assert entry in node.entries;
      Parse(entry.1, FillEntries(node, n - 1, sub, locale), entry.0, locale)
  }

  /** The first `n` items of a sequence, parsed in order, item `i` at `IndexKey(i)`. */
  function FillItems(node: Yaml, n: nat, sub: Dictionary, locale: string): Dictionary
    requires node.Sequence? && n <= |node.items|
    decreases node, 0, n
  {
    if n == 0 then sub
    else Parse(node.items[n - 1], FillItems(node, n - 1, sub, locale), IndexKey(n - 1), locale)
  }

  /** The keys `node` writes into the dictionary it is filled into. */
  function Written(node: Yaml, locale: string): set<string>
  {
    match node
    case Scalar(_) => {locale}
    case Mapping(entries) => EntryKeys(entries, |entries|)
    case Sequence(items) => ItemKeys(|items|)
  }

  function EntryKeys(entries: seq<(string, Yaml)>, n: nat): set<string>
    requires n <= |entries|
  {
    set i | 0 <= i < n :: entries[i].0
  }

  /** The index keys of the first `n` items. */
  function ItemKeys(n: nat): set<string>
  {
    if n == 0 then {} else ItemKeys(n - 1) + {IndexKey(n - 1)}
  }

  /** Item `i` of the first `n` has its index key among theirs. */
  lemma {:induction false} ItemKeyIn(i: nat, n: nat)
    requires i < n
    ensures IndexKey(i) in ItemKeys(n)
  {
    if i < n - 1 {
      ItemKeyIn(i, n - 1);
    }
  }

  // ---------------------------------------------------------------------------
  // Sequence index keys

  function DigitChar(d: nat): char
    requires d < 10
  {
    ('0' as int + d) as char
  }

  /** `String(index)`: decimal digits without leading zeros. */
  function Decimal(i: nat): string
  {
    if i < 10 then [DigitChar(i)] else Decimal(i / 10) + [DigitChar(i % 10)]
  }

  function Zeros(k: nat): (r: string)
    ensures |r| == k
  {
    if k == 0 then [] else Zeros(k - 1) + ['0']
  }

  /** What the padding loop leaves: zeros in front up to four characters. */
  function Padded(i: nat): string
  {
    var d := Decimal(i);
    if |d| < 4 then Zeros(4 - |d|) + d else d
  }

  /** The key of sequence item `i`: `"[\(idx)]"`. */
  function IndexKey(i: nat): string
  {
    "[" + Padded(i) + "]"
  }

  /** The padding loop: prepends "0" while fewer than four characters. */
  method PaddedIndex(index: nat) returns (idx: string)
    ensures idx == Padded(index)
  {
    idx := Decimal(index);
    ghost var d := idx;
    while |idx| < 4
      invariant |idx| >= |d|
      invariant idx == Zeros(|idx| - |d|) + d
      invariant |d| < 4 ==> |idx| <= 4
      invariant |d| >= 4 ==> idx == d
      decreases 4 - |idx|
    {
      ZerosInFront(|idx| - |d|);
      idx := "0" + idx;
    }
  }

  lemma {:induction false} ZerosInFront(k: nat)
    ensures "0" + Zeros(k) == Zeros(k + 1)
  {
    if k > 0 {
      ZerosInFront(k - 1);
    }
  }

  /** The last `w` decimal digits of `n`, leading zeros included. */
  function Digits(n: nat, w: nat): (r: string)
    ensures |r| == w
  {
    if w == 0 then [] else Digits(n / 10, w - 1) + [DigitChar(n % 10)]
  }

  function Pow10(w: nat): nat
  {
    if w == 0 then 1 else 10 * Pow10(w - 1)
  }

  /** The number of decimal digits of `n`. */
  function Width(n: nat): nat
  {
    if n < 10 then 1 else 1 + Width(n / 10)
  }

  lemma {:induction false} DecimalDigits(n: nat)
    ensures Decimal(n) == Digits(n, Width(n))
    ensures n < Pow10(Width(n))
  {
    if n >= 10 {
      DecimalDigits(n / 10);
    }
  }

  lemma {:induction false} WidthAtMost(n: nat, w: nat)
    requires 1 <= w && n < Pow10(w)
    ensures Width(n) <= w
  {
    if n >= 10 {
      WidthAtMost(n / 10, w - 1);
    }
  }

  lemma {:induction false} ZerosDigits(n: nat, w: nat, k: nat)
    requires n < Pow10(w)
    ensures Zeros(k) + Digits(n, w) == Digits(n, w + k)
  {
    if w == 0 {
      ZeroDigits(k);
    } else {
      ZerosDigits(n / 10, w - 1, k);
    }
  }

  lemma {:induction false} ZeroDigits(k: nat)
    ensures Digits(0, k) == Zeros(k)
  {
    if k > 0 {
      ZeroDigits(k - 1);
    }
  }

  /** Below 10000 the padded index is the four-digit decimal form. */
  lemma PaddedDigits(i: nat)
    requires i < 10000
    ensures Padded(i) == Digits(i, 4)
  {
    DecimalDigits(i);
    WidthAtMost(i, 4);
    ZerosDigits(i, Width(i), 4 - Width(i));
  }

  lemma {:induction false} LessAppend(a: string, b: string, x: string, y: string)
    requires |a| == |b| && Less(a, b)
    ensures Less(a + x, b + y)
  {
    if a[0] == b[0] {
      assert (a + x)[1..] == a[1..] + x;
      assert (b + y)[1..] == b[1..] + y;
      LessAppend(a[1..], b[1..], x, y);
    }
  }

  lemma {:induction false} LessLast(p: string, c: char, d: char)
    requires c < d
    ensures Less(p + [c], p + [d])
  {
    if p != [] {
      assert (p + [c])[1..] == p[1..] + [c];
      assert (p + [d])[1..] == p[1..] + [d];
      LessLast(p[1..], c, d);
    }
  }

  lemma {:induction false} DigitsOrder(n: nat, m: nat, w: nat)
    requires n < m < Pow10(w)
    ensures Less(Digits(n, w), Digits(m, w))
  {
    assert w > 0;
    assert m / 10 < Pow10(w - 1);
    if n / 10 < m / 10 {
      DigitsOrder(n / 10, m / 10, w - 1);
      LessAppend(Digits(n / 10, w - 1), Digits(m / 10, w - 1), [DigitChar(n % 10)], [DigitChar(m % 10)]);
    } else {
      LessLast(Digits(n / 10, w - 1), DigitChar(n % 10), DigitChar(m % 10));
    }
  }

  /**
   * Below 10000 the item keys sort as their indices do, so an outline sorted by
   * key shows a sequence in document order; in particular no two items share a key.
   */
  lemma IndexKeyOrder(i: nat, j: nat)
    requires i < 10000 && j < 10000
    ensures Less(IndexKey(i), IndexKey(j)) <==> i < j
    ensures IndexKey(i) == IndexKey(j) <==> i == j
    ensures |IndexKey(i)| == 6
  {
    PaddedDigits(i);
    PaddedDigits(j);
    var a, b := Digits(i, 4), Digits(j, 4);
    assert IndexKey(i) == "[" + a + "]" && IndexKey(j) == "[" + b + "]";
    assert IndexKey(i)[1..] == a + "]" && IndexKey(j)[1..] == b + "]";
    if i < j {
      DigitsOrder(i, j, 4);
      LessAppend(a, b, "]", "]");
      LessAsymmetric(IndexKey(i), IndexKey(j));
    } else if j < i {
      DigitsOrder(j, i, 4);
      LessAppend(b, a, "]", "]");
      LessAsymmetric(IndexKey(i), IndexKey(j));
    } else {
      LessIrreflexive(IndexKey(i));
    }
  }

  /** From 10000 items on the order breaks: item 10000 sorts before item 9999. */
  lemma IndexKeyOrderBreaks()
    ensures IndexKey(10000) == "[10000]" && IndexKey(9999) == "[9999]"
    ensures Less(IndexKey(10000), IndexKey(9999))
  {
    assert Decimal(1) == "1";
    assert Decimal(10) == "10";
    assert Decimal(100) == "100";
    assert Decimal(1000) == "1000";
    assert Decimal(10000) == "10000";
    assert Decimal(9) == "9";
    assert Decimal(99) == "99";
    assert Decimal(999) == "999";
    assert Decimal(9999) == "9999";
    assert Less("10000]", "9999]");
    assert "[10000]"[1..] == "10000]";
    assert "[9999]"[1..] == "9999]";
  }

  // ---------------------------------------------------------------------------
  // parseYamsNode, as the source runs it

  /**
   * `parseYamsNode`. In the mapping loop the sub-dictionary is fetched again
   * before every entry after the first; it is the one just stored, so the
   * result is `Parse`.
   */
  method ParseYamsNode(node: Yaml, dict: Dictionary, at: string, locale: string) returns (out: Dictionary)
    ensures out == Parse(node, dict, at, locale)
    decreases node, 1
  {
    out := dict;
    var subdict := Fetch(out, at);
    match node {
      case Mapping(entries) =>
        subdict, out := ParseEntries(node, dict, at, locale);
      case Sequence(items) =>
        subdict := ParseItems(node, subdict, locale);
      case Scalar(text) =>
        subdict := subdict[locale := Str(text)];
    }
    out := out[at := Dict(subdict)];
  }

  /**
   * The mapping loop of `parseYamsNode`: each entry is parsed into the
   * sub-dictionary, which is stored at `at` after every entry.
   */
  method ParseEntries(node: Yaml, dict: Dictionary, at: string, locale: string) returns (subdict: Dictionary, out: Dictionary)
    requires node.Mapping?
    ensures subdict == FillEntries(node, |node.entries|, Fetch(dict, at), locale)
    ensures out == if node.entries == [] then dict else dict[at := Dict(subdict)]
    decreases node, 0
  {
    var entries := node.entries;
    out := dict;
    subdict := Fetch(out, at);
    var index := 0;
    while index < |entries|
      invariant index <= |entries|
      invariant subdict == FillEntries(node, index, Fetch(dict, at), locale)
      invariant out == if index == 0 then dict else dict[at := Dict(subdict)]
    {
      if index > 0 {
        subdict := Fetch(out, at);
      }
      var entry := entries[index];
      assert entry in entries;
      subdict := ParseYamsNode(entry.1, subdict, entry.0, locale);
      out := out[at := Dict(subdict)];
      index := index + 1;
    }
  }

  /** The sequence loop of `parseYamsNode`: item `i` is parsed in at its padded index key. */
  method ParseItems(node: Yaml, sub: Dictionary, locale: string) returns (subdict: Dictionary)
    requires node.Sequence?
    ensures subdict == FillItems(node, |node.items|, sub, locale)
    decreases node, 0
  {
    var items := node.items;
    subdict := sub;
    var index := 0;
    while index < |items|
      invariant index <= |items|
      invariant subdict == FillItems(node, index, sub, locale)
    {
      var idx := PaddedIndex(index);
      subdict := ParseYamsNode(items[index], subdict, "[" + idx + "]", locale);
      index := index + 1;
    }
  }

  // ---------------------------------------------------------------------------
  // What parsing keeps and what it writes

  /** Filling the first `n` entries adds exactly their keys and keeps every other entry. */
  lemma {:induction false} FillEntriesFrame(node: Yaml, n: nat, sub: Dictionary, locale: string)
    requires node.Mapping? && n <= |node.entries|
    ensures FillEntries(node, n, sub, locale).Keys == sub.Keys + EntryKeys(node.entries, n)
    ensures forall k :: k in sub && k !in EntryKeys(node.entries, n) ==>
      FillEntries(node, n, sub, locale)[k] == sub[k]
  {
    if n > 0 {
      FillEntriesFrame(node, n - 1, sub, locale);
      assert EntryKeys(node.entries, n) == EntryKeys(node.entries, n - 1) + {node.entries[n - 1].0};
    }
  }

  /** Filling the first `n` items adds exactly their index keys and keeps every other entry. */
  lemma {:induction false} FillItemsFrame(node: Yaml, n: nat, sub: Dictionary, locale: string)
    requires node.Sequence? && n <= |node.items|
    ensures FillItems(node, n, sub, locale).Keys == sub.Keys + ItemKeys(n)
    ensures forall k :: k in sub && k !in ItemKeys(n) ==> FillItems(node, n, sub, locale)[k] == sub[k]
  {
    if n > 0 {
      FillItemsFrame(node, n - 1, sub, locale);
      var before := FillItems(node, n - 1, sub, locale);
      var after := FillItems(node, n, sub, locale);
      assert after == Parse(node.items[n - 1], before, IndexKey(n - 1), locale);
      assert after.Keys == before.Keys + {IndexKey(n - 1)};
      forall k | k in sub && k !in ItemKeys(n) ensures after[k] == sub[k] {
        assert k !in ItemKeys(n - 1) && k != IndexKey(n - 1);
      }
    }
  }

  /** Filling a node in adds exactly the keys it writes and keeps every other entry. */
  lemma FillFrame(node: Yaml, sub: Dictionary, locale: string)
    ensures Fill(node, sub, locale).Keys == sub.Keys + Written(node, locale)
    ensures forall k :: k in sub && k !in Written(node, locale) ==> Fill(node, sub, locale)[k] == sub[k]
  {
    match node
    case Scalar(_) =>
    case Mapping(entries) => FillEntriesFrame(node, |entries|, sub, locale);
    case Sequence(items) => FillItemsFrame(node, |items|, sub, locale);
  }

  /**
   * Trees merge: parsing into a key that holds a dictionary keeps that
   * dictionary's entries beside the new ones; a translation found where a
   * dictionary is needed is dropped.
   */
  lemma ParseMerges(node: Yaml, dict: Dictionary, at: string, locale: string)
    ensures var e := Parse(node, dict, at, locale)[at].entries;
      && e.Keys == Fetch(dict, at).Keys + Written(node, locale)
      && forall k :: k in Fetch(dict, at) && k !in Written(node, locale) ==> e[k] == Fetch(dict, at)[k]
    ensures at in dict && dict[at].Str? ==> Fetch(dict, at) == map[]
    ensures at in dict && dict[at].Dict? ==> Fetch(dict, at) == dict[at].entries
  {
    FillFrame(node, Fetch(dict, at), locale);
  }

  /** A scalar under the keys `keys`: `k1: {k2: ... {kn: text}}`. */
  function Chain(keys: seq<string>, text: string): Yaml
  {
    if keys == [] then Scalar(text) else Mapping([(keys[0], Chain(keys[1..], text))])
  }

  /** The value at the end of a key path. */
  function Lookup(v: Value, path: seq<string>): Option<Value>
  {
    if path == [] then Some(v)
    else if v.Dict? && path[0] in v.entries then Lookup(v.entries[path[0]], path[1..])
    else None
  }

  /**
   * A translation ends up at its key path followed by the locale: whatever the
   * dictionary held, a scalar reached through `keys` below `at` is stored at
   * `[at] + keys + [locale]`.
   */
  lemma {:induction false} ChainStored(keys: seq<string>, text: string, dict: Dictionary, at: string, locale: string)
    ensures Lookup(Dict(Parse(Chain(keys, text), dict, at, locale)), [at] + keys + [locale]) == Some(Str(text))
    decreases |keys|
  {
    var path := [at] + keys + [locale];
    var sub := Fetch(dict, at);
    var stored := Parse(Chain(keys, text), dict, at, locale);
    assert path[0] == at && path[1..] == keys + [locale];
    assert stored[at] == Dict(Fill(Chain(keys, text), sub, locale));
    if keys == [] {
      var leaf := sub[locale := Str(text)];
      assert Lookup(Dict(stored), path) == Lookup(Dict(leaf), [locale]);
      assert [locale][1..] == [];
    } else {
      var node := Chain(keys, text);
      var child := Chain(keys[1..], text);
      assert node == Mapping([(keys[0], child)]);
      assert FillEntries(node, 1, sub, locale) == Parse(child, sub, keys[0], locale);
      ChainStored(keys[1..], text, sub, keys[0], locale);
      assert keys + [locale] == [keys[0]] + keys[1..] + [locale];
    }
  }

  // ---------------------------------------------------------------------------
  // What parsing does at any depth

  /**
   * What parsing a node in does to the value at one key path: it keeps the
   * value, replaces it by something not promised here (a dictionary built
   * where a translation was, or a translation where a dictionary was), or puts
   * a translation there.
   */
  datatype Effect = Keep | Drop | Put(text: string)

  /** `first` followed by `next`: a later write to the path wins. */
  function Then(first: Effect, next: Effect): Effect
  {
    if next == Keep then first else next
  }

  /** The effect of parsing `node` in at `at` on the path `w` of the dictionary. */
  function ParsedEffect(node: Yaml, at: string, locale: string, w: seq<string>): Effect
    requires w != []
    decreases node, 2
  {
    if w[0] != at then Keep
    else if |w| == 1 then Drop
    else EffectOf(node, locale, w[1..])
  }

  /** The effect of filling `node` in on the path `w` of the sub-dictionary. */
  function EffectOf(node: Yaml, locale: string, w: seq<string>): Effect
    requires w != []
    decreases node, 1
  {
    match node
    case Scalar(text) => if w == [locale] then Put(text) else if w[0] == locale then Drop else Keep
    case Mapping(entries) => EntriesEffect(node, |entries|, locale, w)
    case Sequence(items) => ItemsEffect(node, |items|, locale, w)
  }

  /** The first `n` entries of a mapping, one after the other. */
  function EntriesEffect(node: Yaml, n: nat, locale: string, w: seq<string>): Effect
    requires node.Mapping? && n <= |node.entries| && w != []
    decreases node, 0, n
  {
    if n == 0 then Keep
    else
      var entry := node.entries[n - 1];
      assert entry in node.entries;
      Then(EntriesEffect(node, n - 1, locale, w), ParsedEffect(entry.1, entry.0, locale, w))
  }

  /** The first `n` items of a sequence, one after the other. */
  function ItemsEffect(node: Yaml, n: nat, locale: string, w: seq<string>): Effect
    requires node.Sequence? && n <= |node.items| && w != []
    decreases node, 0, n
  {
    if n == 0 then Keep
    else Then(ItemsEffect(node, n - 1, locale, w), ParsedEffect(node.items[n - 1], IndexKey(n - 1), locale, w))
  }

  lemma LookupStep(m: Dictionary, w: seq<string>)
    requires w != []
    ensures Lookup(Dict(m), w) == if w[0] in m then Lookup(m[w[0]], w[1..]) else None
  {
  }

  /**
   * Parsing at any depth: a path the node leaves alone keeps its value, and a
   * path it writes a translation to holds the last translation written there.
   */
  lemma {:induction false} ParseEffect(node: Yaml, dict: Dictionary, at: string, locale: string, w: seq<string>)
    requires w != []
    ensures ParsedEffect(node, at, locale, w) == Keep ==>
      Lookup(Dict(Parse(node, dict, at, locale)), w) == Lookup(Dict(dict), w)
    ensures ParsedEffect(node, at, locale, w).Put? ==>
      Lookup(Dict(Parse(node, dict, at, locale)), w) == Some(Str(ParsedEffect(node, at, locale, w).text))
    decreases node, 2
  {
    var after := Parse(node, dict, at, locale);
    LookupStep(after, w);
    LookupStep(dict, w);
    if w[0] == at && |w| > 1 {
      var sub := Fetch(dict, at);
      assert after[at] == Dict(Fill(node, sub, locale));
      FillEffect(node, sub, locale, w[1..]);
      LookupStep(sub, w[1..]);
    }
  }

  /** The same for filling a node into a sub-dictionary. */
  lemma {:induction false} FillEffect(node: Yaml, sub: Dictionary, locale: string, w: seq<string>)
    requires w != []
    ensures EffectOf(node, locale, w) == Keep ==>
      Lookup(Dict(Fill(node, sub, locale)), w) == Lookup(Dict(sub), w)
    ensures EffectOf(node, locale, w).Put? ==>
      Lookup(Dict(Fill(node, sub, locale)), w) == Some(Str(EffectOf(node, locale, w).text))
    decreases node, 1
  {
    match node
    case Scalar(text) =>
      LookupStep(sub[locale := Str(text)], w);
      LookupStep(sub, w);
    case Mapping(entries) => EntriesFillEffect(node, |entries|, sub, locale, w);
    case Sequence(items) => ItemsFillEffect(node, |items|, sub, locale, w);
  }

  lemma {:induction false} EntriesFillEffect(node: Yaml, n: nat, sub: Dictionary, locale: string, w: seq<string>)
    requires node.Mapping? && n <= |node.entries| && w != []
    ensures EntriesEffect(node, n, locale, w) == Keep ==>
      Lookup(Dict(FillEntries(node, n, sub, locale)), w) == Lookup(Dict(sub), w)
    ensures EntriesEffect(node, n, locale, w).Put? ==>
      Lookup(Dict(FillEntries(node, n, sub, locale)), w) == Some(Str(EntriesEffect(node, n, locale, w).text))
    decreases node, 0, n
  {
    if n > 0 {
      var entry := node.entries[n - 1];
      assert entry in node.entries;
      EntriesFillEffect(node, n - 1, sub, locale, w);
      ParseEffect(entry.1, FillEntries(node, n - 1, sub, locale), entry.0, locale, w);
    }
  }

  lemma {:induction false} ItemsFillEffect(node: Yaml, n: nat, sub: Dictionary, locale: string, w: seq<string>)
    requires node.Sequence? && n <= |node.items| && w != []
    ensures ItemsEffect(node, n, locale, w) == Keep ==>
      Lookup(Dict(FillItems(node, n, sub, locale)), w) == Lookup(Dict(sub), w)
    ensures ItemsEffect(node, n, locale, w).Put? ==>
      Lookup(Dict(FillItems(node, n, sub, locale)), w) == Some(Str(ItemsEffect(node, n, locale, w).text))
    decreases node, 0, n
  {
    if n > 0 {
      ItemsFillEffect(node, n - 1, sub, locale, w);
      ParseEffect(node.items[n - 1], FillItems(node, n - 1, sub, locale), IndexKey(n - 1), locale, w);
    }
  }

  /** `node` has no mapping key and no sequence index key `k`, at any depth. */
  predicate NoKey(node: Yaml, k: string)
    decreases node, 1
  {
    match node
    case Scalar(_) => true
    case Mapping(entries) => NoKeyEntries(node, |entries|, k)
    case Sequence(items) => NoKeyItems(node, |items|, k)
  }

  predicate NoKeyEntries(node: Yaml, n: nat, k: string)
    requires node.Mapping? && n <= |node.entries|
    decreases node, 0, n
  {
    n == 0 ||
      var entry := node.entries[n - 1];
      assert entry in node.entries;
      NoKeyEntries(node, n - 1, k) && entry.0 != k && NoKey(entry.1, k)
  }

  predicate NoKeyItems(node: Yaml, n: nat, k: string)
    requires node.Sequence? && n <= |node.items|
    decreases node, 0, n
  {
    n == 0 || (NoKeyItems(node, n - 1, k) && IndexKey(n - 1) != k && NoKey(node.items[n - 1], k))
  }

  /**
   * A document of one locale leaves the translations of another locale alone:
   * every path it writes ends in its own locale and goes through its own keys,
   * so `keys + [other]` is untouched when `other` is none of those keys and
   * `locale` is none of `keys`.
   */
  lemma {:induction false} EffectOtherLocale(node: Yaml, locale: string, keys: seq<string>, other: string)
    requires other != locale && locale !in keys && NoKey(node, other)
    ensures EffectOf(node, locale, keys + [other]) == Keep
    decreases node, 1
  {
    match node
    case Scalar(_) =>
      assert (keys + [other])[0] == if keys == [] then other else keys[0];
    case Mapping(entries) => EntriesOtherLocale(node, |entries|, locale, keys, other);
    case Sequence(items) => ItemsOtherLocale(node, |items|, locale, keys, other);
  }

  lemma {:induction false} ParsedOtherLocale(node: Yaml, at: string, locale: string, keys: seq<string>, other: string)
    requires other != locale && locale !in keys && NoKey(node, other) && at != other
    ensures ParsedEffect(node, at, locale, keys + [other]) == Keep
    decreases node, 2
  {
    var w := keys + [other];
    if keys == [] {
      assert w == [other];
    } else {
      assert w[0] == keys[0] && w[1..] == keys[1..] + [other];
      EffectOtherLocale(node, locale, keys[1..], other);
    }
  }

  lemma {:induction false} EntriesOtherLocale(node: Yaml, n: nat, locale: string, keys: seq<string>, other: string)
    requires node.Mapping? && n <= |node.entries|
    requires other != locale && locale !in keys && NoKeyEntries(node, n, other)
    ensures EntriesEffect(node, n, locale, keys + [other]) == Keep
    decreases node, 0, n
  {
    if n > 0 {
      var entry := node.entries[n - 1];
      assert entry in node.entries;
      EntriesOtherLocale(node, n - 1, locale, keys, other);
      ParsedOtherLocale(entry.1, entry.0, locale, keys, other);
    }
  }

  lemma {:induction false} ItemsOtherLocale(node: Yaml, n: nat, locale: string, keys: seq<string>, other: string)
    requires node.Sequence? && n <= |node.items|
    requires other != locale && locale !in keys && NoKeyItems(node, n, other)
    ensures ItemsEffect(node, n, locale, keys + [other]) == Keep
    decreases node, 0, n
  {
    if n > 0 {
      ItemsOtherLocale(node, n - 1, locale, keys, other);
      ParsedOtherLocale(node.items[n - 1], IndexKey(n - 1), locale, keys, other);
    }
  }

  /** A chain in one locale leaves the translation of another locale under the same keys alone. */
  lemma {:induction false} ChainKeepsOtherLocale(keys: seq<string>, text: string, dict: Dictionary, at: string,
                                                 locale: string, other: string)
    requires other != locale
    ensures Lookup(Dict(Parse(Chain(keys, text), dict, at, locale)), [at] + keys + [other])
         == Lookup(Dict(dict), [at] + keys + [other])
  {
    ChainEffect(keys, text, locale, other);
    assert ([at] + keys + [other])[1..] == keys + [other];
    ParseEffect(Chain(keys, text), dict, at, locale, [at] + keys + [other]);
  }

  lemma {:induction false} ChainEffect(keys: seq<string>, text: string, locale: string, other: string)
    requires other != locale
    ensures EffectOf(Chain(keys, text), locale, keys + [other]) == Keep
    decreases |keys|
  {
    if keys == [] {
      assert keys + [other] == [other];
    } else {
      var child := Chain(keys[1..], text);
      var node := Mapping([(keys[0], child)]);
      assert Chain(keys, text) == node;
      var w := keys + [other];
      assert w[0] == keys[0] && w[1..] == keys[1..] + [other];
      ChainEffect(keys[1..], text, locale, other);
      assert EntriesEffect(node, 0, locale, w) == Keep;
      assert EntriesEffect(node, 1, locale, w) == Then(Keep, ParsedEffect(child, keys[0], locale, w));
    }
  }

  // ---------------------------------------------------------------------------
  // Reading the files

  /** What reading and composing a file gave: a document, or one of the two errors. */
  datatype Content = Composed(doc: Yaml) | Unreadable | Malformed

  datatype SourceFile = SourceFile(url: string, content: Content)

  /** `YamlLoader.Result`. */
  datatype Result = Result(dict: Dictionary, localesByFile: map<string, string>)

  /** The alerts the loader shows. */
  datatype Warning =
    | LoadFailed
    | SkippedFiles(names: seq<string>, suppressIdentifier: string)

  /** `lastPathComponent` of a path. */
  function LastComponent(path: string): string
  {
    if HasSegment(path, '/') then LastPiece(path, '/') else path
  }

  /** `deletingLastPathComponent().path`. */
  function Directory(path: string): string
  {
    var parts := Components(path, '/');
    Join(parts[..|parts| - 1], '/')
  }

  /** A file name without its extension (the part after its last "."). */
  function DeletingExtension(name: string): string
  {
    var parts := Components(name, '.');
    if |parts| >= 2 && parts[0] != "" then Join(parts[..|parts| - 1], '.') else name
  }

  /** `url.deletingPathExtension().lastPathComponent`. */
  function BaseName(url: string): string
  {
    DeletingExtension(LastComponent(url))
  }

  /**
   * A file the finder lists, `<dir>/<lang>.yml`, has the base name `<lang>`: it is
   * accepted exactly when its first top-level key is `<lang>`.
   */
  lemma FinderFileBaseName(dir: string, lang: string)
    requires lang != "" && '.' !in lang && '/' !in lang
    ensures YamlFinder.IsLocaleFileName(lang + ".yml")
    ensures BaseName(YamlFinder.AppendPath(dir, lang + ".yml")) == lang
  {
    var name := lang + ".yml";
    LocaleFileNameParts(lang);
    LastComponentAppended(dir, name);
    assert Components(name, '.')[..1] == [lang];
  }

  /** `<lang>.yml` is a locale file name without "/", split by "." into `<lang>` and `yml`. */
  lemma LocaleFileNameParts(lang: string)
    requires lang != "" && '.' !in lang && '/' !in lang
    ensures YamlFinder.IsLocaleFileName(lang + ".yml")
    ensures Components(lang + ".yml", '.') == [lang, "yml"]
    ensures '/' !in lang + ".yml"
  {
    var name := lang + ".yml";
    assert name == lang + "." + "yml";
    YamlFinder.TwoPieces(lang, "yml");
    assert name[|name| - 4..] == ".yml";
    assert forall i :: 0 <= i < |name| ==> name[i] == '/' ==> i < |lang| && lang[i] == '/';
  }

  /** The last component of `<dir>/<name>` is `name` when `name` has no "/". */
  lemma LastComponentAppended(dir: string, name: string)
    requires name != "" && '/' !in name
    ensures LastComponent(YamlFinder.AppendPath(dir, name)) == name
  {
    var path := YamlFinder.AppendPath(dir, name);
    assert path == dir + ['/'] + name;
    ComponentsAppend(dir, name, '/');
    ComponentsOfPiece(name, '/');
    NonEmptyAppend(Components(dir, '/'), [name]);
    assert NonEmpty([name]) == [name];
    assert HasSegment(path, '/') by {
      HasSegmentSplit(path, '/');
    }
  }

  /** `data.mapping?.first`. */
  function RootEntry(doc: Yaml): Option<(string, Yaml)>
  {
    if doc.Mapping? && |doc.entries| > 0 then Some(doc.entries[0]) else None
  }

  /** `supportedLocaleYaml`: the first top-level key names the file. */
  predicate SupportedLocaleYaml(root: Option<(string, Yaml)>, url: string)
  {
    root.Some? && root.value.0 == BaseName(url)
  }

  /** The file is read, composed and supported. */
  predicate Accepted(file: SourceFile)
  {
    file.content.Composed? && SupportedLocaleYaml(RootEntry(file.content.doc), file.url)
  }

  /** The state of `readLocaleYamls` between files. */
  datatype Reading = Reading(dict: Dictionary, localesByFile: map<string, string>, skipped: seq<string>)

  /** The loop over the root value's entries: a value that is no mapping adds nothing. */
  function MergeRoot(value: Yaml, dict: Dictionary, locale: string): Dictionary
  {
    if value.Mapping? then Fill(value, dict, locale) else dict
  }

  /** One turn of the file loop; `None` is the error that ends the loading. */
  function ReadFile(state: Reading, file: SourceFile): Option<Reading>
  {
    match file.content
    case Composed(doc) =>
      var root := RootEntry(doc);
      if SupportedLocaleYaml(root, file.url) then
        var locale := root.value.0;
        Some(Reading(MergeRoot(root.value.1, state.dict, locale),
                     state.localesByFile[file.url := locale], state.skipped))
      else
        Some(state.(skipped := state.skipped + [file.url]))
    case _ => None
  }

  /** The file loop over `files`. */
  function ReadFiles(files: seq<SourceFile>): Option<Reading>
  {
    if files == [] then Some(Reading(map[], map[], []))
    else
      match ReadFiles(files[..|files| - 1])
      case None => None
      case Some(state) => ReadFile(state, files[|files| - 1])
  }

  /** The urls of the files that are not accepted, in order. */
  function Rejected(files: seq<SourceFile>): seq<string>
  {
    if files == [] then []
    else Rejected(files[..|files| - 1]) + (if Accepted(files[|files| - 1]) then [] else [files[|files| - 1].url])
  }

  /** `warnIfSkippedFiles`. */
  function SkipWarnings(skipped: seq<string>): (r: seq<Warning>)
    ensures |r| <= 1
    ensures r == [] <==> skipped == []
  {
    if skipped == [] then []
    else [SkippedFiles(seq(|skipped|, i requires 0 <= i < |skipped| => LastComponent(skipped[i])),
                       Directory(skipped[0]))]
  }

  /** Loading stops at the first file that cannot be read or composed, and only then. */
  lemma {:induction false} ReadFilesFails(files: seq<SourceFile>)
    ensures ReadFiles(files).None? <==> exists i :: 0 <= i < |files| && !files[i].content.Composed?
  {
    if files != [] {
      var init := files[..|files| - 1];
      ReadFilesFails(init);
      if ReadFiles(init).None? {
        var i :| 0 <= i < |init| && !init[i].content.Composed?;
        assert files[i] == init[i];
      } else if files[|files| - 1].content.Composed? {
        forall i | 0 <= i < |files| ensures files[i].content.Composed? {
          if i < |init| {
            assert files[i] == init[i];
          }
        }
      }
    }
  }

  /**
   * Otherwise every file is either accepted, under the locale its base name
   * names, or skipped, and the skipped ones are listed in order.
   */
  lemma {:induction false} ReadFilesAccepts(files: seq<SourceFile>)
    requires ReadFiles(files).Some?
    ensures ReadFiles(files).value.skipped == Rejected(files)
    ensures forall u :: u in ReadFiles(files).value.localesByFile <==>
      exists i :: 0 <= i < |files| && files[i].url == u && Accepted(files[i])
    ensures forall u :: u in ReadFiles(files).value.localesByFile ==>
      ReadFiles(files).value.localesByFile[u] == BaseName(u)
  {
    if files != [] {
      var init := files[..|files| - 1];
      var last := files[|files| - 1];
      assert ReadFiles(init).Some? && last.content.Composed?;
      ReadFilesAccepts(init);
      var state := ReadFiles(init).value;
      ReadFileStep(state, last);
      AcceptedUrls(files, state.localesByFile, ReadFiles(files).value.localesByFile);
    }
  }

  /** The urls accepted so far, extended by one more file. */
  lemma AcceptedUrls(files: seq<SourceFile>, before: map<string, string>, after: map<string, string>)
    requires files != []
    requires forall u :: u in before <==>
      exists i :: 0 <= i < |files| - 1 && files[i].url == u && Accepted(files[i])
    requires forall u :: u in before ==> before[u] == BaseName(u)
    requires var last := files[|files| - 1];
      after == if Accepted(last) then before[last.url := BaseName(last.url)] else before
    ensures forall u :: u in after <==> exists i :: 0 <= i < |files| && files[i].url == u && Accepted(files[i])
    ensures forall u :: u in after ==> after[u] == BaseName(u)
  {
    var last := files[|files| - 1];
    forall u | u in after
      ensures exists i :: 0 <= i < |files| && files[i].url == u && Accepted(files[i])
    {
      if u == last.url && Accepted(last) {
        var i := |files| - 1;
        assert files[i].url == u && Accepted(files[i]);
      } else {
        var i :| 0 <= i < |files| - 1 && files[i].url == u && Accepted(files[i]);
        assert 0 <= i < |files|;
      }
    }
  }

  /** One turn of the file loop on a composed file accepts it or skips it. */
  lemma ReadFileStep(state: Reading, file: SourceFile)
    requires file.content.Composed?
    ensures ReadFile(state, file).Some?
    ensures ReadFile(state, file).value.skipped
      == state.skipped + (if Accepted(file) then [] else [file.url])
    ensures ReadFile(state, file).value.localesByFile
      == if Accepted(file) then state.localesByFile[file.url := BaseName(file.url)] else state.localesByFile
  {
  }

  /**
   * Only the first top-level key is looked at: further top-level keys of an
   * accepted file are neither loaded nor reported.
   */
  lemma ExtraRootKeysIgnored(state: Reading, url: string, first: (string, Yaml), more: seq<(string, Yaml)>)
    ensures ReadFile(state, SourceFile(url, Composed(Mapping([first] + more))))
         == ReadFile(state, SourceFile(url, Composed(Mapping([first]))))
  {
  }

  /**
   * The loop of `readLocaleYamls`: `None` is the thrown error; otherwise the
   * merged dictionary, the accepted files with their locales, and the warning
   * about skipped files.
   */
  method ReadLocaleYamls(files: seq<SourceFile>) returns (result: Option<Result>, warnings: seq<Warning>)
    ensures result.None? <==> ReadFiles(files).None?
    ensures result.Some? ==>
      var state := ReadFiles(files).value;
      result.value == Result(state.dict, state.localesByFile) && warnings == SkipWarnings(state.skipped)
    ensures result.None? ==> warnings == []
  {
    var dict: Dictionary := map[];
    var localesByFile: map<string, string> := map[];
    var skippedFiles: seq<string> := [];
    var n := 0;
    while n < |files|
      invariant n <= |files|
      invariant ReadFiles(files[..n]) == Some(Reading(dict, localesByFile, skippedFiles))
    {
      assert files[..n + 1][..n] == files[..n];
      var url := files[n].url;
      match files[n].content {
        case Composed(data) =>
          var root := RootEntry(data);
          if SupportedLocaleYaml(root, url) {
            var locale := root.value.0;
            localesByFile := localesByFile[url := locale];
            var value := root.value.1;
            if value.Mapping? {
              var entries := value.entries;
              var j := 0;
              ghost var before := dict;
              while j < |entries|
                invariant j <= |entries|
                invariant dict == FillEntries(value, j, before, locale)
              {
                dict := ParseYamsNode(entries[j].1, dict, entries[j].0, locale);
                j := j + 1;
              }
            }
          } else {
            skippedFiles := skippedFiles + [url];
          }
        case _ =>
          assert ReadFiles(files[..n + 1]).None?;
          ReadFilesStopped(files, n + 1);
          return None, [];
      }
      n := n + 1;
    }
    assert files[..n] == files;
    return Some(Result(dict, localesByFile)), SkipWarnings(skippedFiles);
  }

  /** After a failed prefix the whole loop fails. */
  lemma {:induction false} ReadFilesStopped(files: seq<SourceFile>, n: nat)
    requires n <= |files| && ReadFiles(files[..n]).None?
    ensures ReadFiles(files).None?
    decreases |files| - n
  {
    if n < |files| {
      assert files[..n + 1][..n] == files[..n];
      ReadFilesStopped(files, n + 1);
    } else {
      assert files[..n] == files;
    }
  }

  /** What one file does to the path `w` of the merged dictionary. */
  function FileEffect(file: SourceFile, w: seq<string>): Effect
    requires w != []
  {
    if Accepted(file) && RootEntry(file.content.doc).value.1.Mapping? then
      var root := RootEntry(file.content.doc).value;
      EffectOf(root.1, root.0, w)
    else Keep
  }

  /** What the files, one after the other, do to the path `w`. */
  function FilesEffect(files: seq<SourceFile>, w: seq<string>): Effect
    requires w != []
  {
    if files == [] then Keep
    else Then(FilesEffect(files[..|files| - 1], w), FileEffect(files[|files| - 1], w))
  }

  /**
   * The merged dictionary at any depth: a path no file writes is absent, and a
   * path whose last write is a translation holds that translation.
   */
  lemma {:induction false} ReadFilesEffect(files: seq<SourceFile>, w: seq<string>)
    requires w != [] && ReadFiles(files).Some?
    ensures FilesEffect(files, w) == Keep ==> Lookup(Dict(ReadFiles(files).value.dict), w) == None
    ensures FilesEffect(files, w).Put? ==>
      Lookup(Dict(ReadFiles(files).value.dict), w) == Some(Str(FilesEffect(files, w).text))
  {
    if files == [] {
      LookupStep(map[], w);
    } else {
      var init := files[..|files| - 1];
      var last := files[|files| - 1];
      assert ReadFiles(init).Some?;
      ReadFilesEffect(init, w);
      var dict := ReadFiles(init).value.dict;
      if Accepted(last) && RootEntry(last.content.doc).value.1.Mapping? {
        var root := RootEntry(last.content.doc).value;
        assert ReadFiles(files).value.dict == Fill(root.1, dict, root.0);
        FillEffect(root.1, dict, root.0, w);
      } else {
        assert ReadFiles(files).value.dict == dict;
      }
    }
  }

  /** A write at file `i` that no later file overwrites is the last one. */
  lemma {:induction false} FilesEffectFrom(files: seq<SourceFile>, i: nat, w: seq<string>, text: string)
    requires w != [] && i < |files| && FileEffect(files[i], w) == Put(text)
    requires forall j :: i < j < |files| ==> FileEffect(files[j], w) == Keep
    ensures FilesEffect(files, w) == Put(text)
    decreases |files|
  {
    var init := files[..|files| - 1];
    if i < |files| - 1 {
      forall j | i < j < |init| ensures FileEffect(init[j], w) == Keep {
        assert init[j] == files[j];
      }
      assert init[i] == files[i];
      FilesEffectFrom(init, i, w, text);
    }
  }

  /** A chain of keys ending in a scalar writes that scalar under the keys and the locale. */
  lemma {:induction false} ChainPuts(keys: seq<string>, text: string, locale: string)
    ensures EffectOf(Chain(keys, text), locale, keys + [locale]) == Put(text)
    decreases |keys|
  {
    if keys == [] {
      assert keys + [locale] == [locale];
    } else {
      var child := Chain(keys[1..], text);
      var node := Mapping([(keys[0], child)]);
      assert Chain(keys, text) == node;
      var w := keys + [locale];
      assert w[0] == keys[0] && w[1..] == keys[1..] + [locale];
      ChainPuts(keys[1..], text, locale);
      assert EntriesEffect(node, 0, locale, w) == Keep;
      assert EntriesEffect(node, 1, locale, w) == Then(Keep, ParsedEffect(child, keys[0], locale, w));
    }
  }

  /**
   * A translation that file `i` writes under `keys` survives the later files
   * of other locales: loading is additive across locales.
   */
  lemma TranslationSurvives(files: seq<SourceFile>, i: nat, keys: seq<string>, locale: string, text: string)
    requires ReadFiles(files).Some? && i < |files|
    requires FileEffect(files[i], keys + [locale]) == Put(text)
    requires forall j :: i < j < |files| && Accepted(files[j]) ==>
      var root := RootEntry(files[j].content.doc).value;
      root.0 != locale && root.0 !in keys && NoKey(root.1, locale)
    ensures Lookup(Dict(ReadFiles(files).value.dict), keys + [locale]) == Some(Str(text))
  {
    var w := keys + [locale];
    forall j | i < j < |files| ensures FileEffect(files[j], w) == Keep {
      if Accepted(files[j]) && RootEntry(files[j].content.doc).value.1.Mapping? {
        var root := RootEntry(files[j].content.doc).value;
        EffectOtherLocale(root.1, root.0, keys, locale);
      }
    }
    FilesEffectFrom(files, i, w, text);
    ReadFilesEffect(files, w);
  }

  /** Reading two accepted files whose root values are mappings fills both in, in order. */
  lemma ReadTwo(first: SourceFile, second: SourceFile)
    requires Accepted(first) && RootEntry(first.content.doc).value.1.Mapping?
    requires Accepted(second) && RootEntry(second.content.doc).value.1.Mapping?
    ensures var r1 := RootEntry(first.content.doc).value;
      var r2 := RootEntry(second.content.doc).value;
      && ReadFiles([first]).Some? && ReadFiles([first]).value.dict == Fill(r1.1, map[], r1.0)
      && ReadFiles([first, second]).Some?
      && ReadFiles([first, second]).value.dict == Fill(r2.1, Fill(r1.1, map[], r1.0), r2.0)
  {
    assert [first, second][..1] == [first];
    assert [first][..0] == [];
  }

  /**
   * Filling `en: {a: x}` and then `de: {a: {en: y}}` leaves a dictionary, not
   * "x", at `a`, `en`.
   */
  lemma LocaleKeyFill()
    ensures Lookup(Dict(Fill(Mapping([("a", Scalar("x"))]), map[], "en")), ["a", "en"]) == Some(Str("x"))
    ensures Lookup(Dict(Fill(Mapping([("a", Mapping([("en", Scalar("y"))]))]),
                             Fill(Mapping([("a", Scalar("x"))]), map[], "en"), "de")), ["a", "en"])
         == Some(Dict(map["de" := Str("y")]))
  {
    var m1 := Mapping([("a", Scalar("x"))]);
    assert FillEntries(m1, 1, map[], "en") == Parse(Scalar("x"), map[], "a", "en");
    var sub: Dictionary := map["en" := Str("x")];
    var d1: Dictionary := map["a" := Dict(sub)];
    assert Fill(m1, map[], "en") == d1;
    var inner := Mapping([("en", Scalar("y"))]);
    var m2 := Mapping([("a", inner)]);
    assert Fetch(sub, "en") == map[];
    assert FillEntries(inner, 1, sub, "de") == Parse(Scalar("y"), sub, "en", "de");
    var filled: Dictionary := map["en" := Dict(map["de" := Str("y")])];
    assert Fill(inner, sub, "de") == filled;
    assert FillEntries(m2, 1, d1, "de") == Parse(inner, d1, "a", "de");
    var d2: Dictionary := map["a" := Dict(filled)];
    assert Fill(m2, d1, "de") == d2;
    LookupStep(d1, ["a", "en"]);
    LookupStep(d2, ["a", "en"]);
    assert ["a", "en"][1..] == ["en"];
  }

  /**
   * The conditions of `TranslationSurvives` are needed: a later file that uses
   * an earlier locale as a key overwrites that locale's translation, since
   * `fetchSubdict` finds a translation where it wants a dictionary and starts
   * afresh.
   */
  lemma LocaleKeyLosesTranslation()
    ensures var en := SourceFile(YamlFinder.AppendPath("/d", "en" + ".yml"),
                                 Composed(Mapping([("en", Mapping([("a", Scalar("x"))]))])));
      var de := SourceFile(YamlFinder.AppendPath("/d", "de" + ".yml"),
                           Composed(Mapping([("de", Mapping([("a", Mapping([("en", Scalar("y"))]))]))])));
      && ReadFiles([en]).Some? && ReadFiles([en, de]).Some?
      && Lookup(Dict(ReadFiles([en]).value.dict), ["a", "en"]) == Some(Str("x"))
      && Lookup(Dict(ReadFiles([en, de]).value.dict), ["a", "en"]) == Some(Dict(map["de" := Str("y")]))
  {
    FinderFileBaseName("/d", "en");
    FinderFileBaseName("/d", "de");
    var en := SourceFile(YamlFinder.AppendPath("/d", "en" + ".yml"),
                         Composed(Mapping([("en", Mapping([("a", Scalar("x"))]))])));
    var de := SourceFile(YamlFinder.AppendPath("/d", "de" + ".yml"),
                         Composed(Mapping([("de", Mapping([("a", Mapping([("en", Scalar("y"))]))]))])));
    assert RootEntry(en.content.doc) == Some(("en", Mapping([("a", Scalar("x"))])));
    assert RootEntry(de.content.doc) == Some(("de", Mapping([("a", Mapping([("en", Scalar("y"))]))])));
    ReadTwo(en, de);
    LocaleKeyFill();
  }

  /** `load`: on an error, an empty result and the failure alert. */
  method Load(files: seq<SourceFile>) returns (result: Result, warnings: seq<Warning>)
    ensures ReadFiles(files).None? ==> result == Result(map[], map[]) && warnings == [LoadFailed]
    ensures ReadFiles(files).Some? ==>
      var state := ReadFiles(files).value;
      result == Result(state.dict, state.localesByFile) && warnings == SkipWarnings(Rejected(files))
  {
    if ReadFiles(files).Some? {
      ReadFilesAccepts(files);
    }
    var outcome;
    outcome, warnings := ReadLocaleYamls(files);
    match outcome {
      case Some(r) => result := r;
      case None =>
        result := Result(map[], map[]);
        warnings := [LoadFailed];
    }
  }
}
