/**
 * The list of recently opened directories (Code/RecentlyOpened.swift). The user
 * defaults entry is the field `stored`, the list of saved paths, most recent
 * first; a URL is represented by its path.
 */
module RecentlyOpened {

  /** How many paths `set` keeps. */
  const Capacity: nat := 10

  /** `urls.prefix(10)`. */
  function Capped(urls: seq<string>): (r: seq<string>)
    ensures |r| <= Capacity
    ensures |r| == if |urls| <= Capacity then |urls| else Capacity
    ensures r <= urls
    ensures |urls| <= Capacity ==> r == urls
  {
    if |urls| <= Capacity then urls else urls[..Capacity]
  }

  /** `items.filter { $0.path != url.path }`. */
  function Without(items: seq<string>, url: string): (r: seq<string>)
    ensures |r| <= |items|
    ensures forall p :: p in r <==> p in items && p != url
  {
    if items == [] then []
    else if items[0] != url then [items[0]] + Without(items[1..], url)
    else Without(items[1..], url)
  }

  /** Filtering keeps relative order: it distributes over concatenation. */
  lemma {:induction false} WithoutAppend(a: seq<string>, b: seq<string>, url: string)
    ensures Without(a + b, url) == Without(a, url) + Without(b, url)
  {
    if a == [] {
      assert a + b == b;
    } else {
      assert (a + b)[1..] == a[1..] + b;
      WithoutAppend(a[1..], b, url);
    }
  }

  /** A list without `url` is left as it is. */
  lemma {:induction false} WithoutAbsent(items: seq<string>, url: string)
    requires url !in items
    ensures Without(items, url) == items
  {
    if items != [] {
      WithoutAbsent(items[1..], url);
    }
  }

  /** The list `add` stores. */
  function Added(items: seq<string>, url: string): seq<string>
  {
    Capped([url] + Without(items, url))
  }

  /**
   * After `add(url)`, `url` is the first entry and occurs once, the others keep
   * their relative order, and the first nine of them stay when there are more.
   */
  lemma AddedFront(items: seq<string>, url: string)
    ensures var r := Added(items, url);
      && 1 <= |r| <= Capacity
      && r[0] == url
      && url !in r[1..]
      && r[1..] <= Without(items, url)
      && (|Without(items, url)| < Capacity ==> r[1..] == Without(items, url))
      && (|Without(items, url)| >= Capacity ==> r[1..] == Without(items, url)[..Capacity - 1])
  {
    var w := Without(items, url);
    var r := Added(items, url);
    assert ([url] + w)[1..] == w;
    assert r[1..] <= w;
    assert forall p :: p in r[1..] ==> p in w;
  }

  /** Adding the most recent entry again changes nothing. */
  lemma AddedIdempotent(items: seq<string>, url: string)
    ensures Added(Added(items, url), url) == Added(items, url)
  {
    var r := Added(items, url);
    AddedFront(items, url);
    assert r == [url] + r[1..];
    WithoutAppend([url], r[1..], url);
    WithoutAbsent(r[1..], url);
  }

  /**
   * `remove` as the source writes it: the filter keeps the entries whose path
   * EQUALS the url's, so every other entry goes and the url stays.
   */
  function RemovedAsWritten(items: seq<string>, url: string): (r: seq<string>)
    ensures forall p :: p in r <==> p in items && p == url
  {
    if items == [] then []
    else if items[0] == url then [items[0]] + RemovedAsWritten(items[1..], url)
    else RemovedAsWritten(items[1..], url)
  }

  /** A directory found to have no locale files stays listed, and the good ones vanish. */
  lemma RemovedAsWrittenKeepsUrl()
    ensures RemovedAsWritten(["/a", "/b"], "/a") == ["/a"]
    ensures Removed(["/a", "/b"], "/a") == ["/b"]
  {
    assert ["/a", "/b"][1..] == ["/b"];
    assert ["/b"][1..] == [];
  }

  /** `remove` as intended: drop the url and keep everything else, in order. */
  function Removed(items: seq<string>, url: string): (r: seq<string>)
    ensures url !in r
    ensures forall p :: p != url ==> (p in r <==> p in items)
  {
    Without(items, url)
  }

  /** Removing after adding leaves the other entries, in their order, up to the cap. */
  lemma RemovedAfterAdded(items: seq<string>, url: string)
    ensures Removed(Added(items, url), url) == Added(items, url)[1..]
  {
    var r := Added(items, url);
    AddedFront(items, url);
    assert r == [url] + r[1..];
    WithoutAppend([url], r[1..], url);
    WithoutAbsent(r[1..], url);
  }

  /** `RecentlyOpened` with its user defaults entry. */
  class RecentlyOpened {
    /** The paths saved under the user defaults key, most recent first. */
    var stored: seq<string>

    /** Whatever the defaults hold at launch. */
    constructor(saved: seq<string>)
      ensures stored == saved
    {
      stored := saved;
    }

    /** `items`. */
    function Items(): seq<string>
      reads this
    {
      stored
    }

    /** `set`: keeps the first ten. */
    method Set(urls: seq<string>)
      modifies this
      ensures stored == Capped(urls)
      ensures |stored| <= Capacity
    {
      stored := Capped(urls);
    }

    /** `add`. */
    method Add(url: string)
      modifies this
      ensures stored == Added(old(stored), url)
      ensures stored[0] == url && url !in stored[1..] && |stored| <= Capacity
    {
      AddedFront(stored, url);
      Set([url] + Without(Items(), url));
    }

    /** `remove`, with the filter the callers rely on (see `RemovedAsWritten`). */
    method Remove(url: string)
      modifies this
      ensures stored == Capped(Removed(old(stored), url))
      ensures url !in stored
    {
      Set(Removed(Items(), url));
    }

    /** `removeAll`. */
    method RemoveAll()
      modifies this
      ensures stored == []
    {
      Set([]);
    }
  }
}
