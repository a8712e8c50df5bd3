/**
 * The string operations of Swift and Foundation that the locale-file pipeline relies on:
 * `components(separatedBy:)`, `split(separator:)` (which drops empty pieces),
 * `joined(separator:)`, `range(of:)`, `contains`, `hasSuffix`, and the
 * lexicographic order used by `sorted(by:)`. Characters are Unicode scalars.
 */
module Strings {
  import opened Wrappers

  // ---------------------------------------------------------------------------
  // Splitting and joining

  /** Foundation's `components(separatedBy:)` for a one-character separator:
      every piece between two separators, empty pieces included. */
  function Components(s: string, sep: char): (r: seq<string>)
    ensures |r| >= 1
    ensures forall i :: 0 <= i < |r| ==> sep !in r[i]
  {
    if s == [] then [""]
    else
      var rest := Components(s[1..], sep);
      if s[0] == sep then [""] + rest
      else [[s[0]] + rest[0]] + rest[1..]
  }

  /** Swift's `joined(separator:)`. */
  function Join(parts: seq<string>, sep: char): string
  {
    if parts == [] then ""
    else if |parts| == 1 then parts[0]
    else parts[0] + [sep] + Join(parts[1..], sep)
  }

  /** Joining the pieces again gives back the string that was split. */
  lemma {:induction false} JoinComponents(s: string, sep: char)
    ensures Join(Components(s, sep), sep) == s
  {
    if s != [] {
      var rest := Components(s[1..], sep);
      JoinComponents(s[1..], sep);
      if s[0] == sep {
        assert Components(s, sep) == [""] + rest;
        assert ([""] + rest)[1..] == rest;
      } else {
        var r := Components(s, sep);
        assert r == [[s[0]] + rest[0]] + rest[1..];
        if |rest| == 1 {
          assert s == [s[0]] + s[1..];
        } else {
          assert r[1..] == rest[1..];
          assert Join(rest, sep) == rest[0] + [sep] + Join(rest[1..], sep);
          assert s == [s[0]] + s[1..];
        }
      }
    }
  }

  /** A piece without the separator is its own only component. */
  lemma {:induction false} ComponentsOfPiece(a: string, sep: char)
    requires sep !in a
    ensures Components(a, sep) == [a]
  {
    if a != [] {
      ComponentsOfPiece(a[1..], sep);
      assert a == [a[0]] + a[1..];
    }
  }

  /** Components of `a + [sep] + b` where `a` is a single piece. */
  lemma {:induction false} ComponentsAfterPiece(a: string, b: string, sep: char)
    requires sep !in a
    ensures Components(a + [sep] + b, sep) == [a] + Components(b, sep)
  {
    if a == [] {
      assert a + [sep] + b == [sep] + b;
      assert ([sep] + b)[1..] == b;
    } else {
      var s := a + [sep] + b;
      assert s[0] == a[0];
      assert s[1..] == a[1..] + [sep] + b;
      ComponentsAfterPiece(a[1..], b, sep);
      assert a == [a[0]] + a[1..];
    }
  }

  /** Joining one more part appends the separator and the part. */
  lemma {:induction false} JoinAppend(parts: seq<string>, x: string, sep: char)
    ensures Join(parts + [x], sep) == if parts == [] then x else Join(parts, sep) + [sep] + x
  {
    if |parts| > 1 {
      assert (parts + [x])[1..] == parts[1..] + [x];
      JoinAppend(parts[1..], x, sep);
    } else if |parts| == 1 {
      assert parts + [x] == [parts[0], x];
      assert [parts[0], x][1..] == [x];
    }
  }

  /** A separator between two strings separates their pieces. */
  lemma {:induction false} ComponentsAppend(a: string, b: string, sep: char)
    ensures Components(a + [sep] + b, sep) == Components(a, sep) + Components(b, sep)
  {
    if a == [] {
      assert a + [sep] + b == [sep] + b;
      assert ([sep] + b)[1..] == b;
    } else {
      var tail := a[1..] + [sep] + b;
      ComponentsAppend(a[1..], b, sep);
      assert a + [sep] + b == [a[0]] + tail;
      assert a == [a[0]] + a[1..];
      ComponentsCons(a[0], tail, sep);
      ComponentsCons(a[0], a[1..], sep);
      ConsPieces(a[0], Components(a[1..], sep), Components(b, sep), sep);
    }
  }

  /** The pieces of a string after one more character in front. */
  function Cons(c: char, pieces: seq<string>, sep: char): seq<string>
    requires |pieces| >= 1
  {
    if c == sep then [""] + pieces else [[c] + pieces[0]] + pieces[1..]
  }

  lemma ComponentsCons(c: char, t: string, sep: char)
    ensures Components([c] + t, sep) == Cons(c, Components(t, sep), sep)
  {
    assert ([c] + t)[1..] == t;
  }

  /** A character in front changes only the first piece. */
  lemma ConsPieces(c: char, front: seq<string>, back: seq<string>, sep: char)
    requires |front| >= 1
    ensures Cons(c, front + back, sep) == Cons(c, front, sep) + back
  {
    if c != sep {
      assert (front + back)[1..] == front[1..] + back;
    }
  }

  /** A piece appended after the separator becomes the last piece. */
  lemma LastPieceAppend(s: string, piece: string, sep: char)
    requires piece != "" && sep !in piece
    ensures HasSegment(s + [sep] + piece, sep)
    ensures LastPiece(s + [sep] + piece, sep) == piece
  {
    assert piece[0] != sep;
    HasSegmentWithin(s + [sep], piece, "", sep);
    assert s + [sep] + piece + "" == s + [sep] + piece;
    ComponentsAppend(s, piece, sep);
    ComponentsOfPiece(piece, sep);
    NonEmptyAppend(Components(s, sep), [piece]);
    assert NonEmpty([piece]) == [piece];
  }

  /** Splitting what was joined gives back the pieces, when no piece holds the separator. */
  lemma {:induction false} ComponentsOfJoin(parts: seq<string>, sep: char)
    requires |parts| >= 1
    requires forall i :: 0 <= i < |parts| ==> sep !in parts[i]
    ensures Components(Join(parts, sep), sep) == parts
  {
    if |parts| == 1 {
      ComponentsOfPiece(parts[0], sep);
    } else {
      ComponentsOfJoin(parts[1..], sep);
      ComponentsAfterPiece(parts[0], Join(parts[1..], sep), sep);
      assert parts == [parts[0]] + parts[1..];
    }
  }

  /** The non-empty pieces, in order. */
  function NonEmpty(parts: seq<string>): (r: seq<string>)
    ensures |r| <= |parts|
    ensures forall i :: 0 <= i < |r| ==> r[i] != "" && r[i] in parts
  {
    if parts == [] then []
    else if parts[0] == "" then NonEmpty(parts[1..])
    else [parts[0]] + NonEmpty(parts[1..])
  }

  lemma {:induction false} NonEmptyAppend(a: seq<string>, b: seq<string>)
    ensures NonEmpty(a + b) == NonEmpty(a) + NonEmpty(b)
  {
    if a == [] {
      assert a + b == b;
    } else {
      assert (a + b)[1..] == a[1..] + b;
      NonEmptyAppend(a[1..], b);
    }
  }

  /** Swift's `split(separator:)`, which omits empty pieces. */
  function Split(s: string, sep: char): (r: seq<string>)
    ensures forall i :: 0 <= i < |r| ==> r[i] != "" && sep !in r[i]
  {
    NonEmpty(Components(s, sep))
  }

  /** `s` has a character other than the separator, i.e. a non-empty piece. */
  predicate HasSegment(s: string, sep: char)
  {
    exists i :: 0 <= i < |s| && s[i] != sep
  }

  lemma {:induction false} HasSegmentSplit(s: string, sep: char)
    ensures HasSegment(s, sep) <==> |Split(s, sep)| > 0
  {
    if s != [] {
      HasSegmentSplit(s[1..], sep);
      var rest := Components(s[1..], sep);
      assert HasSegment(s, sep) <==> s[0] != sep || HasSegment(s[1..], sep) by {
        if HasSegment(s, sep) && s[0] == sep {
          var i :| 0 <= i < |s| && s[i] != sep;
          assert s[1..][i - 1] == s[i];
        }
        if HasSegment(s[1..], sep) {
          var i :| 0 <= i < |s[1..]| && s[1..][i] != sep;
          assert s[i + 1] != sep;
        }
      }
      if s[0] == sep {
        NonEmptyAppend([""], rest);
      } else {
        assert Components(s, sep) == [[s[0]] + rest[0]] + rest[1..];
      }
    }
  }

  /** Having a segment survives being embedded in a longer string. */
  lemma HasSegmentWithin(a: string, b: string, c: string, sep: char)
    requires HasSegment(b, sep)
    ensures HasSegment(a + b + c, sep)
  {
    var i :| 0 <= i < |b| && b[i] != sep;
    assert (a + b + c)[|a| + i] == b[i];
  }

  /** `s.split(separator: sep).last!`: the last non-empty piece. */
  function LastPiece(s: string, sep: char): (r: string)
    requires HasSegment(s, sep)
    ensures r != "" && sep !in r
  {
    HasSegmentSplit(s, sep);
    var parts := Split(s, sep);
    parts[|parts| - 1]
  }

  /** Joining non-empty pieces without the separator and splitting again gives the pieces. */
  lemma SplitJoin(parts: seq<string>, sep: char)
    requires |parts| >= 1
    requires forall i :: 0 <= i < |parts| ==> parts[i] != "" && sep !in parts[i]
    ensures Split(Join(parts, sep), sep) == parts
  {
    ComponentsOfJoin(parts, sep);
    NonEmptyOfNonEmpty(parts);
  }

  lemma {:induction false} NonEmptyOfNonEmpty(parts: seq<string>)
    requires forall i :: 0 <= i < |parts| ==> parts[i] != ""
    ensures NonEmpty(parts) == parts
  {
    if parts != [] {
      NonEmptyOfNonEmpty(parts[1..]);
    }
  }

  // ---------------------------------------------------------------------------
  // Searching and replacing

  /** `sub` occurs in `s` at position `i`. */
  predicate OccursAt(s: string, sub: string, i: nat)
  {
    i + |sub| <= |s| && s[i..i + |sub|] == sub
  }

  function IndexFrom(s: string, sub: string, i: nat): (r: Option<nat>)
    requires sub != []
    requires i <= |s|
    ensures r.Some? ==> i <= r.value && OccursAt(s, sub, r.value)
                        && forall j :: i <= j < r.value ==> !OccursAt(s, sub, j)
    ensures r.None? ==> forall j :: i <= j ==> !OccursAt(s, sub, j)
    decreases |s| - i
  {
    if i + |sub| > |s| then None
    else if s[i..i + |sub|] == sub then Some(i)
    else IndexFrom(s, sub, i + 1)
  }

  /** Foundation's `range(of:)`: the first occurrence; an empty needle is never found. */
  function IndexOf(s: string, sub: string): (r: Option<nat>)
    ensures r.Some? <==> sub != [] && exists j :: OccursAt(s, sub, j)
    ensures r.Some? ==> OccursAt(s, sub, r.value) && forall j: nat :: j < r.value ==> !OccursAt(s, sub, j)
  {
    if sub == [] then None else IndexFrom(s, sub, 0)
  }

  /** `s.contains(sub)` for a string needle. */
  predicate Contains(s: string, sub: string)
  {
    IndexOf(s, sub).Some?
  }

  lemma ContainsIntro(s: string, sub: string, j: nat)
    requires sub != [] && OccursAt(s, sub, j)
    ensures Contains(s, sub)
  {
  }

  /** A non-empty string occurs in itself and in any string it starts. */
  lemma ContainsPrefix(s: string, p: string)
    requires p != [] && p <= s
    ensures Contains(s, p)
  {
    assert OccursAt(s, p, 0);
  }

  /** `s.replacingCharacters(in: s.range(of: target)!, with: replacement)`. */
  function ReplaceFirst(s: string, target: string, replacement: string): string
    requires Contains(s, target)
  {
    var i := IndexOf(s, target).value;
    s[..i] + replacement + s[i + |target|..]
  }

  /** The replacement text ends up inside the result. */
  lemma ReplaceFirstWithin(s: string, target: string, replacement: string, sep: char)
    requires Contains(s, target)
    ensures replacement != [] ==> Contains(ReplaceFirst(s, target, replacement), replacement)
    ensures HasSegment(replacement, sep) ==> HasSegment(ReplaceFirst(s, target, replacement), sep)
  {
    var i := IndexOf(s, target).value;
    var r := ReplaceFirst(s, target, replacement);
    assert r == s[..i] + replacement + s[i + |target|..];
    if replacement != [] {
      assert r[i..i + |replacement|] == replacement;
      ContainsIntro(r, replacement, i);
    }
    if HasSegment(replacement, sep) {
      HasSegmentWithin(s[..i], replacement, s[i + |target|..], sep);
    }
  }

  /** Replacing a prefix replaces exactly that prefix. */
  lemma ReplaceFirstPrefix(p: string, rest: string, replacement: string)
    requires p != []
    ensures Contains(p + rest, p)
    ensures ReplaceFirst(p + rest, p, replacement) == replacement + rest
  {
    ContainsPrefix(p + rest, p);
    assert IndexOf(p + rest, p).value == 0 by {
      assert OccursAt(p + rest, p, 0);
    }
    assert (p + rest)[|p|..] == rest;
  }

  /** `s.hasSuffix(suffix)`. */
  predicate HasSuffix(s: string, suffix: string)
  {
    |suffix| <= |s| && s[|s| - |suffix|..] == suffix
  }

  // ---------------------------------------------------------------------------
  // Order

  /** Lexicographic order on strings, character by character: Swift's `<` on
      strings of scalars without combining marks. */
  predicate Less(a: string, b: string)
  {
    if a == [] then b != []
    else if b == [] then false
    else if a[0] != b[0] then a[0] < b[0]
    else Less(a[1..], b[1..])
  }

  lemma {:induction false} LessIrreflexive(a: string)
    ensures !Less(a, a)
  {
    if a != [] { LessIrreflexive(a[1..]); }
  }

  lemma {:induction false} LessAsymmetric(a: string, b: string)
    ensures !(Less(a, b) && Less(b, a))
  {
    if a != [] && b != [] && a[0] == b[0] { LessAsymmetric(a[1..], b[1..]); }
  }

  lemma {:induction false} LessTotal(a: string, b: string)
    ensures a == b || Less(a, b) || Less(b, a)
  {
    if a != [] && b != [] && a[0] == b[0] {
      LessTotal(a[1..], b[1..]);
      if a[1..] == b[1..] {
        assert a == [a[0]] + a[1..];
        assert b == [b[0]] + b[1..];
      }
    }
  }

  lemma {:induction false} LessTransitive(a: string, b: string, c: string)
    requires Less(a, b) && Less(b, c)
    ensures Less(a, c)
  {
    if a != [] && b != [] && c != [] && a[0] == b[0] && b[0] == c[0] {
      LessTransitive(a[1..], b[1..], c[1..]);
    }
  }

  predicate IsLeast(k: string, s: set<string>)
  {
    k in s && forall j :: j in s ==> j == k || Less(k, j)
  }

  lemma {:induction false} LeastExists(s: set<string>)
    requires s != {}
    ensures exists k :: IsLeast(k, s)
    decreases s
  {
    var x :| x in s;
    if s == {x} {
      assert IsLeast(x, s);
    } else {
      LeastExists(s - {x});
      var k :| IsLeast(k, s - {x});
      LessTotal(x, k);
      if Less(x, k) {
        forall j | j in s ensures j == x || Less(x, j) {
          if j != x && j != k { LessTransitive(x, k, j); }
        }
        assert IsLeast(x, s);
      } else {
        assert IsLeast(k, s);
      }
    }
  }

  lemma LeastUnique(s: set<string>)
    ensures forall a, b :: IsLeast(a, s) && IsLeast(b, s) ==> a == b
  {
    forall a, b | IsLeast(a, s) && IsLeast(b, s) ensures a == b {
      LessAsymmetric(a, b);
    }
  }

  /** The smallest string of a non-empty set. */
  function Least(s: set<string>): (k: string)
    requires s != {}
    ensures IsLeast(k, s)
  {
    LeastExists(s);
    LeastUnique(s);
    var k :| IsLeast(k, s); k
  }

  /** Strictly ascending. */
  ghost predicate Ascending(r: seq<string>)
  {
    forall i, j :: 0 <= i < j < |r| ==> Less(r[i], r[j])
  }

  /** The elements of `s` in ascending order: `s.sorted()`. */
  function SortedKeys(s: set<string>): (r: seq<string>)
    ensures |r| == |s|
    ensures forall k :: k in r <==> k in s
    ensures Ascending(r)
    decreases s
  {
    if s == {} then []
    else
      var k := Least(s);
      var rest := SortedKeys(s - {k});
      assert forall j :: j in rest ==> Less(k, j);
      [k] + rest
  }
}
