/**
 * Locale-key sanitising (`YamlKey.sanitized`, Code/Models/YamlKey.swift): a locale
 * name is accepted only when it starts with a lower-case ASCII letter, and is then
 * trimmed of the characters outside `[a-z_-]` at both of its ends.
 */
module YamlKey {
  import opened Wrappers

  /** `headCS`: the characters a locale key may start with. */
  predicate IsHead(c: char)
  {
    'a' <= c <= 'z'
  }

  /** `tailCS`: the characters kept at the ends by the trimming. */
  predicate IsTail(c: char)
  {
    'a' <= c <= 'z' || c == '_' || c == '-'
  }

  /** `rangeOfCharacter(from: headCS)?.lowerBound`: the first head character. */
  function FirstHead(name: string): (r: Option<nat>)
    ensures r.Some? ==> r.value < |name| && IsHead(name[r.value])
                        && forall i :: 0 <= i < r.value ==> !IsHead(name[i])
    ensures r.None? ==> forall i :: 0 <= i < |name| ==> !IsHead(name[i])
  {
    if name == [] then None
    else if IsHead(name[0]) then Some(0)
    else match FirstHead(name[1..])
      case None => None
      case Some(i) => Some(i + 1)
  }

  /** Drops the leading characters outside `tailCS`. */
  function TrimStart(s: string): (r: string)
    ensures |r| <= |s| && r == s[|s| - |r|..]
    ensures r == [] || IsTail(r[0])
    ensures forall i :: 0 <= i < |s| - |r| ==> !IsTail(s[i])
  {
    if s != [] && !IsTail(s[0]) then
      var r := TrimStart(s[1..]);
      assert s[1..][|s| - 1 - |r|..] == s[|s| - |r|..];
      assert forall i :: 1 <= i < |s| - |r| ==> s[i] == s[1..][i - 1];
      r
    else s
  }

  /** Drops the trailing characters outside `tailCS`. */
  function TrimEnd(s: string): (r: string)
    ensures |r| <= |s| && r == s[..|r|]
    ensures r == [] || IsTail(r[|r| - 1])
    ensures forall i :: |r| <= i < |s| ==> !IsTail(s[i])
  {
    if s != [] && !IsTail(s[|s| - 1]) then
      var r := TrimEnd(s[..|s| - 1]);
      assert s[..|s| - 1][..|r|] == s[..|r|];
      r
    else s
  }

  /** `trimmingCharacters(in: tailCS.inverted)`. */
  function Trim(s: string): string
  {
    TrimEnd(TrimStart(s))
  }

  /**
   * `YamlKey(name:).sanitized`: nil for an empty name or one whose first character
   * is not a lower-case letter; otherwise the name without its trailing run of
   * characters outside `[a-z_-]` (a leading run cannot exist). Interior characters,
   * upper-case letters included, are kept.
   */
  function Sanitized(name: string): (r: Option<string>)
    ensures r.Some? <==> |name| > 0 && IsHead(name[0])
    ensures r.Some? ==> var k := r.value;
      && 0 < |k| <= |name|
      && k == name[..|k|]
      && IsTail(k[|k| - 1])
      && forall i :: |k| <= i < |name| ==> !IsTail(name[i])
  {
    if |name| == 0 then None
    else if FirstHead(name) != Some(0) then None
    else
      assert TrimStart(name) == name;
      Some(Trim(name))
  }

  /** A sanitized key is sanitized already. */
  lemma SanitizedIdempotent(name: string)
    requires Sanitized(name).Some?
    ensures Sanitized(Sanitized(name).value) == Sanitized(name)
  {
    var k := Sanitized(name).value;
    assert k[0] == name[0];
    assert TrimStart(k) == k;
    assert TrimEnd(k) == k;
  }

  /** Lower-case names, with or without a region, are kept as they are. */
  lemma SanitizedKeeps()
    ensures Sanitized("de") == Some("de")
    ensures Sanitized("pt-br") == Some("pt-br")
  {
  }

  /** A name that does not start with a lower-case letter is refused. */
  lemma SanitizedRefuses()
    ensures Sanitized("De") == None
    ensures Sanitized("") == None
  {
  }

  /** Upper-case region subtags are trimmed away, since only their trailing run goes. */
  lemma SanitizedTrimsRegion()
    ensures Sanitized("en-US") == Some("en-")
  {
    assert TrimEnd("en-US") == "en-" by {
      assert "en-US"[..4] == "en-U";
      assert "en-U"[..3] == "en-";
    }
  }
}
