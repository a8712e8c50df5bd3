/**
 * Display names of locales (Code/Models/Locale.swift): a locale code is shown with
 * the flag of its language in front. The flag is looked up in a fixed table or,
 * for an unlisted two-letter language, computed by shifting each letter onto the
 * Unicode regional indicator symbols U+1F1E6..U+1F1FF, whose pairs are the emoji
 * flag sequences of definition ED-14 of Unicode Technical Standard #51.
 */
module Locale {
  import opened Wrappers
  import opened Strings

  /** The distance from an upper-case ASCII letter to its regional indicator symbol. */
  const IndicatorOffset: int := 0x1F1A5

  /** Regional indicator symbols A..Z. */
  predicate IsRegionalIndicator(c: char)
  {
    0x1F1E6 <= c as int <= 0x1F1FF
  }

  /** A pair of regional indicator symbols: an emoji flag sequence. */
  predicate IsFlagSequence(f: string)
  {
    |f| == 2 && IsRegionalIndicator(f[0]) && IsRegionalIndicator(f[1])
  }

  /** Two upper-case ASCII letters. */
  predicate IsRegionCode(r: string)
  {
    |r| == 2 && 'A' <= r[0] <= 'Z' && 'A' <= r[1] <= 'Z'
  }

  /** The ASCII part of `uppercased()`. */
  function Upper(c: char): char
  {
    if 'a' <= c <= 'z' then (c as int - 32) as char else c
  }

  /**
   * `uppercased()` on ASCII: no lower-case letter is left, a lower-case letter
   * becomes its capital, and every other character is kept.
   */
  function Uppercased(s: string): (r: string)
    ensures |r| == |s| && forall i :: 0 <= i < |s| ==> r[i] == Upper(s[i])
    ensures forall i :: 0 <= i < |r| ==> !('a' <= r[i] <= 'z')
    ensures forall i :: 0 <= i < |s| && 'a' <= s[i] <= 'z' ==>
      'A' <= r[i] <= 'Z' && r[i] as int - 'A' as int == s[i] as int - 'a' as int
    ensures forall i :: 0 <= i < |s| && !('a' <= s[i] <= 'z') ==> r[i] == s[i]
  {
    seq(|s|, i requires 0 <= i < |s| => Upper(s[i]))
  }

  /** `UnicodeScalar(0x1F1A5 + v)` is defined: the sum is at most U+10FFFF. */
  predicate Shiftable(c: char)
  {
    c as int + IndicatorOffset <= 0x10FFFF
  }

  /**
   * `UnicodeScalar(0x1F1A5 + v)`: the capitals 'A'..'Z' go in order onto the
   * regional indicator symbols U+1F1E6..U+1F1FF, and nothing else lands there.
   */
  function Shifted(c: char): (r: char)
    requires Shiftable(c)
    ensures r as int == c as int + IndicatorOffset
    ensures IsRegionalIndicator(r) <==> 'A' <= c <= 'Z'
    ensures 'A' <= c <= 'Z' ==> r as int - 0x1F1E6 == c as int - 'A' as int
  {
    (c as int + IndicatorOffset) as char
  }

  /** The string the loop of `emojiFlag(countryCode:)` builds from the scalars `s`. */
  function Shifts(s: string): (r: string)
    ensures |r| <= |s|
    ensures (forall k :: 0 <= k < |s| ==> Shiftable(s[k])) ==>
      |r| == |s| && forall k :: 0 <= k < |s| ==> r[k] == Shifted(s[k])
  {
    if s == [] then []
    else
      var last := s[|s| - 1];
      Shifts(s[..|s| - 1]) + (if Shiftable(last) then [Shifted(last)] else [])
  }

  /** `emojiFlag(countryCode:)`: nil unless two characters, and nil for an empty result. */
  function CountryFlag(countryCode: string): (r: Option<string>)
    ensures r.Some? ==> |countryCode| == 2 && 0 < |r.value| <= 2
  {
    if |countryCode| != 2 then None
    else
      var s := Shifts(Uppercased(countryCode));
      if s == [] then None else Some(s)
  }

  /** The loop of `emojiFlag(countryCode:)`, appending one scalar at a time. */
  method EmojiFlagOfCountryCode(countryCode: string) returns (flag: Option<string>)
    ensures flag == CountryFlag(countryCode)
  {
    if |countryCode| != 2 {
      return None;
    }
    var scalars := Uppercased(countryCode);
    var s := "";
    var i := 0;
    while i < |scalars|
      invariant 0 <= i <= |scalars|
      invariant s == Shifts(scalars[..i])
    {
      assert scalars[..i + 1][..i] == scalars[..i];
      if Shiftable(scalars[i]) {
        s := s + [Shifted(scalars[i])];
      }
      i := i + 1;
    }
    assert scalars[..i] == scalars;
    flag := if s == [] then None else Some(s);
  }

  /** Reads a region code back from regional indicator symbols. */
  function RegionOf(f: string): (r: string)
    requires forall i :: 0 <= i < |f| ==> IsRegionalIndicator(f[i])
    ensures |r| == |f|
  {
    seq(|f|, i requires 0 <= i < |f| => RegionLetter(f[i]))
  }

  function RegionLetter(c: char): (r: char)
    requires IsRegionalIndicator(c)
    ensures 'A' <= r <= 'Z' && r as int + IndicatorOffset == c as int
  {
    (c as int - IndicatorOffset) as char
  }

  /** Shifting an upper-case letter pair gives a flag sequence, and reading it back gives the pair. */
  lemma RegionFlagRoundTrip(region: string)
    requires IsRegionCode(region)
    ensures IsFlagSequence(Shifts(region))
    ensures RegionOf(Shifts(region)) == region
  {
    assert region[..1][..0] == [];
    assert region[..2] == region;
    assert Shifts(region[..1]) == [Shifted(region[0])];
    assert Shifts(region) == [Shifted(region[0]), Shifted(region[1])];
  }

  /** A two-letter code, in either case, gets the flag of its upper-case form. */
  lemma CountryFlagOfLetters(code: string)
    requires |code| == 2
    requires forall i :: 0 <= i < 2 ==> 'a' <= code[i] <= 'z' || 'A' <= code[i] <= 'Z'
    ensures CountryFlag(code).Some?
    ensures IsFlagSequence(CountryFlag(code).value)
    ensures RegionOf(CountryFlag(code).value) == Uppercased(code)
  {
    RegionFlagRoundTrip(Uppercased(code));
  }

  /** A code of any other length has no computed flag. */
  lemma CountryFlagNeedsTwo(code: string)
    requires |code| != 2
    ensures CountryFlag(code) == None
  {
  }

  /**
   * The table of `emojiFlag`: each listed language with the region whose flag it
   * shows, and "ca", which has none.
   */
  const FlagRegions: map<string, Option<string>> := map[
    "ar" := Some("LB"), "ca" := None, "cs" := Some("CZ"), "da" := Some("DK"),
    "de" := Some("DE"), "el" := Some("GR"), "en" := Some("GB"), "es" := Some("ES"),
    "fi" := Some("FI"), "fr" := Some("FR"), "he" := Some("IL"), "hi" := Some("IN"),
    "hr" := Some("HR"), "hu" := Some("HU"), "id" := Some("ID"), "it" := Some("IT"),
    "ja" := Some("JP"), "ms" := Some("MY"), "nb" := Some("NO"), "nl" := Some("NL"),
    "pl" := Some("PL"), "pt" := Some("PT"), "ro" := Some("RO"), "ru" := Some("RU"),
    "sk" := Some("SK"), "sv" := Some("SE"), "th" := Some("TH"), "tr" := Some("TR"),
    "uk" := Some("UA"), "vi" := Some("VN"), "zh" := Some("CN")]

  /** The language of a locale code: its first non-empty "-"-separated part, or "". */
  function Language(code: string): (r: string)
    ensures '-' !in r
    ensures r == "" <==> !HasSegment(code, '-')
  {
    HasSegmentSplit(code, '-');
    var parts := Split(code, '-');
    if |parts| > 0 then parts[0] else ""
  }

  /** The language of `lang-REGION` is `lang`, and a code without a dash is its own language. */
  lemma LanguageOfSubtags(lang: string, rest: string)
    requires lang != "" && '-' !in lang
    ensures Language(lang + "-" + rest) == lang
    ensures Language(lang) == lang
  {
    ComponentsAfterPiece(lang, rest, '-');
    NonEmptyAppend([lang], Components(rest, '-'));
    ComponentsOfPiece(lang, '-');
  }

  /** `emojiFlag`. */
  function EmojiFlag(code: string): (r: Option<string>)
    ensures r.Some? ==> r.value != ""
  {
    var language := Language(code);
    if language in FlagRegions then
      match FlagRegions[language]
      case None => None
      case Some(region) =>
        TableShape(language);
        RegionFlagRoundTrip(region);
        Some(Shifts(region))
    else CountryFlag(language)
  }

  /** The table's keys are two-letter languages; "ca" alone has no region, the others a region code. */
  lemma TableShape(language: string)
    requires language in FlagRegions
    ensures |language| == 2 && '-' !in language
    ensures language == "ca" <==> FlagRegions[language].None?
    ensures FlagRegions[language].Some? ==> IsRegionCode(FlagRegions[language].value)
  {
  }

  /** A listed language shows its region's emoji flag sequence; "ca" shows none. */
  lemma TableFlags(language: string)
    requires language in FlagRegions
    ensures language == "ca" ==> EmojiFlag(language) == None
    ensures FlagRegions[language].Some? ==>
      EmojiFlag(language) == Some(Shifts(FlagRegions[language].value))
      && IsFlagSequence(EmojiFlag(language).value)
  {
    TableShape(language);
    LanguageOfSubtags(language, "");
    if FlagRegions[language].Some? {
      RegionFlagRoundTrip(FlagRegions[language].value);
    }
  }

  /** `nameWithFlag`: the flag, a space and the code, or the code alone. */
  function NameWithFlag(code: string): (r: string)
    ensures HasSuffix(r, code)
    ensures r == code <==> EmojiFlag(code).None?
    ensures EmojiFlag(code).Some? ==> r == EmojiFlag(code).value + " " + code
  {
    match EmojiFlag(code)
    case Some(flag) => flag + " " + code
    case None => code
  }

  /** Region subtags do not matter: `en-GB`, `en-US` and `en` all show the British flag. */
  lemma FlagOfLanguage(lang: string, rest: string)
    requires lang != "" && '-' !in lang
    ensures EmojiFlag(lang + "-" + rest) == EmojiFlag(lang)
    ensures lang !in FlagRegions ==> EmojiFlag(lang) == CountryFlag(lang)
  {
    LanguageOfSubtags(lang, rest);
  }
}
