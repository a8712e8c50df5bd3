/**
 * Finding the locale files of a directory (Code/YamlFinder.swift). The file manager
 * is a value: the set of paths that exist and the listing of every directory that
 * can be listed; a directory without a listing is one whose listing throws.
 */
module YamlFinder {
  import opened Strings

  datatype FileSystem = FileSystem(existing: set<string>, listings: map<string, seq<string>>)

  /** `YamlFinder.Result`: the directory searched, the files found, and whether any were. */
  datatype Result = Result(dir: string, files: seq<string>, success: bool)

  /** The one warning `openUrl` can show: no locale files in the directory opened. */
  datatype Warning = NoYamlsFound(dir: string)

  /** `appendingPathComponent` on a directory path. */
  function AppendPath(dir: string, component: string): string
  {
    dir + "/" + component
  }

  /** `base/config/locales`, where a Rails application keeps its locale files. */
  function NestedDir(base: string): string
  {
    AppendPath(AppendPath(base, "config"), "locales")
  }

  /** `determineSearchUrl`. */
  function DetermineSearchUrl(fs: FileSystem, base: string): string
  {
    if NestedDir(base) in fs.existing then NestedDir(base) else base
  }

  /** The filter of `yamlsInDir`: a `.yml` name without any other dot. */
  predicate IsLocaleFileName(name: string)
  {
    HasSuffix(name, ".yml") && |Components(name, '.')| == 2
  }

  /** The filter and map of `yamlsInDir` over one listing. */
  function KeptFiles(dir: string, names: seq<string>): (r: seq<string>)
    ensures |r| <= |names|
    ensures forall p :: p in r <==>
      exists i :: 0 <= i < |names| && IsLocaleFileName(names[i]) && p == AppendPath(dir, names[i])
  {
    if names == [] then []
    else
      var rest := KeptFiles(dir, names[1..]);
      assert forall i :: 1 <= i < |names| ==> names[i] == names[1..][i - 1];
      if IsLocaleFileName(names[0]) then [AppendPath(dir, names[0])] + rest else rest
  }

  /** Kept files stay in listing order: filtering a concatenation filters each part. */
  lemma {:induction false} KeptFilesAppend(dir: string, a: seq<string>, b: seq<string>)
    ensures KeptFiles(dir, a + b) == KeptFiles(dir, a) + KeptFiles(dir, b)
  {
    if a == [] {
      assert a + b == b;
    } else {
      assert (a + b)[1..] == a[1..] + b;
      KeptFilesAppend(dir, a[1..], b);
    }
  }

  /** `yamlsInDir`: a listing error gives no files. */
  function YamlsInDir(fs: FileSystem, dir: string): seq<string>
  {
    if dir in fs.listings then KeptFiles(dir, fs.listings[dir]) else []
  }

  /** `localeYamlsInDir`. */
  function LocaleYamlsInDir(fs: FileSystem, base: string): (r: Result)
    ensures r.dir == NestedDir(base) <==> NestedDir(base) in fs.existing
    ensures r.dir != NestedDir(base) ==> r.dir == base
    ensures r.success <==> r.files != []
    ensures r.dir !in fs.listings ==> r.files == [] && !r.success
    ensures r.dir in fs.listings ==> r.files == KeptFiles(r.dir, fs.listings[r.dir])
    ensures forall p :: p in r.files ==> exists name :: IsLocaleFileName(name) && p == AppendPath(r.dir, name)
  {
    var searchDir := DetermineSearchUrl(fs, base);
    assert NestedDir(base) != base;
    var files := YamlsInDir(fs, searchDir);
    Result(searchDir, files, files != [])
  }

  /** `openUrl`: the result, and the warnings shown (one exactly when nothing was found). */
  function OpenUrl(fs: FileSystem, base: string): (out: (Result, seq<Warning>))
    ensures out.0 == LocaleYamlsInDir(fs, base)
    ensures out.0.success ==> out.1 == []
    ensures !out.0.success ==> out.1 == [NoYamlsFound(base)]
  {
    var r := LocaleYamlsInDir(fs, base);
    (r, if r.success then [] else [NoYamlsFound(base)])
  }

  lemma TwoPieces(a: string, b: string)
    requires '.' !in a && '.' !in b
    ensures Components(a + "." + b, '.') == [a, b]
  {
    ComponentsOfPiece(b, '.');
    ComponentsAfterPiece(a, b, '.');
  }

  /** The names of the finder's tests: the two plain `.yml` names are locale files, ... */
  lemma LocaleFileNameExamples()
    ensures IsLocaleFileName("de.yml") && IsLocaleFileName("en.yml")
  {
    assert "de.yml" == "de" + "." + "yml";
    assert "en.yml" == "en" + "." + "yml";
    TwoPieces("de", "yml");
    TwoPieces("en", "yml");
    assert "de.yml"[2..] == ".yml";
    assert "en.yml"[2..] == ".yml";
  }

  /** ... the names with other extensions are not, ... */
  lemma OtherExtensionExamples()
    ensures !IsLocaleFileName("es.toml") && !IsLocaleFileName("fr.json")
  {
    assert "es.toml"[3..] == "toml";
    assert "fr.json"[3..] == "json";
  }

  /** ... and a name with further dots is not. */
  lemma DottedNameExample()
    ensures !IsLocaleFileName("some.gem.de.yml")
  {
    var s := "some.gem.de.yml";
    assert s == "some" + "." + "gem.de.yml";
    assert "gem.de.yml" == "gem" + "." + "de.yml";
    assert "de.yml" == "de" + "." + "yml";
    TwoPieces("de", "yml");
    ComponentsAfterPiece("gem", "de.yml", '.');
    ComponentsAfterPiece("some", "gem.de.yml", '.');
  }
}
