/** The `FileConfig` dataclass of v-and-r.py: a file locator (a literal path
    or a glob), a compiled regular expression and a replacement template, and
    its `matches_file` test. */
module FileConfigs {

  /** A compiled `re.Pattern`, kept as its source text only: regular-expression
      matching is not part of this model. */
  datatype Pattern = Pattern(source: string)

  datatype FileConfig = FileConfig(filePattern: string, regexPattern: Pattern, template: string)

  /** A locator is treated as a glob exactly when it contains '*'; '?' and '['
      alone do not make it one. */
  predicate IsGlob(locator: string) {
    '*' in locator
  }

  /** `any(Path(filePath).match(p) for p in globbed)`. */
  function AnyMatches(filePath: string, globbed: seq<string>, pathMatches: (string, string) -> bool): (r: bool)
    ensures r <==> exists i :: 0 <= i < |globbed| && pathMatches(filePath, globbed[i])
    decreases |globbed|
  {
    if globbed == [] then false
    else pathMatches(filePath, globbed[0]) || AnyMatches(filePath, globbed[1..], pathMatches)
  }

  /** `c.matches_file(filePath)`. The filesystem enters as two parameters:
      `globbed` is what `glob.glob(c.filePattern)` returns, and
      `pathMatches(path, pattern)` is `Path(path).match(pattern)`. A literal
      locator matches exactly the path equal to it, whatever the filesystem
      holds; a glob locator matches a path when the path matches one of the
      files the glob currently finds. */
  function MatchesFile(c: FileConfig, filePath: string, globbed: seq<string>, pathMatches: (string, string) -> bool): (r: bool)
    ensures !IsGlob(c.filePattern) ==> (r <==> filePath == c.filePattern)
    ensures IsGlob(c.filePattern) ==> (r <==> exists i :: 0 <= i < |globbed| && pathMatches(filePath, globbed[i]))
  {
    if IsGlob(c.filePattern) then AnyMatches(filePath, globbed, pathMatches)
    else filePath == c.filePattern
  }

  /** The answer for a literal locator does not depend on the filesystem. */
  lemma LiteralIgnoresFilesystem(c: FileConfig, filePath: string,
                                 globbed: seq<string>, pathMatches: (string, string) -> bool,
                                 globbed': seq<string>, pathMatches': (string, string) -> bool)
    requires !IsGlob(c.filePattern)
    ensures MatchesFile(c, filePath, globbed, pathMatches) == MatchesFile(c, filePath, globbed', pathMatches')
  {
  }

  /** A glob locator that finds no file on disk matches no path at all, not
      even a path that would fit the glob. */
  lemma GlobWithoutFilesMatchesNothing(c: FileConfig, filePath: string, pathMatches: (string, string) -> bool)
    requires IsGlob(c.filePattern)
    ensures !MatchesFile(c, filePath, [], pathMatches)
  {
  }

  /** Only '*' selects the glob branch: a locator with '?' is compared as plain text. */
  lemma QuestionMarkIsLiteral(globbed: seq<string>, pathMatches: (string, string) -> bool)
    ensures MatchesFile(FileConfig("app?.py", Pattern(""), ""), "app?.py", globbed, pathMatches)
    ensures !MatchesFile(FileConfig("app?.py", Pattern(""), ""), "app1.py", globbed, pathMatches)
  {
    assert !IsGlob("app?.py");
  }
}
