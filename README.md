# v-and-r version core, in Dafny

v-and-r ("Version and Release Manager") keeps a semantic version string in step
across several files of a project. Its source, `v-and-r.py`, defines these data
models and this configuration:

- `Version`: a `major.minor.patch` triple of Python ints with a textual prefix
  (default `"v"`). It renders as `prefix + "major.minor.patch"` and has a
  hand-written ordering. `__lt__` compares the fields one after another. `__eq__`
  ignores the prefix. `__le__`, `__gt__` and `__ge__` are built from those two.
- `FileConfig`: a file locator, a compiled regular expression and a template.
  Its `matches_file` compares a literal locator with the path as text. It
  resolves a locator containing `*` against the filesystem.
- `ReleaseInfo`: the release record, and the five-key dictionary `to_json` hands
  to the JSON encoder.
- `VERSION_FILES`: the table of managed files, each with its locator, version
  expression and template.

The model is made of values, functions and lemmas, as the source is.

- `wrappers.dfy` (`Wrappers`): `Option`, for Python's `Optional` and for the inverse
  functions that can refuse their input.
- `decimal.dfy` (`Decimal`): Python's `str()` on an int, which `__str__` uses for
  each field. `ParseIntText` is its inverse. It accepts exactly the strings that
  `str()` prints, so `str()` on ints is proved to be a bijection onto them. That
  holds for the unbounded `str()` modelled here. CPython also caps the number of
  digits it converts (see "## Left out").
- `lexicographic.dfy` (`Lexicographic`): the lexicographic order on integer
  sequences. It is an independent reference definition. Its proofs of strict
  total order are by induction.
- `versions.dfy` (`Versions`): the `Version` value, `__str__` as `Render`, and
  the five comparison operators. `__lt__` is proved to be the lexicographic order
  on the triple. From that come strict order, trichotomy, the derived operators'
  laws, prefix-insensitivity and the rendering round trip.
- `file_config.dfy` (`FileConfigs`): `FileConfig` and `matches_file`. Two
  parameters stand for the filesystem: the list `glob.glob` returns and the
  `Path.match` test.
- `release_info.dfy` (`Release`): `ReleaseInfo` and the object `to_json` encodes,
  with its inverse.
- `version_files.dfy` (`VersionFiles`): the `VERSION_FILES` constant and the facts
  about its text.

The `Version` fields are `int`, not `nat`: no code in the source rejects a
negative value, and `str()` then prints a minus sign (`Render` of `0.-1.2`
with prefix `release-` is `release-0.-1.2`).

The module docstring (v-and-r.py:2-8) promises version management and releases
across project files, with git integration. `v-and-r.py` implements none of
that: its `main` prints a placeholder message. This model follows the code, so
no such operation appears here.

## Model

| member | source | states |
|---|---|---|
| `Decimal.NatText` | v-and-r.py:53 | `str()` of a non-negative int is a canonical digit string (non-empty, digits only, no leading zero except "0") whose decimal value is the number |
| `Decimal.IntText` | v-and-r.py:53 | `str()` of any int is non-empty, digits with at most a leading '-', and `ParseIntText` reads the same int back from it |
| `Decimal.CanonicalIsNatText` | v-and-r.py:53 | every canonical digit string is `str()` of its own value, so non-negative ints and canonical digit strings correspond one to one |
| `Decimal.IntTextOfParsed` | v-and-r.py:53 | every string `ParseIntText` accepts is `str()` of the int it returns (the other direction of the round trip) |
| `Decimal.IntTextInjective` | v-and-r.py:53 | distinct ints print differently |
| `Lexicographic.LexIrreflexive` | v-and-r.py:55-61 | no sequence is lexicographically smaller than itself |
| `Lexicographic.LexTransitive` | v-and-r.py:55-61 | the lexicographic order is transitive |
| `Lexicographic.LexTrichotomy` | v-and-r.py:55-61 | for sequences of one length exactly one of smaller, equal, larger holds |
| `Versions.Render` | v-and-r.py:51-53 | `str(v)` begins with the prefix, and at least one character follows it |
| `Versions.RenderRoundTrip` | v-and-r.py:51-53 | the version can be read back from `str(v)` given its prefix: prefix, then the three fields in `str()` form joined by single dots |
| `Versions.UnrenderIsRender` | v-and-r.py:51-53 | every string of that shape is `str()` of the version read from it, so rendering with a fixed prefix is a bijection |
| `Versions.RenderInjective` | v-and-r.py:51-53 | two versions with one prefix render alike exactly when they are the same version |
| `Versions.RenderExamples` | v-and-r.py:49-53 | the default prefix is "v"; `Version(1, 2, 3)` renders "v1.2.3"; an empty prefix renders just the triple; negative fields print with '-' |
| `Versions.Less` | v-and-r.py:55-61 | `a < b` holds exactly when `(major, minor, patch)` of `a` is lexicographically smaller than that of `b`, integers compared numerically |
| `Versions.Equal` | v-and-r.py:63-67 | `a == b` holds exactly when the triples agree, that is, when `a` with `b`'s prefix is `b` |
| `Versions.LessOrEqual` | v-and-r.py:69-71 | `a <= b` (defined as `a < b or a == b`) holds exactly when `b < a` does not |
| `Versions.Greater` | v-and-r.py:73-75 | `a > b` (defined as `not a <= b`) holds exactly when `b < a` |
| `Versions.GreaterOrEqual` | v-and-r.py:77-79 | `a >= b` (defined as `not a < b`) is `a > b or a == b`, and is `b <= a` |
| `Versions.LessIrreflexive` | v-and-r.py:55-61 | `a < a` never holds |
| `Versions.LessAsymmetric` | v-and-r.py:55-61 | `a < b` and `b < a` never both hold |
| `Versions.LessTransitive` | v-and-r.py:55-61 | `a < b` and `b < c` give `a < c` |
| `Versions.Trichotomy` | v-and-r.py:55-79 | exactly one of `a < b`, `a == b`, `a > b` holds |
| `Versions.EqualIsEquivalence` | v-and-r.py:63-67 | `==` is reflexive, symmetric and transitive |
| `Versions.PrefixIgnored` | v-and-r.py:55-67 | changing the prefix keeps a version `==` to itself and changes no answer of `<` |
| `Versions.LessRespectsEqual` | v-and-r.py:55-67 | replacing either operand of `<` by a `==` version keeps the answer |
| `Versions.LessOrEqualIsTotalPreorder` | v-and-r.py:69-71 | `<=` is reflexive, total and transitive, and `a <= b and b <= a` is exactly `a == b` |
| `Versions.NumericNotTextual` | v-and-r.py:55-61 | 1.9.0 < 1.10.0 and 1.9.9 < 2.0.0, although "v1.10.0" comes before "v1.9.0" character by character |
| `Versions.EqualButRenderedDifferently` | v-and-r.py:51-67 | `v1.2.3` and the prefix-less `1.2.3` are `==` yet render differently |
| `FileConfigs.AnyMatches` | v-and-r.py:93 | `any(Path(p).match(g) for g in globbed)` holds exactly when some globbed pattern matches the path |
| `FileConfigs.MatchesFile` | v-and-r.py:89-94 | a locator without '*' matches exactly the path equal to it; a locator with '*' matches a path exactly when the path matches one of the files the glob finds |
| `FileConfigs.LiteralIgnoresFilesystem` | v-and-r.py:92-94 | for a literal locator the answer does not depend on the filesystem |
| `FileConfigs.GlobWithoutFilesMatchesNothing` | v-and-r.py:92-93 | a glob locator that finds no file on disk matches no path |
| `FileConfigs.QuestionMarkIsLiteral` | v-and-r.py:92-94 | only '*' selects the glob branch: "app?.py" matches itself and not "app1.py" |
| `Release.ToJsonObject` | v-and-r.py:106-114 | the encoded object has the keys version, timestamp, commit_hash, previous_version, commits in that order; previous_version is null exactly when there is none; the record can be read back from it |
| `Release.FromJsonObjectIsEncoding` | v-and-r.py:106-114 | every object of that shape is the encoding of the record read from it |
| `Release.ReleaseKeysDistinct` | v-and-r.py:108-114 | the five keys are distinct |
| `Release.PreviousVersionDefault` | v-and-r.py:104-114 | `previous_version` defaults to None and is then encoded as null |
| `VersionFiles.AppEntryWellFormed` | v-and-r.py:119-123 | the app.py entry: non-empty locator; the placeholder text occurs once in the template; the capture-group text occurs once in the expression, and its '(' is the expression's only opening parenthesis; the expression is the template with the placeholder replaced by the capture group |
| `VersionFiles.ReadmeEntryWellFormed` | v-and-r.py:124-128 | the README.md entry is well formed in the same sense |
| `VersionFiles.DagsEntryWellFormed` | v-and-r.py:129-133 | the dags/*.py entry is well formed in the same sense |
| `VersionFiles.VersionFilesWellFormed` | v-and-r.py:118-134 | the table has three entries and every one is well formed |
| `VersionFiles.VersionFilesLocators` | v-and-r.py:118-134 | the app.py and README.md locators are literal paths; dags/*.py is a glob |

## Left out

- The glob branch of `matches_file`: `glob.glob` (which reads the filesystem) and `Path.match` are foreign library behaviour. They enter as parameters (the list of globbed paths, a matching function) and are not modelled.
- Regular-expression semantics of the compiled patterns (`FileConfig.regex_pattern` and the `VERSION_FILES` expressions): patterns are kept as their source text. Only facts about that text and the templates are proved.
- `ReleaseInfo.to_json`: the JSON text itself (escaping, `indent=2` layout) comes from the `json` library. The model stops at the ordered key/value object handed to it. Commit dictionaries are taken to map strings to strings.
- The exception classes `VAndRError`, `VersionError`, `FileError` and `GitError`: declared, never raised.
- `Decimal.IntText`: prints every int. It ignores CPython's limit on integer-to-string conversion (`sys.int_max_str_digits`, 4300 digits by default since CPython 3.11), past which `str()` raises `ValueError`. The bijection with `ParseIntText` holds only below that limit in real Python.
- `Versions.Render`: inherits the same gap. A field of more than 4300 digits renders here, while `str(v)` raises `ValueError` under CPython's default limit.
- `main` and the `__main__` guard: console output only.
- `sample/app.py` and `sample/utils.py`: fixture files with version markers and print helpers. They contain no logic.
- Version parsing, highest-version selection, increment, file scanning and writing, rollback, git history and release assembly: not implemented in `v-and-r.py`.
- Python dynamic typing: comparing a `Version` with a non-`Version` object raises `AttributeError`; fields holding non-int values; `!=` (Python derives it from `__eq__`). The model types every operand as a version with int fields.
- Mutability and hashing of the `Version` dataclass: it is not frozen, and defining `__eq__` makes it unhashable. No code in the source assigns a field or hashes a version, so the model treats versions as values.
