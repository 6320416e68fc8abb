/** The `VERSION_FILES` table of v-and-r.py: for each managed file, its
    locator, the regular expression that finds its version and the template
    that writes one. The expressions are kept as their source text; the facts
    proved here are about that text and the templates. */
module VersionFiles {
  import opened FileConfigs

  datatype VersionFileEntry = VersionFileEntry(file: string, pattern: Pattern, template: string)

  /** The placeholder each template leaves for the version. */
  const PLACEHOLDER: string := "{version}"

  /** The capture group each expression uses: a 'v' followed by three dotted
      runs of digits. */
  const CAPTURE_GROUP: string := "(v\\d+\\.\\d+\\.\\d+)"

  const VERSION_FILES: seq<VersionFileEntry> := [
    VersionFileEntry("app.py", Pattern("version = \"(v\\d+\\.\\d+\\.\\d+)\""), "version = \"{version}\""),
    VersionFileEntry("README.md", Pattern("- Version (v\\d+\\.\\d+\\.\\d+)"), "- Version {version}"),
    VersionFileEntry("dags/*.py", Pattern("Version: (v\\d+\\.\\d+\\.\\d+)"), "Version: {version}")
  ]

  /** The number of (possibly overlapping) positions at which `p` occurs in `s`. */
  function Occurrences(s: string, p: string): nat
    requires p != []
    decreases |s|
  {
    if |s| < |p| then 0
    else (if s[..|p|] == p then 1 else 0) + Occurrences(s[1..], p)
  }

  lemma {:induction false} AbsentFirstChar(s: string, p: string)
    requires p != [] && p[0] !in s
    ensures Occurrences(s, p) == 0
    decreases |s|
  {
    if |s| >= |p| {
      assert s[..|p|][0] == s[0];
      AbsentFirstChar(s[1..], p);
    }
  }

  /** A prefix that lacks `p`'s first character contributes no occurrence. */
  lemma {:induction false} SkipPrefix(a: string, t: string, p: string)
    requires p != [] && p[0] !in a
    ensures Occurrences(a + t, p) == Occurrences(t, p)
    decreases |a|
  {
    if a != [] {
      assert a[0] in a && forall c :: c in a[1..] ==> c in a;
      var s := a + t;
      assert s[1..] == a[1..] + t;
      SkipPrefix(a[1..], t, p);
      if |s| >= |p| {
        assert s[..|p|][0] == a[0] != p[0];
        assert Occurrences(s, p) == Occurrences(s[1..], p);
      } else {
        assert Occurrences(s, p) == 0 && Occurrences(t, p) == 0;
      }
    } else {
      assert a + t == t;
    }
  }

  /** `p` occurs exactly once in `a + p + b` when its first character appears
      nowhere else. */
  lemma OccursOnce(a: string, p: string, b: string)
    requires p != [] && p[0] !in a && p[0] !in p[1..] + b
    ensures Occurrences(a + p + b, p) == 1
  {
    assert a + p + b == a + (p + b);
    SkipPrefix(a, p + b, p);
    assert (p + b)[..|p|] == p;
    assert (p + b)[1..] == p[1..] + b;
    AbsentFirstChar(p[1..] + b, p);
  }

  /** The expression's text is the template's text with the placeholder at
      index `k` replaced by the capture group. */
  predicate FilledAt(e: VersionFileEntry, k: int) {
    0 <= k <= |e.template| - |PLACEHOLDER| &&
    e.template[k..k + |PLACEHOLDER|] == PLACEHOLDER &&
    e.pattern.source == e.template[..k] + CAPTURE_GROUP + e.template[k + |PLACEHOLDER|..]
  }

  /** A non-empty locator, exactly one placeholder in the template, and an
      expression holding the capture-group text exactly once, standing where
      the template has its placeholder. The group's '(' is the only opening
      parenthesis of the expression, so the expression has no other group. */
  predicate WellFormed(e: VersionFileEntry) {
    |e.file| > 0 &&
    Occurrences(e.template, PLACEHOLDER) == 1 &&
    Occurrences(e.pattern.source, CAPTURE_GROUP) == 1 &&
    Occurrences(e.pattern.source, "(") == 1 &&
    exists k :: 0 <= k <= |e.template| && FilledAt(e, k)
  }

  /** A single '(' in a text that otherwise has none occurs once. */
  lemma SingleParen(before: string, body: string, after: string)
    requires '(' !in before && '(' !in body && '(' !in after
    ensures Occurrences(before + ("(" + body) + after, "(") == 1
  {
    assert before + ("(" + body) + after == before + "(" + (body + after);
    assert "("[1..] + (body + after) == body + after;
    OccursOnce(before, "(", body + after);
  }

  /** The capture group, set in a text without '(', occurs once and is the
      text's only opening parenthesis. */
  lemma CaptureGroupAlone(before: string, after: string)
    requires '(' !in before && '(' !in after
    ensures Occurrences(before + CAPTURE_GROUP + after, CAPTURE_GROUP) == 1
    ensures Occurrences(before + CAPTURE_GROUP + after, "(") == 1
  {
    OccursOnce(before, CAPTURE_GROUP, after);
    var body := CAPTURE_GROUP[1..];
    assert CAPTURE_GROUP == "(" + body;
    assert '(' !in body;
    SingleParen(before, body, after);
  }

  /** Splicing the placeholder and the capture group into one text puts them
      at the same index. */
  lemma SplicedAt(e: VersionFileEntry, before: string, after: string)
    requires e.template == before + PLACEHOLDER + after
    requires e.pattern.source == before + CAPTURE_GROUP + after
    ensures FilledAt(e, |before|)
  {
    var k := |before|;
    assert e.template[..k] == before && e.template[k..k + |PLACEHOLDER|] == PLACEHOLDER;
    assert e.template[k + |PLACEHOLDER|..] == after;
  }

  /** An entry whose template and expression are one literal text around the
      placeholder and the capture group, a text without '{' or '(', is well formed. */
  lemma EntryWellFormed(e: VersionFileEntry, before: string, after: string)
    requires e.template == before + PLACEHOLDER + after
    requires e.pattern.source == before + CAPTURE_GROUP + after
    requires |e.file| > 0
    requires '{' !in before && '{' !in after && '(' !in before && '(' !in after
    ensures WellFormed(e)
  {
    OccursOnce(before, PLACEHOLDER, after);
    CaptureGroupAlone(before, after);
    SplicedAt(e, before, after);
  }

  lemma AppEntryWellFormed()
    ensures WellFormed(VERSION_FILES[0])
  {
    EntryWellFormed(VERSION_FILES[0], "version = \"", "\"");
  }

  lemma ReadmeEntryWellFormed()
    ensures WellFormed(VERSION_FILES[1])
  {
    EntryWellFormed(VERSION_FILES[1], "- Version ", "");
  }

  lemma DagsEntryWellFormed()
    ensures WellFormed(VERSION_FILES[2])
  {
    EntryWellFormed(VERSION_FILES[2], "Version: ", "");
  }

  /** Every entry of the table is well formed. */
  lemma VersionFilesWellFormed()
    ensures |VERSION_FILES| == 3
    ensures WellFormed(VERSION_FILES[0]) && WellFormed(VERSION_FILES[1]) && WellFormed(VERSION_FILES[2])
  {
    AppEntryWellFormed();
    ReadmeEntryWellFormed();
    DagsEntryWellFormed();
  }

  /** The first two locators are literal paths; the third is a glob. */
  lemma VersionFilesLocators()
    ensures !IsGlob(VERSION_FILES[0].file) && !IsGlob(VERSION_FILES[1].file)
    ensures IsGlob(VERSION_FILES[2].file)
  {
    assert VERSION_FILES[2].file[5] == '*';
  }
}
