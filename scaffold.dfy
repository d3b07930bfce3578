/** Choosing the name of a new search-definition file (`determineFilename` in
    src/commands/scaffold.ts): the template's `*` becomes one more than the
    largest number found in the names of the files that already match it.

    The files are an input: the paths `findFiles` returned for the template. */
module Scaffold {
  import opened Js

  /** The template the scaffold command passes in. */
  const Template := "_SearchDefinition*.jsps.ts"

  /** `template.slice(0, template.indexOf("*"))`. */
  function TemplatePrefix(template: string): string {
    Slice(template, 0, IndexOf(template, "*"))
  }

  /** `name.slice(prefix.length, name.indexOf("."))`: the text where the number should be. */
  function NumberCandidate(name: string, prefix: string): string {
    Slice(name, |prefix|, IndexOf(name, "."))
  }

  /** The number an existing file contributes, if its candidate parses to a finite number. */
  function PathNumber(path: string, prefix: string): Option<int> {
    ParseNumber(NumberCandidate(Basename(path), prefix))
  }

  /** The two `map` steps: each existing path's parsed number part. */
  function Parsed(paths: seq<string>, prefix: string): seq<Option<int>> {
    seq(|paths|, i requires 0 <= i < |paths| => PathNumber(paths[i], prefix))
  }

  /** The `filter` step: the finite numbers, in order. */
  function Kept(parsed: seq<Option<int>>): seq<int> {
    if |parsed| == 0 then []
    else (if parsed[0].Some? then [parsed[0].value] else []) + Kept(parsed[1..])
  }

  /** The `map`/`map`/`filter` chain: the parsed numbers, in file order. */
  function FileNumbers(paths: seq<string>, prefix: string): seq<int> {
    Kept(Parsed(paths, prefix))
  }

  /** The filter keeps exactly the numbers present. */
  lemma {:induction false} KeptSpec(parsed: seq<Option<int>>)
    ensures forall k :: 0 <= k < |parsed| && parsed[k].Some? ==> parsed[k].value in Kept(parsed)
    ensures forall x :: x in Kept(parsed) ==> exists k :: 0 <= k < |parsed| && parsed[k] == Some(x)
  {
    if |parsed| > 0 {
      var rest := parsed[1..];
      KeptSpec(rest);
      forall x | x in Kept(parsed)
        ensures exists k :: 0 <= k < |parsed| && parsed[k] == Some(x)
      {
        if parsed[0] != Some(x) {
          var k :| 0 <= k < |rest| && rest[k] == Some(x);
          assert parsed[k + 1] == Some(x);
        }
      }
      forall k | 0 <= k < |parsed| && parsed[k].Some?
        ensures parsed[k].value in Kept(parsed)
      {
        if k > 0 {
          assert rest[k - 1] == parsed[k];
        }
      }
    }
  }

  /** The numbers kept are exactly those some existing file parses to. */
  lemma FileNumbersSpec(paths: seq<string>, prefix: string)
    ensures forall k :: 0 <= k < |paths| && PathNumber(paths[k], prefix).Some? ==>
      PathNumber(paths[k], prefix).value in FileNumbers(paths, prefix)
    ensures forall x :: x in FileNumbers(paths, prefix) ==>
      exists k :: 0 <= k < |paths| && PathNumber(paths[k], prefix) == Some(x)
  {
    var parsed := Parsed(paths, prefix);
    KeptSpec(parsed);
    forall k | 0 <= k < |paths| && PathNumber(paths[k], prefix).Some?
      ensures PathNumber(paths[k], prefix).value in FileNumbers(paths, prefix)
    {
      assert parsed[k] == PathNumber(paths[k], prefix);
    }
    forall x | x in FileNumbers(paths, prefix)
      ensures exists k :: 0 <= k < |paths| && PathNumber(paths[k], prefix) == Some(x)
    {
      var k :| 0 <= k < |parsed| && parsed[k] == Some(x);
      assert PathNumber(paths[k], prefix) == Some(x);
    }
  }

  /** A JavaScript number as far as `Math.max` over integers needs it. */
  datatype JsNumber = NegInfinity | Finite(n: int)

  /** `Math.max(...nums)`, which is `-Infinity` for no arguments. */
  function Max(nums: seq<int>): (m: JsNumber)
    ensures m.NegInfinity? <==> |nums| == 0
    ensures m.Finite? ==> m.n in nums && forall x :: x in nums ==> x <= m.n
  {
    if |nums| == 0 then NegInfinity
    else
      assert nums == [nums[0]] + nums[1..];
      match Max(nums[1..])
      case NegInfinity => Finite(nums[0])
      case Finite(m) => Finite(if nums[0] > m then nums[0] else m)
  }

  /** `determineFilename` as written: when files exist but none yields a number,
      `Math.max()` is `-Infinity` and so is the number put into the name. */
  function DetermineFilenameAsWritten(existing: seq<string>, template: string): (name: string)
    ensures |existing| == 0 ==> name == ReplaceFirst(template, "*", "1")
    ensures |existing| > 0 && FileNumbers(existing, TemplatePrefix(template)) == [] ==>
      name == ReplaceFirst(template, "*", "-Infinity")
    ensures FileNumbers(existing, TemplatePrefix(template)) != [] ==>
      name == DetermineFilename(existing, template)
  {
    if |existing| == 0 then ReplaceFirst(template, "*", "1")
    else
      match Max(FileNumbers(existing, TemplatePrefix(template)))
      case NegInfinity => ReplaceFirst(template, "*", "-Infinity")
      case Finite(m) => ReplaceFirst(template, "*", IntToString(m + 1))
  }

  /** `determineFilename` with numbering that starts again at 1 whenever no existing
      file yields a number. */
  function DetermineFilename(existing: seq<string>, template: string): (name: string)
    ensures exists n ::
      && name == ReplaceFirst(template, "*", IntToString(n))
      && (forall x :: x in FileNumbers(existing, TemplatePrefix(template)) ==> x < n)
      && (FileNumbers(existing, TemplatePrefix(template)) == [] ==> n == 1)
  {
    ReplaceFirst(template, "*", IntToString(NextNumber(FileNumbers(existing, TemplatePrefix(template)))))
  }

  /** One more than the largest number, or 1 when there is none. */
  function NextNumber(nums: seq<int>): (n: int)
    ensures |nums| == 0 ==> n == 1
    ensures forall x :: x in nums ==> x < n
    ensures |nums| > 0 ==> n - 1 in nums
  {
    match Max(nums)
    case NegInfinity => 1
    case Finite(m) => m + 1
  }

  // ---------------------------------------------------------------------------
  // Templates of the form prefix + "*" + suffix

  /** A template whose prefix holds no `*` and no `.`, and whose suffix starts with `.`. */
  predicate WellFormed(p: string, s: string) {
    '*' !in p && '.' !in p && '/' !in p && '/' !in s && |s| > 0 && s[0] == '.'
  }

  lemma StarAfterPrefix(p: string, s: string)
    requires '*' !in p
    ensures IndexOf(p + "*" + s, "*") == |p|
  {
    IndexOfAfterPiece(p, "*", s);
  }

  /** The prefix is the text before the first `*`, and only that `*` is replaced. */
  lemma TemplateParts(p: string, s: string, x: string)
    requires '*' !in p
    ensures TemplatePrefix(p + "*" + s) == p
    ensures ReplaceFirst(p + "*" + s, "*", x) == p + x + s
  {
    var t := p + "*" + s;
    StarAfterPrefix(p, s);
    assert t[..|p|] == p;
    assert t[|p| + 1..] == s;
  }

  /** The candidate of `p + x + s` is `x` when neither `p` nor `x` holds a dot and
      `s` starts with one. */
  lemma CandidateOf(p: string, x: string, s: string)
    requires '.' !in p && '.' !in x && |s| > 0 && s[0] == '.'
    ensures NumberCandidate(p + x + s, p) == x
  {
    var name := p + x + s;
    assert '.' !in p + x;
    IndexOfAfterPiece(p + x, ".", s[1..]);
    assert name == (p + x) + "." + s[1..];
    assert name[|p|..|p| + |x|] == x;
  }

  /** The name built from a number gives that number back as its candidate. */
  lemma NumberRoundTrip(p: string, s: string, n: int)
    requires WellFormed(p, s)
    ensures ParseNumber(NumberCandidate(p + IntToString(n) + s, p)) == Some(n)
    ensures PathNumber(p + IntToString(n) + s, p) == Some(n)
  {
    var digits := IntToString(n);
    var name := p + digits + s;
    IntToStringChars(n);
    assert '/' !in name by {
      assert name == p + digits + s;
    }
    assert Basename(name) == name;
    CandidateOf(p, digits, s);
    ParseIntToString(n);
  }

  /** The chosen name is the template with its `*` replaced by the next number. */
  lemma DetermineFilenameShape(existing: seq<string>, p: string, s: string)
    requires '*' !in p
    ensures DetermineFilename(existing, p + "*" + s) == p + IntToString(NextNumber(FileNumbers(existing, p))) + s
  {
    TemplateParts(p, s, IntToString(NextNumber(FileNumbers(existing, p))));
  }

  /** No existing file has the chosen name: that name would contribute a number at
      least as large as the one it carries. */
  lemma DetermineFilenameIsFresh(existing: seq<string>, p: string, s: string)
    requires WellFormed(p, s)
    ensures forall k :: 0 <= k < |existing| ==>
      Basename(existing[k]) != DetermineFilename(existing, p + "*" + s)
  {
    var nums := FileNumbers(existing, p);
    var n := NextNumber(nums);
    var name := p + IntToString(n) + s;
    DetermineFilenameShape(existing, p, s);
    NumberRoundTrip(p, s, n);
    FileNumbersSpec(existing, p);
    forall k | 0 <= k < |existing|
      ensures Basename(existing[k]) != name
    {
      assert PathNumber(existing[k], p) != Some(n);
    }
  }

  /** With no files the first `*` becomes "1"; the number chosen exceeds every
      number parsed from an existing name, and otherwise is the largest plus one. */
  lemma DetermineFilenameNumbering(existing: seq<string>, p: string, s: string)
    requires WellFormed(p, s)
    ensures |existing| == 0 ==> DetermineFilename(existing, p + "*" + s) == p + "1" + s
    ensures DetermineFilename(existing, p + "*" + s) == p + IntToString(NextNumber(FileNumbers(existing, p))) + s
  {
    DetermineFilenameShape(existing, p, s);
    assert IntToString(1) == "1";
  }

  /** The two versions agree whenever no files exist or some file yields a number. */
  lemma AsWrittenAgreesWithNumbers(existing: seq<string>, template: string)
    requires |existing| == 0 || |FileNumbers(existing, TemplatePrefix(template))| > 0
    ensures DetermineFilenameAsWritten(existing, template) == DetermineFilename(existing, template)
  {
    if |existing| == 0 {
      assert FileNumbers(existing, TemplatePrefix(template)) == [];
    }
  }

  // ---------------------------------------------------------------------------
  // The scaffold test cases and the collision in the version as written

  lemma TemplateIsWellFormed()
    ensures Template == "_SearchDefinition" + "*" + ".jsps.ts"
    ensures WellFormed("_SearchDefinition", ".jsps.ts")
  {
  }

  /** No files: "_SearchDefinition1.jsps.ts". */
  lemma FirstFilenameExample()
    ensures DetermineFilename([], Template) == "_SearchDefinition1.jsps.ts"
    ensures DetermineFilenameAsWritten([], Template) == "_SearchDefinition1.jsps.ts"
  {
    TemplateIsWellFormed();
    TemplateParts("_SearchDefinition", ".jsps.ts", "1");
    AsWrittenAgreesWithNumbers([], Template);
  }

  /** The last `/` of `dir + "/" + name` is the one before `name`. */
  lemma {:induction false} LastSlashBefore(dir: string, name: string)
    requires '/' !in name
    ensures LastIndexOf(dir + "/" + name, '/') == |dir|
    ensures Basename(dir + "/" + name) == name
    decreases |name|
  {
    var path := dir + "/" + name;
    if |name| > 0 {
      assert path[|path| - 1] == name[|name| - 1];
      assert path[..|path| - 1] == dir + "/" + name[..|name| - 1];
      LastSlashBefore(dir, name[..|name| - 1]);
    }
    assert path[|dir| + 1..] == name;
  }

  /** The number a file in some folder contributes is what its middle part parses to. */
  lemma PathNumberOf(dir: string, p: string, x: string, s: string)
    requires '/' !in p + x + s && '.' !in p && '.' !in x && |s| > 0 && s[0] == '.'
    ensures PathNumber(dir + "/" + (p + x + s), p) == ParseNumber(x)
  {
    LastSlashBefore(dir, p + x + s);
    CandidateOf(p, x, s);
  }

  lemma FirstName()
    ensures "_SearchDefinition1.jsps.ts" == "_SearchDefinition" + "1" + ".jsps.ts"
  {
  }

  lemma SecondName()
    ensures "_SearchDefinition2.jsps.ts" == "_SearchDefinition" + "2" + ".jsps.ts"
  {
  }

  lemma ThirdName()
    ensures "_SearchDefinition3.jsps.ts" == "_SearchDefinition" + "3" + ".jsps.ts"
  {
  }

  lemma InfinityName()
    ensures "_SearchDefinition-Infinity.jsps.ts" == "_SearchDefinition" + "-Infinity" + ".jsps.ts"
  {
  }

  lemma SmallNumbers()
    ensures IntToString(1) == "1" && IntToString(2) == "2" && IntToString(3) == "3"
  {
  }

  /** Files numbered 1 and 2, in any folder, contribute 1 and 2. */
  lemma TwoFileNumbers(dir: string)
    ensures FileNumbers([dir + "/" + "_SearchDefinition1.jsps.ts", dir + "/" + "_SearchDefinition2.jsps.ts"],
                        "_SearchDefinition") == [1, 2]
  {
    var existing := [dir + "/" + "_SearchDefinition1.jsps.ts", dir + "/" + "_SearchDefinition2.jsps.ts"];
    FirstName();
    SecondName();
    SmallNumbers();
    PathNumberOf(dir, "_SearchDefinition", "1", ".jsps.ts");
    PathNumberOf(dir, "_SearchDefinition", "2", ".jsps.ts");
    ParseIntToString(1);
    ParseIntToString(2);
    var p := "_SearchDefinition";
    var parsed := Parsed(existing, p);
    assert parsed[0] == Some(1) && parsed[1] == Some(2);
    assert parsed[1..][1..] == [];
    assert Kept(parsed[1..]) == [2];
  }

  /** Files numbered 1 and 2: "_SearchDefinition3.jsps.ts" (the test suite's folder
      is "/root/folder"). */
  lemma NextFilenameExample(dir: string)
    ensures var existing := [dir + "/" + "_SearchDefinition1.jsps.ts", dir + "/" + "_SearchDefinition2.jsps.ts"];
      DetermineFilename(existing, Template) == "_SearchDefinition3.jsps.ts" &&
      DetermineFilenameAsWritten(existing, Template) == "_SearchDefinition3.jsps.ts"
  {
    var p, s := "_SearchDefinition", ".jsps.ts";
    var existing := [dir + "/" + "_SearchDefinition1.jsps.ts", dir + "/" + "_SearchDefinition2.jsps.ts"];
    TemplateIsWellFormed();
    TwoFileNumbers(dir);
    ThirdName();
    SmallNumbers();
    assert NextNumber([1, 2]) == 3;
    DetermineFilenameNumbering(existing, p, s);
    TemplateParts(p, s, "3");
    AsWrittenAgreesWithNumbers(existing, Template);
  }

  /** `Number("-Infinity")` is not finite, so the name contributes no number. */
  lemma InfinityIsNotANumber()
    ensures ParseNumber("-Infinity") == None
  {
    var t := "-Infinity";
    TrimStartNoSpace(t);
    TrimEndNoSpace(t);
    assert !IsDigit(t[1]) && !IsDigit(t[0]);
  }

  /** The file left behind by an earlier run contributes no number. */
  lemma InfinityFileNumbers(dir: string)
    ensures FileNumbers([dir + "/" + "_SearchDefinition-Infinity.jsps.ts"], "_SearchDefinition") == []
  {
    var existing := [dir + "/" + "_SearchDefinition-Infinity.jsps.ts"];
    InfinityName();
    PathNumberOf(dir, "_SearchDefinition", "-Infinity", ".jsps.ts");
    InfinityIsNotANumber();
    var parsed := Parsed(existing, "_SearchDefinition");
    assert parsed[0] == None;
    assert parsed[1..] == [];
    assert Kept(parsed) == [] + Kept(parsed[1..]);
  }

  /** As written, a file whose number part does not parse makes the next name
      "_SearchDefinition-Infinity.jsps.ts"; once that file exists, the same name is
      chosen again. */
  lemma AsWrittenRepeatsName(dir: string)
    ensures var existing := [dir + "/" + "_SearchDefinition-Infinity.jsps.ts"];
      DetermineFilenameAsWritten(existing, Template) == Basename(existing[0])
  {
    var p, s := "_SearchDefinition", ".jsps.ts";
    TemplateIsWellFormed();
    InfinityName();
    InfinityFileNumbers(dir);
    LastSlashBefore(dir, p + "-Infinity" + s);
    TemplateParts(p, s, "-Infinity");
  }

  /** For the same file the corrected version starts again at 1. */
  lemma CorrectedAfterInfinity(dir: string)
    ensures DetermineFilename([dir + "/" + "_SearchDefinition-Infinity.jsps.ts"], Template) ==
      "_SearchDefinition1.jsps.ts"
  {
    var p, s := "_SearchDefinition", ".jsps.ts";
    TemplateIsWellFormed();
    FirstName();
    InfinityFileNumbers(dir);
    DetermineFilenameNumbering([dir + "/" + "_SearchDefinition-Infinity.jsps.ts"], p, s);
  }
}
