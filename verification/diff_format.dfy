/** The text rendering of the differences between two records: a fixed
    fourteen-line summary of which aspects differ (`TextDiffFormatter.short`)
    and a detailed report of each difference found (`TextDiffFormatter.long`). */
module DiffFormat {
  import opened Results
  import opened Strings
  import opened TextWrap

  /** The attributes of one compared record the report prints, each already
      rendered as `%s` renders it. */
  datatype RecordSide = RecordSide(
    recordLabel: string,
    executable: string,
    mainFile: string,
    version: string,
    repository: string,
    diff: string,
    parameters: string,
    inputData: string,
    scriptArguments: string)

  datatype Dependency = Dependency(version: string, diff: string)

  /** One entry of `dependency_differences`: the dependency as it is in the
      first and in the second record, `None` where the record lacks it. */
  datatype DependencyChange = DependencyChange(name: string, depA: Option<Dependency>, depB: Option<Dependency>)

  /** A comparison of two records: the summary flags and the details behind
      them. `launchModeDifferences` is `None` when the comparison has no
      launch mode details (a false value); `outputOnlyInA` and
      `outputOnlyInB` are the keys of the data only one record produced. */
  datatype Difference = Difference(
    recordA: RecordSide,
    recordB: RecordSide,
    executableDiffers: bool,
    codeDiffers: bool,
    repositoryDiffers: bool,
    mainFileDiffers: bool,
    versionDiffers: bool,
    diffDiffers: bool,
    dependenciesDiffer: bool,
    launchModeDiffers: bool,
    inputDataDiffer: bool,
    scriptArgumentsDiffer: bool,
    parametersDiffer: bool,
    outputDataDiffer: bool,
    dependencyDifferences: seq<DependencyChange>,
    launchModeDifferences: Option<(string, string)>,
    outputOnlyInA: seq<string>,
    outputOnlyInB: seq<string>)

  // ------------------------------------------------------------ summary

  function YesNo(b: bool): (r: string)
    ensures (r == "yes") == b && (r == "no") == !b
  {
    if b then "yes" else "no"
  }

  /** The twelve flags of the summary, in the order of its lines. */
  function Flags(d: Difference): (r: seq<bool>)
    ensures |r| == 12
  {
    [d.executableDiffers, d.codeDiffers, d.repositoryDiffers, d.mainFileDiffers,
     d.versionDiffers, d.diffDiffers, d.dependenciesDiffer, d.launchModeDiffers,
     d.inputDataDiffer, d.scriptArgumentsDiffer, d.parametersDiffer, d.outputDataDiffer]
  }

  const SummaryLineCount := 14

  /** Width of a caption before its `": "`. */
  const CaptionWidth := 24

  const CaptionNames: seq<string> := [
    "Record 1", "Record 2", "Executable differs", "Code differs",
    "Repository differs", "Main file differs", "Version differs",
    "Non checked-in code", "Dependencies differ", "Launch mode differs",
    "Input data differ", "Script arguments differ", "Parameters differ",
    "Data differ"]

  /** The lines about the parts of the code are indented under "Code differs". */
  predicate Nested(i: nat)
  {
    4 <= i <= 8
  }

  function Caption(i: nat): string
    requires i < SummaryLineCount
  {
    PadRight((if Nested(i) then "  " else "") + CaptionNames[i], CaptionWidth) + ": "
  }

  /** The value after each caption; the dependencies line keeps the blank
      the template has after its value. */
  function SummaryValue(d: Difference, i: nat): string
    requires i < SummaryLineCount
  {
    if i == 0 then d.recordA.recordLabel
    else if i == 1 then d.recordB.recordLabel
    else if i == 8 then YesNo(Flags(d)[i - 2]) + " "
    else YesNo(Flags(d)[i - 2])
  }

  function SummaryLines(d: Difference): (r: seq<string>)
    ensures |r| == SummaryLineCount
  {
    seq(SummaryLineCount, i requires 0 <= i < SummaryLineCount => Caption(i) + SummaryValue(d, i))
  }

  /** The indentation of the template in the source. */
  const TemplateMargin := "            "

  /** `TextDiffFormatter.short`: the template, filled in, then dedented. */
  function Short(d: Difference): string
  {
    Dedent(Join("\n", Prefixed(TemplateMargin, SummaryLines(d))))
  }

  /** The text after a summary line's caption. */
  function ReadValue(line: string): string
  {
    if |line| < CaptionWidth + 2 then "" else line[CaptionWidth + 2..]
  }

  /** A summary flag read back from its line. */
  function ReadFlag(line: string): Option<bool>
  {
    var v := ReadValue(line);
    if v == "yes" || v == "yes " then Some(true)
    else if v == "no" || v == "no " then Some(false)
    else None
  }

  // ------------------------------------------------------ summary proofs

  predicate NoBreak(s: string)
  {
    forall k :: 0 <= k < |s| ==> s[k] != '\n'
  }

  /** A caption name starts with a capital, has no line break and fits its
      column together with its indentation. */
  predicate NameFits(i: nat)
    requires i < SummaryLineCount
  {
    var name := CaptionNames[i];
    0 < |name| && |name| + (if Nested(i) then 2 else 0) <= CaptionWidth
    && IsUpper(name[0]) && NoBreak(name)
  }

  lemma FirstNamesFit(i: nat)
    requires i < 5
    ensures NameFits(i)
  {
    var s := CaptionNames[i];
    assert s == "Record 1" || s == "Record 2" || s == "Executable differs"
      || s == "Code differs" || s == "Repository differs";
  }

  lemma MiddleNamesFit(i: nat)
    requires 5 <= i < 10
    ensures NameFits(i)
  {
    var s := CaptionNames[i];
    assert s == "Main file differs" || s == "Version differs" || s == "Non checked-in code"
      || s == "Dependencies differ" || s == "Launch mode differs";
  }

  lemma LastNamesFit(i: nat)
    requires 10 <= i < SummaryLineCount
    ensures NameFits(i)
  {
    var s := CaptionNames[i];
    assert s == "Input data differ" || s == "Script arguments differ"
      || s == "Parameters differ" || s == "Data differ";
  }

  lemma {:induction false} LeadingBlanksOfText(c: string, v: string)
    requires HasText(c)
    ensures LeadingBlanks(c + v) == LeadingBlanks(c)
    ensures HasText(c + v)
    decreases |c|
  {
    if IsBlank(c[0]) {
      assert (c + v)[1..] == c[1..] + v;
      LeadingBlanksOfText(c[1..], v);
    }
  }

  /** A padded caption built from a name that starts with a capital. */
  lemma PaddedShape(indent: string, name: string)
    requires indent == "" || indent == "  "
    requires 0 < |name| && |indent| + |name| <= CaptionWidth && IsUpper(name[0]) && NoBreak(name)
    ensures var c := PadRight(indent + name, CaptionWidth) + ": ";
      |c| == CaptionWidth + 2 && HasText(c) && LeadingBlanks(c) == indent && NoBreak(c)
  {
    var head := indent + name;
    var padded := PadRight(head, CaptionWidth);
    var c := padded + ": ";
    assert c[..|head|] == head by {
      assert padded[..|head|] == head;
    }
    assert c[|indent|] == name[0];
    if indent == "  " {
      assert c[0] == ' ' && c[1] == ' ';
      assert c[1..][1..] == c[2..];
    }
    forall k | 0 <= k < |c|
      ensures c[k] != '\n'
    {
      if k < |indent| {
        assert c[k] == ' ';
      } else if k < |head| {
        assert c[k] == name[k - |indent|];
      } else if k < |padded| {
        assert c[k] == ' ';
      }
    }
  }

  /** Every caption is 26 characters wide, holds text, is indented by spaces
      only and has no line break. */
  lemma CaptionShape(i: nat)
    requires i < SummaryLineCount
    ensures |Caption(i)| == CaptionWidth + 2
    ensures HasText(Caption(i)) && AllSpaces(LeadingBlanks(Caption(i)))
    ensures LeadingBlanks(Caption(i)) == if Nested(i) then "  " else ""
    ensures NoBreak(Caption(i))
    ensures !Nested(i) ==> !IsBlank(Caption(i)[0])
  {
    if i < 5 {
      FirstNamesFit(i);
    } else if i < 10 {
      MiddleNamesFit(i);
    } else {
      LastNamesFit(i);
    }
    PaddedShape(if Nested(i) then "  " else "", CaptionNames[i]);
  }

  lemma SummaryLinesShape(d: Difference)
    requires '\n' !in d.recordA.recordLabel && '\n' !in d.recordB.recordLabel
    ensures SpaceIndented(SummaryLines(d))
    ensures forall i :: 0 <= i < SummaryLineCount ==> '\n' !in SummaryLines(d)[i]
    ensures !IsBlank(SummaryLines(d)[0][0])
  {
    var lines := SummaryLines(d);
    forall i | 0 <= i < SummaryLineCount
      ensures HasText(lines[i]) && AllSpaces(LeadingBlanks(lines[i])) && '\n' !in lines[i]
    {
      CaptionShape(i);
      LeadingBlanksOfText(Caption(i), SummaryValue(d, i));
      assert '\n' !in YesNo(Flags(d)[0]);
      assert NoBreak(Caption(i));
    }
    CaptionShape(0);
  }

  /** With labels free of line breaks, the summary is exactly its fourteen
      lines, caption then value, with the template's indentation gone. */
  lemma ShortLines(d: Difference)
    requires '\n' !in d.recordA.recordLabel && '\n' !in d.recordB.recordLabel
    ensures Short(d) == Join("\n", SummaryLines(d))
    ensures Split(Short(d), '\n') == SummaryLines(d)
  {
    SummaryLinesShape(d);
    DedentCommonMargin(TemplateMargin, SummaryLines(d), 0);
    SplitJoin(SummaryLines(d), '\n');
  }

  lemma SummaryLineValue(d: Difference, i: nat)
    requires i < SummaryLineCount
    ensures ReadValue(SummaryLines(d)[i]) == SummaryValue(d, i)
  {
    CaptionShape(i);
    var line := SummaryLines(d)[i];
    assert line[CaptionWidth + 2..] == SummaryValue(d, i);
  }

  lemma SummaryLineFlag(d: Difference, k: nat)
    requires k < 12
    ensures ReadFlag(SummaryLines(d)[k + 2]) == Some(Flags(d)[k])
  {
    SummaryLineValue(d, k + 2);
    var v := ReadValue(SummaryLines(d)[k + 2]);
    var b := Flags(d)[k];
    if k + 2 == 8 {
      assert v == YesNo(b) + " ";
      if b { assert v == "yes "; } else { assert v == "no "; }
    } else {
      assert v == YesNo(b);
    }
  }

  /** Reading the summary back gives both labels and all twelve flags. */
  lemma ShortReportsFlags(d: Difference)
    requires '\n' !in d.recordA.recordLabel && '\n' !in d.recordB.recordLabel
    ensures |Split(Short(d), '\n')| == SummaryLineCount
    ensures ReadValue(Split(Short(d), '\n')[0]) == d.recordA.recordLabel
    ensures ReadValue(Split(Short(d), '\n')[1]) == d.recordB.recordLabel
    ensures forall k :: 0 <= k < 12 ==> ReadFlag(Split(Short(d), '\n')[k + 2]) == Some(Flags(d)[k])
  {
    ShortLines(d);
    SummaryLineValue(d, 0);
    SummaryLineValue(d, 1);
    forall k | 0 <= k < 12
      ensures ReadFlag(SummaryLines(d)[k + 2]) == Some(Flags(d)[k])
    {
      SummaryLineFlag(d, k);
    }
  }

  // ------------------------------------------------------------- report

  /** A dependency's diff, with every continuation line indented to sit
      under the first. */
  function IndentDiff(diff: string): string
  {
    Replace(diff, "\n", "\n       ")
  }

  /** The lines about one record's dependency. */
  function DependencyBlock(side: string, dep: Dependency): string
  {
    "    " + side + ": version=" + dep.version + "\n"
    + "       " + IndentDiff(dep.diff) + "\n"
  }

  /** The source prints the first record's diff under both records; the
      corrected report prints each record's own. */
  datatype Edition = AsWritten | Corrected

  /** The entry of a dependency both records have. */
  function SharedEntry(name: string, depA: Dependency, depB: Dependency): string
  {
    "  " + name + "\n" + DependencyBlock("A", depA) + DependencyBlock("B", depB)
  }

  /** The entry of a dependency only one record has. */
  function MissingEntry(name: string, has: string, lacks: string): string
  {
    "  " + name + " is a dependency of " + has + " but not of " + lacks + "\n"
  }

  /** One dependency's entry; the second branch also catches an entry with
      neither version, as the source's `depB is None` test does. */
  function DependencyEntry(labelA: string, labelB: string, c: DependencyChange, e: Edition): string
  {
    if c.depA.Some? && c.depB.Some? then
      var shownB := if e == AsWritten then Dependency(c.depB.value.version, c.depA.value.diff) else c.depB.value;
      SharedEntry(c.name, c.depA.value, shownB)
    else if c.depB.None? then
      MissingEntry(c.name, labelA, labelB)
    else
      MissingEntry(c.name, labelB, labelA)
  }

  function DependencyEntries(labelA: string, labelB: string, cs: seq<DependencyChange>, e: Edition): string
  {
    if |cs| == 0 then ""
    else DependencyEntry(labelA, labelB, cs[0], e) + DependencyEntries(labelA, labelB, cs[1..], e)
  }

  /** A header followed by one line per record. */
  function PerRecord(header: string, lineA: string, lineB: string): string
  {
    header + lineA + lineB
  }

  const ExecutableHeader := "Executable differences:\n"
  const CodeHeader := "Code differences:\n"
  const DependencyHeader := "Dependency differences:\n"
  const LaunchHeader := "Launch mode differences:\n"
  const ParameterHeader := "Parameter differences:\n"
  const InputHeader := "Input data differences:\n"
  const ScriptHeader := "Script argument differences:\n"
  const OutputHeader := "Output data differences:\n"

  function ExecutableSection(d: Difference): (r: string)
    ensures r == "" <==> !d.executableDiffers
    ensures r != "" ==> OccursAt(r, ExecutableHeader, 0)
  {
    if !d.executableDiffers then ""
    else PerRecord(ExecutableHeader,
                   "  " + d.recordA.recordLabel + ": " + d.recordA.executable + "\n",
                   "  " + d.recordB.recordLabel + ": " + d.recordB.executable + "\n")
  }

  function CodeLine(r: RecordSide): string
  {
    "  " + r.recordLabel + ": main file '" + r.mainFile + "' at version " + r.version + " in " + r.repository + "\n"
  }

  function DiffLine(r: RecordSide): string
  {
    "  " + r.recordLabel + ":\n " + r.diff + "\n"
  }

  /** The diffs themselves are shown only under "Code differences". */
  function CodeSection(d: Difference): (r: string)
    ensures r == "" <==> !d.codeDiffers
    ensures r != "" ==> OccursAt(r, CodeHeader, 0)
  {
    if !d.codeDiffers then ""
    else
      PerRecord(CodeHeader, CodeLine(d.recordA), CodeLine(d.recordB))
      + (if d.diffDiffers then DiffLine(d.recordA) + DiffLine(d.recordB) else "")
  }

  function DependencySection(d: Difference, e: Edition): (r: string)
    ensures r == "" <==> !d.dependenciesDiffer
    ensures r != "" ==> OccursAt(r, DependencyHeader, 0)
  {
    if !d.dependenciesDiffer then ""
    else
      DependencyHeader
      + DependencyEntries(d.recordA.recordLabel, d.recordB.recordLabel, d.dependencyDifferences, e)
  }

  function LaunchSection(d: Difference): (r: string)
    ensures r == "" <==> d.launchModeDifferences.None?
    ensures r != "" ==> OccursAt(r, LaunchHeader, 0)
  {
    match d.launchModeDifferences
    case None => ""
    case Some((modeA, modeB)) =>
      PerRecord(LaunchHeader,
                "  " + d.recordA.recordLabel + ": " + modeA + "\n",
                "  " + d.recordB.recordLabel + ": " + modeB + "\n")
  }

  function ParameterSection(d: Difference): (r: string)
    ensures r == "" <==> !d.parametersDiffer
    ensures r != "" ==> OccursAt(r, ParameterHeader, 0)
  {
    if !d.parametersDiffer then ""
    else PerRecord(ParameterHeader,
                   "  " + d.recordA.recordLabel + ":\n" + d.recordA.parameters + "\n",
                   "  " + d.recordB.recordLabel + ":\n" + d.recordB.parameters + "\n")
  }

  function InputSection(d: Difference): (r: string)
    ensures r == "" <==> !d.inputDataDiffer
    ensures r != "" ==> OccursAt(r, InputHeader, 0)
  {
    if !d.inputDataDiffer then ""
    else PerRecord(InputHeader,
                   "  " + d.recordA.recordLabel + ": " + d.recordA.inputData + "\n",
                   "  " + d.recordB.recordLabel + ": " + d.recordB.inputData + "\n")
  }

  function ScriptSection(d: Difference): (r: string)
    ensures r == "" <==> !d.scriptArgumentsDiffer
    ensures r != "" ==> OccursAt(r, ScriptHeader, 0)
  {
    if !d.scriptArgumentsDiffer then ""
    else PerRecord(ScriptHeader,
                   "  " + d.recordA.recordLabel + ": " + d.recordA.scriptArguments + "\n",
                   "  " + d.recordB.recordLabel + ": " + d.recordB.scriptArguments + "\n")
  }

  function KeyLines(keys: seq<string>): string
  {
    if |keys| == 0 then "" else "    " + keys[0] + "\n" + KeyLines(keys[1..])
  }

  function GeneratedBy(recordLabel: string, keys: seq<string>): string
  {
    if |keys| == 0 then "" else "  Generated by " + recordLabel + ":\n" + KeyLines(keys)
  }

  function OutputSection(d: Difference): (r: string)
    ensures r == "" <==> |d.outputOnlyInA| == 0 && |d.outputOnlyInB| == 0
    ensures r != "" ==> OccursAt(r, OutputHeader, 0)
  {
    if |d.outputOnlyInA| == 0 && |d.outputOnlyInB| == 0 then ""
    else
      OutputHeader
      + GeneratedBy(d.recordA.recordLabel, d.outputOnlyInA)
      + GeneratedBy(d.recordB.recordLabel, d.outputOnlyInB)
  }

  /** The sections after the dependencies. */
  function LaterSections(d: Difference): string
  {
    LaunchSection(d) + (ParameterSection(d) + (InputSection(d) + (ScriptSection(d) + OutputSection(d))))
  }

  function Report(d: Difference, e: Edition): string
  {
    ExecutableSection(d) + (CodeSection(d) + (DependencySection(d, e) + LaterSections(d)))
  }

  /** `TextDiffFormatter.long` as the source writes it. */
  function Long(d: Difference): string
  {
    Report(d, AsWritten)
  }

  /** `TextDiffFormatter.long` with each record's own dependency diff. */
  function LongCorrected(d: Difference): string
  {
    Report(d, Corrected)
  }

  // ------------------------------------------------------- report proofs

  /** The flags of the report's sections, and the details behind the ones the
      report reads directly. */
  predicate NothingToReport(d: Difference)
  {
    !d.executableDiffers && !d.codeDiffers && !d.dependenciesDiffer
    && d.launchModeDifferences.None? && !d.parametersDiffer && !d.inputDataDiffer
    && !d.scriptArgumentsDiffer && |d.outputOnlyInA| == 0 && |d.outputOnlyInB| == 0
  }

  /** The report is empty exactly when no section has anything to say; a
      section with differences always starts with its header, even when the
      list behind it is empty. */
  lemma ReportEmpty(d: Difference, e: Edition)
    ensures Report(d, e) == "" <==> NothingToReport(d)
  {
    assert |LaterSections(d)| == |LaunchSection(d)| + |ParameterSection(d)| + |InputSection(d)|
      + |ScriptSection(d)| + |OutputSection(d)|;
    assert |Report(d, e)| == |ExecutableSection(d)| + |CodeSection(d)| + |DependencySection(d, e)|
      + |LaterSections(d)|;
  }

  lemma PrefixOfJoin(x: string, rest: string, n: nat)
    requires n <= |x|
    ensures (x + rest)[..n] == x[..n]
  {
  }

  lemma ExecutableHeading(d: Difference)
    requires d.executableDiffers
    ensures |ExecutableHeader| <= |ExecutableSection(d)|
    ensures ExecutableSection(d)[..|ExecutableHeader|] == ExecutableHeader
  {
    var lines := ("  " + d.recordA.recordLabel + ": " + d.recordA.executable + "\n")
      + ("  " + d.recordB.recordLabel + ": " + d.recordB.executable + "\n");
    assert ExecutableSection(d) == ExecutableHeader + lines;
  }

  /** The report opens with the executables when they differ. */
  lemma LongOpensWithExecutable(d: Difference)
    requires d.executableDiffers
    ensures |ExecutableHeader| <= |Long(d)| && Long(d)[..|ExecutableHeader|] == ExecutableHeader
  {
    var x := ExecutableSection(d);
    var rest := CodeSection(d) + (DependencySection(d, AsWritten) + LaterSections(d));
    assert Long(d) == x + rest;
    ExecutableHeading(d);
    PrefixOfJoin(x, rest, |ExecutableHeader|);
  }

  /** The report's eight sections, in the order the source writes them. */
  function Sections(d: Difference, e: Edition): (ss: seq<string>)
    ensures |ss| == 8
  {
    [ExecutableSection(d), CodeSection(d), DependencySection(d, e), LaunchSection(d),
     ParameterSection(d), InputSection(d), ScriptSection(d), OutputSection(d)]
  }

  /** The heading each section starts with, in the same order. */
  const SectionHeaders: seq<string> := [
    ExecutableHeader, CodeHeader, DependencyHeader, LaunchHeader,
    ParameterHeader, InputHeader, ScriptHeader, OutputHeader]

  /** Eight parts joined are the parts nested to the right. */
  lemma ConcatEight(s0: string, s1: string, s2: string, s3: string, s4: string, s5: string, s6: string, s7: string)
    ensures Concat([s0, s1, s2, s3, s4, s5, s6, s7]) == s0 + (s1 + (s2 + (s3 + (s4 + (s5 + (s6 + s7))))))
  {
    var front, back := [s0, s1, s2, s3], [s4, s5, s6, s7];
    assert [s0, s1, s2, s3, s4, s5, s6, s7] == front + back;
    ConcatAppend(front, back);
    ConcatFour(s0, s1, s2, s3);
    ConcatFour(s4, s5, s6, s7);
  }

  lemma ReportIsSections(d: Difference, e: Edition)
    ensures Report(d, e) == Concat(Sections(d, e))
  {
    ConcatEight(ExecutableSection(d), CodeSection(d), DependencySection(d, e), LaunchSection(d),
                ParameterSection(d), InputSection(d), ScriptSection(d), OutputSection(d));
  }

  /** Parts that each start with their heading when present: in the
      concatenation, each present heading sits where its part begins and
      ends before any later part begins. */
  lemma HeadingsInOrder(parts: seq<string>, heads: seq<string>)
    requires |parts| == |heads|
    requires forall i :: 0 <= i < |parts| && parts[i] != "" ==> OccursAt(parts[i], heads[i], 0)
    ensures forall i :: 0 <= i < |parts| && parts[i] != "" ==> OccursAt(Concat(parts), heads[i], StartOf(parts, i))
    ensures forall i, j :: 0 <= i < j < |parts| && parts[i] != "" ==> StartOf(parts, i) + |heads[i]| <= StartOf(parts, j)
  {
    forall i | 0 <= i < |parts| && parts[i] != ""
      ensures OccursAt(Concat(parts), heads[i], StartOf(parts, i))
    {
      ConcatAt(parts, i);
      var h, at := heads[i], StartOf(parts, i);
      assert Concat(parts)[at..at + |h|] == parts[i][..|h|];
    }
    forall i, j | 0 <= i < j < |parts| && parts[i] != ""
      ensures StartOf(parts, i) + |heads[i]| <= StartOf(parts, j)
    {
      StartOfGrows(parts, i, j);
    }
  }

  /** The report is its sections in the source's order, executable, code,
      dependencies, launch mode, parameters, input data, script arguments and
      output data, with nothing between them. Each section that is present
      starts with its heading, and that heading ends before any later
      section begins. */
  lemma LongHeadingsInOrder(d: Difference, e: Edition)
    ensures Report(d, e) == Concat(Sections(d, e))
    ensures forall i :: 0 <= i < 8 && Sections(d, e)[i] != "" ==>
              OccursAt(Report(d, e), SectionHeaders[i], StartOf(Sections(d, e), i))
    ensures forall i, j :: 0 <= i < j < 8 && Sections(d, e)[i] != "" ==>
              StartOf(Sections(d, e), i) + |SectionHeaders[i]| <= StartOf(Sections(d, e), j)
  {
    var ss := Sections(d, e);
    ReportIsSections(d, e);
    forall i | 0 <= i < 8 && ss[i] != ""
      ensures OccursAt(ss[i], SectionHeaders[i], 0)
    {
      SectionStartsWithHeading(d, e, i);
    }
    HeadingsInOrder(ss, SectionHeaders);
  }

  lemma SectionStartsWithHeading(d: Difference, e: Edition, i: nat)
    requires i < 8 && Sections(d, e)[i] != ""
    ensures OccursAt(Sections(d, e)[i], SectionHeaders[i], 0)
  {
    if i < 4 {
      FrontSectionHeading(d, e, i);
    } else {
      BackSectionHeading(d, e, i);
    }
  }

  lemma FrontSectionHeading(d: Difference, e: Edition, i: nat)
    requires i < 4 && Sections(d, e)[i] != ""
    ensures OccursAt(Sections(d, e)[i], SectionHeaders[i], 0)
  {
    var ss := Sections(d, e);
    if i == 0 {
      assert ss[i] == ExecutableSection(d) && SectionHeaders[i] == ExecutableHeader;
    } else if i == 1 {
      assert ss[i] == CodeSection(d) && SectionHeaders[i] == CodeHeader;
    } else if i == 2 {
      assert ss[i] == DependencySection(d, e) && SectionHeaders[i] == DependencyHeader;
    } else {
      assert ss[i] == LaunchSection(d) && SectionHeaders[i] == LaunchHeader;
    }
  }

  lemma BackSectionHeading(d: Difference, e: Edition, i: nat)
    requires 4 <= i < 8 && Sections(d, e)[i] != ""
    ensures OccursAt(Sections(d, e)[i], SectionHeaders[i], 0)
  {
    var ss := Sections(d, e);
    if i == 4 {
      assert ss[i] == ParameterSection(d) && SectionHeaders[i] == ParameterHeader;
    } else if i == 5 {
      assert ss[i] == InputSection(d) && SectionHeaders[i] == InputHeader;
    } else if i == 6 {
      assert ss[i] == ScriptSection(d) && SectionHeaders[i] == ScriptHeader;
    } else {
      assert ss[i] == OutputSection(d) && SectionHeaders[i] == OutputHeader;
    }
  }

  /** Two dependency lists that differ only in the diff of the second record's
      version of dependencies both records have. */
  predicate SameButSecondDiffs(cs: seq<DependencyChange>, ds: seq<DependencyChange>)
  {
    |cs| == |ds|
    && forall k :: 0 <= k < |cs| ==>
      cs[k].name == ds[k].name && cs[k].depA == ds[k].depA && cs[k].depB.Some? == ds[k].depB.Some?
      && (cs[k].depB.Some? ==> cs[k].depB.value.version == ds[k].depB.value.version)
      && (cs[k].depA.None? ==> cs[k].depB == ds[k].depB)
  }

  lemma {:induction false} EntriesIgnoreSecondDiffs(labelA: string, labelB: string, cs: seq<DependencyChange>, ds: seq<DependencyChange>)
    requires SameButSecondDiffs(cs, ds)
    ensures DependencyEntries(labelA, labelB, cs, AsWritten) == DependencyEntries(labelA, labelB, ds, AsWritten)
    decreases |cs|
  {
    if |cs| > 0 {
      assert SameButSecondDiffs(cs[1..], ds[1..]) by {
        forall k | 0 <= k < |cs| - 1
          ensures cs[1..][k] == cs[k + 1] && ds[1..][k] == ds[k + 1]
        {
        }
      }
      EntriesIgnoreSecondDiffs(labelA, labelB, cs[1..], ds[1..]);
    }
  }

  /** As written, the report cannot tell the second record's dependency diffs
      apart: changing them all leaves it the same. */
  lemma LongIgnoresSecondDiffs(d: Difference, ds: seq<DependencyChange>)
    requires SameButSecondDiffs(d.dependencyDifferences, ds)
    ensures Long(d) == Long(d.(dependencyDifferences := ds))
  {
    var d' := d.(dependencyDifferences := ds);
    EntriesIgnoreSecondDiffs(d.recordA.recordLabel, d.recordB.recordLabel, d.dependencyDifferences, ds);
    assert DependencySection(d, AsWritten) == DependencySection(d', AsWritten);
    assert ExecutableSection(d) == ExecutableSection(d');
    assert CodeSection(d) == CodeSection(d');
    LaterIgnoresDependencies(d, ds);
  }

  lemma LaterIgnoresDependencies(d: Difference, ds: seq<DependencyChange>)
    ensures LaterSections(d) == LaterSections(d.(dependencyDifferences := ds))
  {
    var d' := d.(dependencyDifferences := ds);
    assert LaunchSection(d) == LaunchSection(d');
    assert ParameterSection(d) == ParameterSection(d');
    assert InputSection(d) == InputSection(d');
    assert ScriptSection(d) == ScriptSection(d');
    assert OutputSection(d) == OutputSection(d');
  }

  /** Every dependency both records have carries the same diff in each. */
  predicate SharedDiffsAgree(cs: seq<DependencyChange>)
  {
    forall k :: 0 <= k < |cs| ==> cs[k].depA.Some? && cs[k].depB.Some? ==> cs[k].depA.value.diff == cs[k].depB.value.diff
  }

  lemma {:induction false} EntriesAgree(labelA: string, labelB: string, cs: seq<DependencyChange>)
    requires SharedDiffsAgree(cs)
    ensures DependencyEntries(labelA, labelB, cs, Corrected) == DependencyEntries(labelA, labelB, cs, AsWritten)
    decreases |cs|
  {
    if |cs| > 0 {
      assert SharedDiffsAgree(cs[1..]) by {
        forall k | 0 <= k < |cs| - 1
          ensures cs[1..][k] == cs[k + 1]
        {
        }
      }
      EntriesAgree(labelA, labelB, cs[1..]);
    }
  }

  /** The correction changes nothing where both records' diffs agree. */
  lemma LongCorrectedAgrees(d: Difference)
    requires SharedDiffsAgree(d.dependencyDifferences)
    ensures LongCorrected(d) == Long(d)
  {
    EntriesAgree(d.recordA.recordLabel, d.recordB.recordLabel, d.dependencyDifferences);
  }

  lemma IndentDiffInjective(a: string, b: string)
    requires IndentDiff(a) == IndentDiff(b)
    ensures a == b
  {
    ReplaceCharInjective(a, b, '\n', "\n       ");
  }

  lemma CancelAround(p: string, x: string, y: string, q: string)
    requires p + x + q == p + y + q
    ensures x == y
  {
    assert x == (p + x + q)[|p|..|p| + |x|];
    assert |x| == |y|;
    assert y == (p + y + q)[|p|..|p| + |y|];
  }

  /** The block of one version determines its diff. */
  lemma BlockShowsDiff(side: string, b1: Dependency, b2: Dependency)
    requires b1.version == b2.version
    requires DependencyBlock(side, b1) == DependencyBlock(side, b2)
    ensures b1.diff == b2.diff
  {
    var p := "    " + side + ": version=" + b1.version + "\n" + "       ";
    assert DependencyBlock(side, b1) == p + IndentDiff(b1.diff) + "\n";
    assert DependencyBlock(side, b2) == p + IndentDiff(b2.diff) + "\n";
    CancelAround(p, IndentDiff(b1.diff), IndentDiff(b2.diff), "\n");
    IndentDiffInjective(b1.diff, b2.diff);
  }

  /** Corrected, the entry of a dependency both records have shows the
      second record's own diff: two entries that agree on everything else
      differ whenever those diffs do. */
  lemma CorrectedShowsSecondDiff(labelA: string, labelB: string, name: string, a: Dependency, b1: Dependency, b2: Dependency)
    requires b1.version == b2.version && b1.diff != b2.diff
    ensures DependencyEntry(labelA, labelB, DependencyChange(name, Some(a), Some(b1)), Corrected)
         != DependencyEntry(labelA, labelB, DependencyChange(name, Some(a), Some(b2)), Corrected)
  {
    var p := "  " + name + "\n" + DependencyBlock("A", a);
    if SharedEntry(name, a, b1) == SharedEntry(name, a, b2) {
      CancelAround(p, DependencyBlock("B", b1), DependencyBlock("B", b2), "");
      BlockShowsDiff("B", b1, b2);
    }
  }

  /** As written, the same two entries coincide. */
  lemma AsWrittenHidesSecondDiff(labelA: string, labelB: string, name: string, a: Dependency, b1: Dependency, b2: Dependency)
    requires b1.version == b2.version
    ensures DependencyEntry(labelA, labelB, DependencyChange(name, Some(a), Some(b1)), AsWritten)
         == DependencyEntry(labelA, labelB, DependencyChange(name, Some(a), Some(b2)), AsWritten)
  {
  }
}
