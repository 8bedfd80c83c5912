/** MainWindow.xaml.cs, `GenerateElectrodeName` and `BuildExportPath`: the exported
    file's base name and its destination folder, both pure string computations. */
module Naming {
  import opened Wrappers
  import opened Strings
  import opened Classifier
  import opened Sequences

  // ----- GenerateElectrodeName -----

  /** The stage abbreviation; an unknown stage falls back to its first two characters,
      which `Substring(0, 2)` cannot take from a shorter one. */
  function Abbreviation(stage: string): (r: Query<string>)
    ensures r.Threw? <==> stage != Ebauche && stage != DemiFinition && stage != Finition && |stage| < 2
    ensures r.Answer? && stage != Ebauche && stage != DemiFinition && stage != Finition ==> r.value == stage[..2]
  {
    if stage == Ebauche then Answer("Eb")
    else if stage == DemiFinition then Answer("DemiFini")
    else if stage == Finition then Answer("Fini")
    else if |stage| >= 2 then Answer(stage[..2])
    else Threw
  }

  /** The stage of a label: the trimmed text before its colon. */
  function StageOf(itemName: string): (r: string) {
    Trim(Split(itemName, ':')[0])
  }

  /** The gap of a label: the trimmed text after its colon without " mm", "." and ",". */
  function GapOf(itemName: string): (r: string)
    requires |Split(itemName, ':')| == 2
  {
    RemoveAll(RemoveAll(RemoveAll(Trim(Split(itemName, ':')[1]), " mm"), "."), ",")
  }

  /** `GenerateElectrodeName`: "{nomElec}-Sans-GAP" for the master, `nomElec` alone for a
      label that does not split into exactly two pieces on ':', otherwise
      "{nomElec}{abbreviation}-G{gap}". */
  function GenerateElectrodeName(nomElec: string, itemName: string): (r: Query<string>)
    ensures itemName == SansGap ==> r == Answer(nomElec + "-Sans-GAP")
    ensures itemName != SansGap && |Split(itemName, ':')| != 2 ==> r == Answer(nomElec)
    ensures r.Threw? <==> itemName != SansGap && |Split(itemName, ':')| == 2 && Abbreviation(StageOf(itemName)).Threw?
    ensures r.Answer? ==> StartsWith(r.value, nomElec)
  {
    if itemName == SansGap then Answer(nomElec + "-Sans-GAP")
    else
      var parts := Split(itemName, ':');
      if |parts| != 2 then Answer(nomElec)
      else match Abbreviation(StageOf(itemName))
        case Threw => Threw
        case Answer(abbr) => Answer(nomElec + abbr + "-G" + GapOf(itemName))
  }

  /** A label without exactly one colon names the file after the electrode alone, and
      only a label with one colon can make the abbreviation throw. */
  lemma ColonCount(nomElec: string, itemName: string)
    requires itemName != SansGap
    ensures multiset(itemName)[':'] != 1 ==> GenerateElectrodeName(nomElec, itemName) == Answer(nomElec)
    ensures GenerateElectrodeName(nomElec, itemName).Threw? ==> multiset(itemName)[':'] == 1
  {
    SplitCount(itemName, ':');
  }

  /** What `(value * 1000).ToString()` produces: digits, signs, separators and exponent. */
  predicate GapText(gap: string) {
    |gap| > 0 && forall i :: 0 <= i < |gap| ==> GapChar(gap[i])
  }

  predicate GapChar(c: char) {
    ('0' <= c <= '9') || c == '.' || c == ',' || c == '-' || c == '+' || c == 'E'
  }

  /** A gap text holds neither white space nor a colon. */
  lemma GapTextChars(gap: string)
    requires GapText(gap)
    ensures !IsWhiteSpace(gap[0]) && ':' !in gap && ' ' !in gap
  {
    assert GapChar(gap[0]);
    forall i | 0 <= i < |gap|
      ensures gap[i] != ':' && gap[i] != ' '
    {
      assert GapChar(gap[i]);
    }
  }

  /** The gap digits the file name carries: the gap without its decimal separators. */
  function Digits(gap: string): (r: string) {
    DropChar(DropChar(gap, '.'), ',')
  }

  /** A stage text without a colon that `Trim` leaves as it is. */
  predicate StageText(stage: string) {
    ':' !in stage && (|stage| > 0 ==> !IsWhiteSpace(stage[0]) && !IsWhiteSpace(stage[|stage| - 1]))
  }

  /** The three stages the classifier writes, and their abbreviations. */
  lemma KnownStages()
    ensures StageText(Ebauche) && Abbreviation(Ebauche) == Answer("Eb")
    ensures StageText(DemiFinition) && Abbreviation(DemiFinition) == Answer("DemiFini")
    ensures StageText(Finition) && Abbreviation(Finition) == Answer("Fini")
  {
  }

  /** Splitting "{stage}: {rest}" on its one colon. */
  lemma SplitLabel(stage: string, rest: string)
    requires StageText(stage) && ':' !in rest
    ensures Split(stage + ": " + rest, ':') == [stage, " " + rest]
    ensures StageOf(stage + ": " + rest) == stage
  {
    var tail := " " + rest;
    assert stage + ": " + rest == stage + [':'] + tail;
    assert ':' !in tail;
    SplitPair(stage, tail, ':');
    TrimUntouched(stage);
  }

  /** The text after the colon, " {gap}{suffix}", trims to "{gap}{suffix}". */
  lemma TrimGap(gap: string, suffix: string)
    requires GapText(gap) && |suffix| > 0 && !IsWhiteSpace(suffix[|suffix| - 1])
    ensures Trim(" " + (gap + suffix)) == gap + suffix
  {
    var rest := gap + suffix;
    GapTextChars(gap);
    assert IsBlank(" ");
    TrimLeading(" ", rest);
    assert rest[0] == gap[0] && rest[|rest| - 1] == suffix[|suffix| - 1];
    TrimUntouched(rest);
  }

  /** The name of a label that splits into a stage and a tail. */
  lemma NameOfPieces(nomElec: string, item: string, stage: string, tail: string)
    requires item != SansGap && Split(item, ':') == [stage, tail] && StageText(stage)
    requires Abbreviation(stage).Answer?
    ensures GenerateElectrodeName(nomElec, item) == Answer(nomElec + Abbreviation(stage).value + "-G" + GapOf(item))
    ensures GapOf(item) == RemoveAll(RemoveAll(RemoveAll(Trim(tail), " mm"), "."), ",")
  {
    TrimUntouched(stage);
  }

  /** The tail " {gap} mm" of a label leaves the gap digits. */
  lemma GapOfSpacedTail(gap: string)
    requires GapText(gap)
    ensures RemoveAll(RemoveAll(RemoveAll(Trim(" " + (gap + " mm")), " mm"), "."), ",") == Digits(gap)
  {
    GapTextChars(gap);
    TrimGap(gap, " mm");
    RemoveAllTrailing(gap, " mm");
    RemoveAllChar(gap, '.');
    RemoveAllChar(DropChar(gap, '.'), ',');
  }

  /** The tail " {gap}mm" of a label leaves the gap digits followed by "mm". */
  lemma GapOfUnspacedTail(gap: string)
    requires GapText(gap)
    ensures RemoveAll(RemoveAll(RemoveAll(Trim(" " + (gap + "mm")), " mm"), "."), ",") == Digits(gap) + "mm"
  {
    var rest := gap + "mm";
    GapTextChars(gap);
    assert ' ' !in rest;
    TrimGap(gap, "mm");
    RemoveAllAbsent(rest, " mm");
    RemoveAllChar(rest, '.');
    RemoveAllChar(DropChar(rest, '.'), ',');
    DropCharAppend(gap, "mm", '.');
    DropCharAbsent("mm", '.');
    DropCharAppend(DropChar(gap, '.'), "mm", ',');
    DropCharAbsent("mm", ',');
  }

  /** A label "{stage}: {gap} mm" names the file "{nomElec}{abbreviation}-G{digits}":
      labelling and naming agree for every gap text. */
  lemma NameOfLabel(nomElec: string, stage: string, gap: string)
    requires StageText(stage) && Abbreviation(stage).Answer?
    requires GapText(gap)
    ensures GenerateElectrodeName(nomElec, Label(stage, gap)) == Answer(nomElec + Abbreviation(stage).value + "-G" + Digits(gap))
  {
    var item := Label(stage, gap);
    SpacedPieces(stage, gap);
    NameOfPieces(nomElec, item, stage, " " + (gap + " mm"));
    GapOfSpacedTail(gap);
  }

  /** A label "{stage}: {gap}{unit}" splits on its one colon and is not "Sans GAP". */
  lemma LabelPieces(stage: string, gap: string, unit: string)
    requires StageText(stage) && GapText(gap)
    requires ':' !in unit && |unit| > 0 && unit[|unit| - 1] == 'm'
    ensures stage + ": " + gap + unit != SansGap
    ensures Split(stage + ": " + gap + unit, ':') == [stage, " " + (gap + unit)]
  {
    var rest := gap + unit;
    AppendAssoc(stage + ": ", gap, unit);
    GapTextChars(gap);
    assert ':' !in rest;
    SplitLabel(stage, rest);
    var item := stage + ": " + rest;
    assert item[|item| - 1] == 'm';
  }

  lemma SpacedPieces(stage: string, gap: string)
    requires StageText(stage) && GapText(gap)
    ensures Label(stage, gap) != SansGap
    ensures Split(Label(stage, gap), ':') == [stage, " " + (gap + " mm")]
  {
    LabelPieces(stage, gap, " mm");
  }

  lemma UnspacedPieces(stage: string, gap: string)
    requires StageText(stage) && GapText(gap)
    ensures UnspacedLabel(stage, gap) != SansGap
    ensures Split(UnspacedLabel(stage, gap), ':') == [stage, " " + (gap + "mm")]
  {
    LabelPieces(stage, gap, "mm");
  }


  /** The label "{stage}: {gap}mm" the classifier writes for the rough item of three or
      more copies keeps "mm" in the file name, because only " mm" with its space is
      removed. */
  lemma NameOfUnspacedLabel(nomElec: string, stage: string, gap: string)
    requires StageText(stage) && Abbreviation(stage).Answer?
    requires GapText(gap)
    ensures GenerateElectrodeName(nomElec, UnspacedLabel(stage, gap)) == Answer(nomElec + Abbreviation(stage).value + "-G" + Digits(gap) + "mm")
  {
    var item := UnspacedLabel(stage, gap);
    UnspacedPieces(stage, gap);
    NameOfPieces(nomElec, item, stage, " " + (gap + "mm"));
    GapOfUnspacedTail(gap);
    var prefix := nomElec + Abbreviation(stage).value + "-G";
    assert GapOf(item) == Digits(gap) + "mm";
    AppendAssoc(prefix, Digits(gap), "mm");
  }

  /** The file name of a finish item. */
  lemma FinishFileName(nomElec: string, gap: string)
    requires GapText(gap)
    ensures GenerateElectrodeName(nomElec, Label(Finition, gap)) == Answer(nomElec + "Fini-G" + Digits(gap))
  {
    KnownStages();
    NameOfLabel(nomElec, Finition, gap);
    assert nomElec + "Fini" + "-G" == nomElec + "Fini-G";
  }

  /** The file name of a half-finish item. */
  lemma HalfFinishFileName(nomElec: string, gap: string)
    requires GapText(gap)
    ensures GenerateElectrodeName(nomElec, Label(DemiFinition, gap)) == Answer(nomElec + "DemiFini-G" + Digits(gap))
  {
    KnownStages();
    NameOfLabel(nomElec, DemiFinition, gap);
    assert nomElec + "DemiFini" + "-G" == nomElec + "DemiFini-G";
  }

  /** The file name of the rough item of two copies. */
  lemma RoughFileName(nomElec: string, gap: string)
    requires GapText(gap)
    ensures GenerateElectrodeName(nomElec, Label(Ebauche, gap)) == Answer(nomElec + "Eb-G" + Digits(gap))
  {
    KnownStages();
    NameOfLabel(nomElec, Ebauche, gap);
    assert nomElec + "Eb" + "-G" == nomElec + "Eb-G";
  }

  /** The file name of the rough item of three or more copies, which keeps "mm". */
  lemma UnspacedRoughFileName(nomElec: string, gap: string)
    requires GapText(gap)
    ensures GenerateElectrodeName(nomElec, UnspacedLabel(Ebauche, gap)) == Answer(nomElec + "Eb-G" + Digits(gap) + "mm")
  {
    KnownStages();
    NameOfUnspacedLabel(nomElec, Ebauche, gap);
    assert nomElec + "Eb" + "-G" == nomElec + "Eb-G";
  }

  /** The file name of every item the classifier labels with a gap:
      "{nomElec}{abbreviation}-G{digits}", with "mm" left over only on the rough item of
      three or more copies. */
  lemma ClassifiedFileName(nomElec: string, n: nat, k: nat, gaps: Pipeline.Gaps)
    requires k < n
    requires GapText(gaps.rough) && GapText(gaps.halfFinish) && GapText(gaps.finish)
    ensures n == 1 || (k == n - 1 && k != 0) ==> GenerateElectrodeName(nomElec, StageLabel(n, k, gaps)) == Answer(nomElec + "Fini-G" + Digits(gaps.finish))
    ensures n == 2 && k == 0 ==> GenerateElectrodeName(nomElec, StageLabel(n, k, gaps)) == Answer(nomElec + "Eb-G" + Digits(gaps.rough))
    ensures n >= 3 && k == 0 ==> GenerateElectrodeName(nomElec, StageLabel(n, k, gaps)) == Answer(nomElec + "Eb-G" + Digits(gaps.rough) + "mm")
    ensures 0 < k < n - 1 ==> GenerateElectrodeName(nomElec, StageLabel(n, k, gaps)) == Answer(nomElec + "DemiFini-G" + Digits(gaps.halfFinish))
  {
    var stageLabel := StageLabel(n, k, gaps);
    if n == 1 || (k == n - 1 && k != 0) {
      assert stageLabel == Label(Finition, gaps.finish);
      FinishFileName(nomElec, gaps.finish);
    } else if k == 0 && n == 2 {
      assert stageLabel == Label(Ebauche, gaps.rough);
      RoughFileName(nomElec, gaps.rough);
    } else if k == 0 {
      assert stageLabel == UnspacedLabel(Ebauche, gaps.rough);
      UnspacedRoughFileName(nomElec, gaps.rough);
    } else {
      assert stageLabel == Label(DemiFinition, gaps.halfFinish);
      HalfFinishFileName(nomElec, gaps.halfFinish);
    }
  }

  /** A gap "{a}.{b}" with one decimal digit is named by its two digits. */
  lemma DecimalDigits(a: char, b: char)
    requires '0' <= a <= '9' && '0' <= b <= '9'
    ensures GapText([a, '.', b]) && Digits([a, '.', b]) == [a, b]
  {
    var gap := [a, '.', b];
    assert gap == [a] + ['.'] + [b];
    DropCharAppend([a] + ['.'], [b], '.');
    DropCharAppend([a], ['.'], '.');
    DropCharSingle(a, '.');
    DropCharSingle('.', '.');
    DropCharSingle(b, '.');
    assert DropChar(gap, '.') == [a] + [b];
    DropCharAppend([a], [b], ',');
    DropCharSingle(a, ',');
    DropCharSingle(b, ',');
    assert Digits(gap) == [a] + [b];
  }

  /** "Ebauche: 0.5 mm" names the file "{nomElec}Eb-G05". */
  lemma RoughNameExample(nomElec: string)
    ensures GenerateElectrodeName(nomElec, Label(Ebauche, "0.5")) == Answer(nomElec + "Eb-G05")
  {
    DecimalDigits('0', '5');
    assert "0.5" == ['0', '.', '5'] && "05" == ['0', '5'];
    RoughFileName(nomElec, "0.5");
    AppendAssoc(nomElec, "Eb-G", "05");
    assert "Eb-G" + "05" == "Eb-G05";
  }

  // ----- BuildExportPath -----

  /** The folder path separator `Path.Combine` inserts. */
  const PathSeparator := '\\'

  /** The three fields read from the document-name parameter. */
  datatype PathComponents = PathComponents(numero: string, indice: string, projet: string)

  /** The parse of `BuildExportPath`: at least four space-separated tokens, of which
      the first is the number, the second and third joined by a space the revision, and
      the fourth the project; later tokens are ignored. */
  function ParseNomDocu(nomDocu: string): (r: Option<PathComponents>)
    ensures r.None? <==> |Tokens(nomDocu)| < 4
    ensures r.Some? ==> ' ' !in r.value.numero && ' ' !in r.value.projet && r.value.numero != [] && r.value.projet != []
  {
    var parts := Tokens(nomDocu);
    TokensShape(nomDocu);
    if |parts| < 4 then None
    else Some(PathComponents(parts[0], parts[1] + " " + parts[2], parts[3]))
  }

  /** {base}\{projet}\{numero} - {designation}\{indice}\Electrode\Electrode parallélisée */
  function ExportFolder(baseExportPath: string, c: PathComponents, designation: string): (r: string) {
    Join([baseExportPath, c.projet, c.numero + " - " + designation, c.indice, "Electrode", "Electrode parallélisée"], PathSeparator)
  }

  /** `BuildExportPath`: the destination folder, or `null` when the document name has too
      few tokens or the folders cannot be created (`directoryReady` is false). */
  function BuildExportPath(baseExportPath: string, nomDocu: string, designation: string, directoryReady: bool): (r: Option<string>)
    ensures r.Some? <==> |Tokens(nomDocu)| >= 4 && directoryReady
  {
    match ParseNomDocu(nomDocu)
    case None => None
    case Some(c) => if directoryReady then Some(ExportFolder(baseExportPath, c, designation)) else None
  }

  /** A document name made of four or more words parses by position. */
  lemma {:induction false} ParseWords(words: seq<string>)
    requires |words| >= 4
    requires forall i :: 0 <= i < |words| ==> |words[i]| > 0 && ' ' !in words[i]
    ensures ParseNomDocu(Join(words, ' ')) == Some(PathComponents(words[0], words[1] + " " + words[2], words[3]))
  {
    TokensJoin(words);
  }

  /** A document name of fewer than four words is rejected. */
  lemma {:induction false} ParseTooFewWords(words: seq<string>)
    requires |words| < 4
    requires forall i :: 0 <= i < |words| ==> |words[i]| > 0 && ' ' !in words[i]
    ensures ParseNomDocu(Join(words, ' ')).None?
  {
    TokensJoin(words);
  }

  /** "E01 Ind F test" with designation "Bracket" is exported under
      {base}\test\E01 - Bracket\Ind F\Electrode\Electrode parallélisée. */
  lemma ExportFolderExample(baseExportPath: string)
    ensures ParseNomDocu(Join(["E01", "Ind", "F", "test"], ' ')) == Some(PathComponents("E01", "Ind F", "test"))
    ensures BuildExportPath(baseExportPath, Join(["E01", "Ind", "F", "test"], ' '), "Bracket", true) ==
      Some(Join([baseExportPath, "test", "E01 - Bracket", "Ind F", "Electrode", "Electrode parallélisée"], PathSeparator))
    ensures BuildExportPath(baseExportPath, Join(["E01", "Ind", "F", "test"], ' '), "Bracket", false).None?
  {
    var w := ["E01", "Ind", "F", "test"];
    assert forall i :: 0 <= i < |w| ==> |w[i]| > 0 && ' ' !in w[i];
    ParseWords(w);
    assert "Ind" + " " + "F" == "Ind F";
    assert "E01" + " - " + "Bracket" == "E01 - Bracket";
  }

  /** The positions are fixed: no "Ind" marker is looked for, so a number of two words
      shifts every field. */
  lemma FixedPositionExamples()
    ensures ParseNomDocu(Join(["E06", "et", "E03", "Ind", "A", "2143"], ' ')) == Some(PathComponents("E06", "et E03", "Ind"))
  {
    var w := ["E06", "et", "E03", "Ind", "A", "2143"];
    assert forall i :: 0 <= i < |w| ==> |w[i]| > 0 && ' ' !in w[i];
    ParseWords(w);
    assert "et" + " " + "E03" == "et E03";
  }

  /** A revision without its letter leaves three words, which are refused. */
  lemma MissingLetterExample()
    ensures ParseNomDocu(Join(["E01", "Ind", "2143"], ' ')).None?
  {
    var v := ["E01", "Ind", "2143"];
    assert forall i :: 0 <= i < |v| ==> |v[i]| > 0 && ' ' !in v[i];
    ParseTooFewWords(v);
  }
}
