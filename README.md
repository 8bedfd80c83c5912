# ExportElec — a verified model of the electrode export logic

ExportElec is a TopSolid add-in with a WPF window. It finds the electrode copies that duplication operations made in the open document. It sorts them by volume and labels them with machining stages: "Ebauche" (rough), "Demi finition" (half-finish) and "Finition" (finish), each with its spark gap in mm. The master electrode is labelled "Sans GAP". The add-in then exports each checked copy as STEP and Parasolid files into a folder named after the document.

This project models the decision logic of that add-in in Dafny and proves properties of it. Every answer from the TopSolid host is a parameter:

- `HostApi.Host` is a record of query functions.
- A query that can throw returns `Query<T>`, which is `Answer(v)` or `Threw`.
- A list that can be `null` is an `Option`.

Modules follow the program's structure:

- `Elements` is `Element.cs`: the element snapshot, `ToElements`, and the in-place volume sort.
- `Pipeline` holds the steps of `MainWindow.xaml.cs` that find the shapes of the document:
  - the operation filters, `childrenElements` and `SearchElectrode`;
  - `AddShapeToList`, over a mutable `IdList` class;
  - `GetParameterValue` and `gapString`.
- `Classifier` is `ClassifyAndDisplayElectrodes`. It returns the list-box items instead of filling the list box.
- `Naming` holds `GenerateElectrodeName`, and the parse and join of `BuildExportPath`.
- `Export` is `SelectFile_Click`: the saved labels, the index-driven re-binding, the export loop with its two counters, and the summary.
- `Strings` and `Sequences` write out the .NET string and list operations these use: `Split`, `Trim`, `Replace(p, "")`, `Split` with `RemoveEmptyEntries`, and `Where`.

Some behaviour of the code is modelled as written and proved as such:

- With three or more copies, the rough label is "Ebauche: {gap}mm", without the space. Only " mm" is stripped from labels, so that file name keeps "mm" (`Naming.NameOfUnspacedLabel`, `Naming.ClassifiedFileName`).
- Re-binding works by label. All half-finish items carry the same label, so with four or more copies they all export the last half-finish electrode under one file name (`Export.RebindClassified`, `Export.HalfFinishExportsCollide`).
- `BuildExportPath` takes tokens 0, 1+2 and 3 at fixed positions and needs at least four tokens. It does not look for an "Ind" marker. So "E06 et E03 Ind A 2143" yields number "E06", revision "et E03" and project "Ind", and "E01 Ind 2143" is rejected (`Naming.FixedPositionExamples`, `Naming.MissingLetterExample`).
- `ClassifyAndDisplayElectrodes` orders the copies with `OrderBy`, which is stable. `GetShapesSortedByVolume` uses `List.Sort`, which is not. The model proves stability only for the former.

## Model

| member | source | states |
|---|---|---|
| Elements.Element.VolumeMm3 | Element.cs:215-219 | the volume in mm³ is present exactly when the volume in m³ is |
| Elements.VolumeMm3Monotone | Element.cs:215-219 | scaling m³ to mm³ preserves the order of volumes, both ways |
| Elements.Snapshot | Element.cs:239-295 | an empty id skips every query (no shape, no volume); a shape is exactly an element whose answered type starts with "TopSolid.Kernel.DB.D3.Shapes." and whose volume query answers; the volume is present exactly for shapes; a failed name or type query gives "Nom inconnu" or "Type inconnu", and "Type inconnu" is never a shape |
| Elements.NewElement | Element.cs:58-66 | the constructor's step-by-step initialisation yields exactly the snapshot |
| Elements.ToElements | Element.cs:351-366 | a null list gives no elements; otherwise one element per id, in order, each the snapshot of its id |
| Elements.SortByVolume | Element.cs:418-429 | the in-place sort leaves a permutation of the array, non-increasing by volume when descending and non-decreasing otherwise |
| Elements.InsertInPlace | Element.cs:418-429 | one insertion step moves the next element down into the sorted prefix: the prefix one element longer is sorted and a permutation of what it held, and the cells after it are unchanged |
| Elements.GetShapesSortedByVolume | Element.cs:410-432 | the result is a permutation of exactly the elements that are shapes with a volume, ordered by volume in the requested direction |
| Pipeline.IdList.Add | MainWindow.xaml.cs:433 | `List.Add` appends one id and changes nothing else |
| Pipeline.IdList.AddRange | MainWindow.xaml.cs:352 | `List.AddRange` appends the ids in order |
| Pipeline.KeepOrNull | MainWindow.xaml.cs:238-290 | a filter step returns null exactly for a null or empty input, and otherwise keeps exactly the elements the host predicate accepts |
| Pipeline.KeepWhere | MainWindow.xaml.cs:244-251 | the filtering loop keeps the in-order subsequence of accepted elements |
| Pipeline.ListOperations | MainWindow.xaml.cs:238-258 | null on null or empty input, otherwise the in-order operations |
| Pipeline.OperationsActive | MainWindow.xaml.cs:269-290 | null on null or empty input, otherwise the in-order active operations |
| Pipeline.SearchResult | MainWindow.xaml.cs:301-324 | the type search throws exactly when some operation's type query throws |
| Pipeline.SearchOperations | MainWindow.xaml.cs:301-324 | the loop returns null on null or empty input, escapes on the first type query that throws, and otherwise keeps the operations of the given type in order |
| Pipeline.ChildrenOfMembership | MainWindow.xaml.cs:344-354 | an id is among the gathered children exactly when it is a child of one of the operations |
| Pipeline.ChildrenElements | MainWindow.xaml.cs:335-357 | a null list of operations gives null; otherwise a new list of all their children, operation by operation |
| Pipeline.FirstNamed | MainWindow.xaml.cs:377-386 | a found element is one of the list and carries the name |
| Pipeline.FirstNamedCharacterization | MainWindow.xaml.cs:377-386 | the scan returns the first element with the name, throws at the first name query that throws before it, and finds nothing when no element has the name |
| Pipeline.Located | MainWindow.xaml.cs:369-401 | a null element list, a name query that throws during the scan, or no element with the name gives `Empty`; otherwise the result is the first element of the document that carries the name |
| Pipeline.SearchElectrode | MainWindow.xaml.cs:369-401 | the search loop with its `break` returns exactly the located element |
| Pipeline.ParameterText | MainWindow.xaml.cs:1082-1102 | a null parameter list gives null; a found text belongs to a parameter that carries the name |
| Pipeline.GetParameterValue | MainWindow.xaml.cs:1082-1102 | the loop returns the text of the first parameter with the name, null when there is none, and lets a throwing name query escape |
| Pipeline.ShapeList | MainWindow.xaml.cs:413-436 | null exactly when the children are null or empty and the electrode is empty; otherwise never empty, holding the children and the non-empty electrode |
| Pipeline.AddShapeToList | MainWindow.xaml.cs:413-444 | the electrode is appended to the caller's own list in place, a new list is made only when it was null, and the list handed back is exactly `ShapeList` |
| Pipeline.CollectShapes | MainWindow.xaml.cs:118-144 | the steps run in sequence and give the collected list, or escape when the type search throws |
| Pipeline.CollectedShapeOrigin | MainWindow.xaml.cs:129-144 | every collected id is a child of an active duplication operation of the document, or the document's element named "Electrode" |
| Pipeline.GapString | MainWindow.xaml.cs:457-491 | the loop over the parameters yields exactly the gaps read; a missing parameter list, a throwing name query or a throwing `GetRealValue` on a gap parameter throws |
| Pipeline.GapsReadThrows | MainWindow.xaml.cs:469-490 | a name query that throws on any prefix makes the whole read throw |
| Pipeline.GapsReadThrowsExactly | MainWindow.xaml.cs:469-490 | the read throws exactly when some parameter's name query throws, or some gap parameter's value query throws |
| Pipeline.GapIsLastMatch | MainWindow.xaml.cs:459-490 | each gap is the value read from the last parameter whose name starts with its prefix, or "0" |
| Pipeline.PrefixesExclusive | MainWindow.xaml.cs:474-489 | a parameter name matches at most one of the three gap prefixes |
| Classifier.MasterOf | MainWindow.xaml.cs:521-530 | a master exists exactly when some shape is named "Electrode"; it is the snapshot of the last such shape |
| Classifier.CollectCandidates | MainWindow.xaml.cs:518-536 | the loop finishes exactly when every name query answers, and then gives the shapes with a volume not named "Electrode", in order, and the master |
| Classifier.InsertByVolume | MainWindow.xaml.cs:539 | an insertion step adds exactly one element |
| Classifier.InsertAscending | MainWindow.xaml.cs:539 | inserting into an ascending list keeps it ascending |
| Classifier.OrderByVolume | MainWindow.xaml.cs:539 | the order is ascending by volume and is a permutation of the input |
| Classifier.OrderByVolumeStable | MainWindow.xaml.cs:539 | copies of equal volume keep their input order |
| Classifier.StageTable | MainWindow.xaml.cs:544-605 | the labels are: none for 0 copies; "Finition" for 1; "Ebauche" then "Finition" for 2; for n ≥ 3, "Ebauche" (without the space before "mm"), n−2 × "Demi finition", then "Finition" |
| Classifier.LabelByPosition | MainWindow.xaml.cs:544-605 | the `switch` and its `for` loop give one checked item per sorted copy, labelled by position |
| Classifier.ClassifyAndDisplayElectrodes | MainWindow.xaml.cs:504-629 | nothing found for a null or empty list; an empty list box when a name query throws; otherwise the classification of the sorted candidates and the master |
| Classifier.GappedCount | MainWindow.xaml.cs:544-616 | an item is checked exactly when it is a gapped copy, so there are n of them; "Sans GAP" appears exactly when a master exists, unchecked and last |
| Classifier.StageLabelNotSansGap | MainWindow.xaml.cs:544-605 | no stage label equals "Sans GAP" |
| Classifier.GappedInVolumeOrder | MainWindow.xaml.cs:539-603 | the gapped items list the copies in non-decreasing volume, and copies of equal volume appear in input order |
| Classifier.MasterNeverGapped | MainWindow.xaml.cs:526-535 | the master is never among the gapped items |
| Strings.Split | MainWindow.xaml.cs:1120 | `Split` gives at least one piece, and no piece contains the separator |
| Strings.JoinSplit | MainWindow.xaml.cs:1120 | joining the pieces of a split gives back the string |
| Strings.SplitJoin | MainWindow.xaml.cs:1120 | splitting a join of separator-free pieces gives back the pieces |
| Strings.SplitCount | MainWindow.xaml.cs:1120-1121 | a split has one more piece than the string has separators |
| Strings.TokensShape | MainWindow.xaml.cs:1166 | every token is non-empty and holds no space |
| Strings.TokensJoin | MainWindow.xaml.cs:1166 | tokenising non-empty space-free words joined by spaces gives back the words |
| Strings.Trim | MainWindow.xaml.cs:1126-1127 | `Trim` gives the infix of the string between a blank prefix and a blank suffix, and that infix neither starts nor ends with white space |
| Strings.TrimEmpty | MainWindow.xaml.cs:1126-1127 | the trim is empty exactly when the string is blank |
| Strings.TrimLeading | MainWindow.xaml.cs:1127 | leading white space does not change the trim |
| Strings.RemoveAllTrailing | MainWindow.xaml.cs:1127 | `Replace(" mm", "")` removes a trailing unit that cannot overlap the rest |
| Strings.RemoveAllChar | MainWindow.xaml.cs:1127 | `Replace(".", "")` and `Replace(",", "")` drop every occurrence of that character |
| Strings.DropCharKeeps | MainWindow.xaml.cs:1127 | dropping one character keeps the number of occurrences of every other character |
| Naming.Abbreviation | MainWindow.xaml.cs:1130-1146 | the abbreviation throws exactly for an unknown stage shorter than two characters; an unknown stage otherwise gives its first two characters |
| Naming.GenerateElectrodeName | MainWindow.xaml.cs:1110-1150 | "Sans GAP" gives "{nomElec}-Sans-GAP"; a label that does not split into two pieces on ':' gives `nomElec`; it throws exactly when the abbreviation does; every name starts with `nomElec` |
| Naming.ColonCount | MainWindow.xaml.cs:1120-1124 | a label without exactly one ':' gives `nomElec` alone, and only a label with one ':' can throw |
| Naming.NameOfLabel | MainWindow.xaml.cs:1120-1149 | a label "{stage}: {gap} mm" with a numeric gap gives "{nomElec}{abbreviation}-G{gap without '.' and ','}" |
| Naming.NameOfUnspacedLabel | MainWindow.xaml.cs:1120-1149 | the label "{stage}: {gap}mm", without the space the three-copy rough label lacks, gives the same name followed by "mm", since `Replace(" mm", "")` finds nothing to remove |
| Naming.FinishFileName | MainWindow.xaml.cs:1120-1149 | a finish label "Finition: {gap} mm" gives "{nomElec}Fini-G{digits}" |
| Naming.HalfFinishFileName | MainWindow.xaml.cs:1120-1149 | a half-finish label gives "{nomElec}DemiFini-G{digits}" |
| Naming.RoughFileName | MainWindow.xaml.cs:1120-1149 | the rough label of two copies gives "{nomElec}Eb-G{digits}" |
| Naming.UnspacedRoughFileName | MainWindow.xaml.cs:1120-1149 | the rough label of three or more copies, "Ebauche: {gap}mm", gives "{nomElec}Eb-G{digits}mm" |
| Naming.ClassifiedFileName | MainWindow.xaml.cs:1110-1150 | the file name of the classifier's label at position k of n copies: "{nomElec}Fini-G{digits}" for the last copy or a single one, "{nomElec}Eb-G{digits}" for the first of two, "{nomElec}Eb-G{digits}mm" for the first of three or more, and "{nomElec}DemiFini-G{digits}" in between |
| Naming.RoughNameExample | MainWindow.xaml.cs:1127-1148 | "Ebauche: 0.5 mm" gives "{nomElec}Eb-G05" |
| Naming.DecimalDigits | MainWindow.xaml.cs:1127 | a gap "{a}.{b}" of two digits is a gap text whose digits are "{a}{b}" |
| Naming.ParseNomDocu | MainWindow.xaml.cs:1166-1178 | the parse fails exactly when there are fewer than four tokens; its number and project hold no space |
| Naming.BuildExportPath | MainWindow.xaml.cs:1159-1206 | a folder exactly when there are at least four tokens and the folders could be made |
| Naming.ParseWords | MainWindow.xaml.cs:1166-1178 | four or more words give number word 0, revision "word 1 word 2" and project word 3; later words are ignored |
| Naming.ParseTooFewWords | MainWindow.xaml.cs:1168-1173 | fewer than four words are rejected |
| Naming.ExportFolderExample | MainWindow.xaml.cs:1176-1190 | "E01 Ind F test" gives "E01", "Ind F", "test" and the folder {base}\test\E01 - {designation}\Ind F\Electrode\Electrode parallélisée |
| Naming.FixedPositionExamples | MainWindow.xaml.cs:1166-1178 | the fields sit at fixed positions: "E06 et E03 Ind A 2143" gives "E06", "et E03", "Ind" |
| Naming.MissingLetterExample | MainWindow.xaml.cs:1168-1173 | "E01 Ind 2143", a revision without its letter, is rejected |
| Export.SaveSelections | MainWindow.xaml.cs:786-791 | the copy keeps every item's label and checked state, in order |
| Export.FirstSansGap | MainWindow.xaml.cs:862-870 | the position of the first "Sans GAP" label, with none before it |
| Export.BoundCount | MainWindow.xaml.cs:856-872 | the loop binds the first min(n, p) labels, where p is the position of the first "Sans GAP" label; once `index` reaches a "Sans GAP" label it never advances |
| Export.Bind | MainWindow.xaml.cs:866 | a label is a key exactly when it was bound at some position |
| Export.BindLastWins | MainWindow.xaml.cs:866 | equal labels collapse onto the id bound last |
| Export.Rebinding | MainWindow.xaml.cs:856-876 | the keys are exactly the bound labels plus "Sans GAP" when a reloaded master exists; "Sans GAP" maps to the master |
| Export.Rebind | MainWindow.xaml.cs:856-876 | the index-driven loop builds exactly that dictionary |
| Export.RebindingLastWins | MainWindow.xaml.cs:856-872 | a label last bound at position i maps to the i-th reloaded electrode |
| Export.RebindClassified | MainWindow.xaml.cs:856-872 | re-binding a classified list to as many reloaded copies keeps the rough and finish items at their positions, but sends every half-finish item to the last half-finish copy |
| Export.Outcome | MainWindow.xaml.cs:882-990 | an item is attempted exactly when it is checked and has an entry; it is exported exactly when every host step and the file name succeed; an exported file name starts with `nomElec`; clean-up is attempted after a failure exactly when a representation was created |
| Export.ExportItem | MainWindow.xaml.cs:884-990 | the loop body's steps, each with its own exit on failure, give exactly that outcome |
| Export.ExportLoop | MainWindow.xaml.cs:879-991 | `exportCount` and `errorCount` count exactly the exported and the failed outcomes, item by item |
| Export.CountsCoverEligible | MainWindow.xaml.cs:882-991 | the two counters add up to the number of saved items that are checked and have an entry |
| Export.SummaryMeaning | MainWindow.xaml.cs:994-1024 | the summary is chosen in order (exports, then errors, then "nothing checked"); "nothing checked" means no checked item had an entry, and "done" means some item was exported |
| Export.FirstMissing | MainWindow.xaml.cs:755-772 | the first of "Nom_docu", "Designation" and "Nom elec" that is null or empty |
| Export.ReadDocumentParameters | MainWindow.xaml.cs:751-753 | the three parameters are read in order, and the first read that throws ends the click |
| Export.ReloadElectrodes | MainWindow.xaml.cs:819-852 | the reload gives the reloaded copies ordered by volume and the master, or throws when a host query fails |
| Export.ShownReport | MainWindow.xaml.cs:786-1031 | once the folder is built the click ends in a general error, an unprepared document or a finished export, and in no other way |
| Export.ShownReportExits | MainWindow.xaml.cs:786-1031 | after the folder: a message in the list box, a throwing preparation or a failed reload after a successful preparation is a general error; a preparation that did not make the document dirty stops the click; otherwise the saved items re-bound to the reloaded copies are exported and summarised |
| Export.ExportShown | MainWindow.xaml.cs:786-1031 | the steps after the folder, run in order with their exits, end exactly as `ShownReport` says |
| Export.ClickReport | MainWindow.xaml.cs:730-1031 | a click only finishes an export when a document is open and a destination was chosen |
| Export.ClickReportEarlyExits | MainWindow.xaml.cs:733-784 | the click stops at the first failing check: no document, a blank destination, the first missing parameter (reported by name), or a folder that cannot be built, each exactly under its condition |
| Export.ClickReportGeneralError | MainWindow.xaml.cs:730-1031 | the click ends in the general error exactly when a parameter read throws, or, with the folder built, when the list box holds a message, the preparation throws, or the reload after a successful preparation throws |
| Export.ClickReportLateExits | MainWindow.xaml.cs:786-1031 | with the folder built: an unprepared document stops the click exactly when the list box copies and the preparation answers false; the export finishes exactly when the preparation succeeds and the reload answers, and then exports the saved items re-bound to the reloaded copies into that folder, with the counted summary |
| Export.SelectFileClick | MainWindow.xaml.cs:730-1031 | the checks run in order (document, destination, parameters, folder, list box, preparation, reload) and the click ends exactly as `ClickReport` says, whose exits are proved by the three lemmas above |
| Export.HalfFinishExportsCollide | MainWindow.xaml.cs:866-928 | with four or more copies every half-finish export uses the last half-finish electrode and the same file name |

## Left out

- Host calls are not executed. Their answers are parameters: the `Host` record, `attempt(i)` for each export's steps, the `preparation` answer and the `directoryReady` flag.
  - Exceptions are modelled where the code relies on them: the name, type and volume queries, the parameter reads, `StartModification` and the rollback's `EndModification` while preparing the document, the name and value queries of the gap read, and each export step.
  - `IsOperation`, `IsActive`, `GetChildren` and `GetTextValue` are taken not to throw.
  - Host strings are taken to be non-null.
- The WPF window is not modelled: message boxes, list-box population, the folder dialog, the `explorer.exe` launch and settings persistence. `Display` and `Report` stand for what the window would show.
- `InitializeForm`, the constructor, `RechargerDocument`, `Button_Click`, `Quit_Click` with `StartConnect`, `parcourir_Click` with its UNC conversion, and App.xaml.cs are glue or UI and are not modelled. `Pipeline.CollectShapes` models the call order of their element steps.
- `Display.NothingFound` also stands for the message "Aucun élément trouvé dans le document" that `InitializeForm` writes to the list box, and for the message "Veuillez ouvrir un document dans TopSolid puis cliquer sur 'Recharger'" that `AfficherAucunDocumentOuvert` writes there. Both are strings in the list box, and casting them in the copy loop throws.
- `Path.Combine` is modelled as a join with '\\' in every case. The real call adds no separator after a part that already ends with one, so a drive root such as "D:\" gives "D:\test" where the model gives "D:\\test". It also starts over at a rooted part. Neither case is modelled.
- `Directory.Exists`, `CreateDirectory`, and an `ArgumentException` raised by `Path.Combine` on invalid path characters all fold into the `directoryReady` flag. `BuildExportPath` catches that exception and returns null, and `directoryReady == false` gives the same null.
- `Strings.StartsWith` compares character by character, like an ordinal comparison. `String.StartsWith(string)` without a `StringComparison` argument compares by the current culture, which skips ignorable characters such as U+00AD (soft hyphen); the model does not skip them. It is used by the prefix tests of Element.cs:276 and MainWindow.xaml.cs:474-485.
- Floating point is not modelled. A gap is the opaque text of `(value * 1000).ToString()`, and the lemmas about file names assume it is made of digits, signs, '.', ',' and 'E'. Volumes are `real`, and the ×1e9 scale is exact.
- `Strings.IsWhiteSpace` covers the white space of ASCII and Latin-1 only. `Char.IsWhiteSpace` also accepts other Unicode spaces.
- Elements.SortByVolume: the tie order of `List.Sort` is unspecified, so the contract states order and permutation only.
- Export.Outcome: the deletion of the representation and the clean-up after a failure only have their attempt modelled, not their effect on the document.
- Export.SelectFileClick: the document after `EnsureIsDirty` is a second set of parameters (`reloadedElements`, `reloadedHost`), unrelated to the first.
