# Lab-report extraction, modelled in Dafny

The repository is a Streamlit app that turns the text of a laboratory report
(PDF text or OCR output) into a table of results: analyte (Analit), subtype
(Tip), value (Vrijednost), unit (Jedinica), reference bounds (Ref_low,
Ref_high), reference kind (Ref_tip), the expected qualitative word (Ref_kval),
status, source (Izvor) and the line the result was read from (Linija). It
exists in three variants, `app_v2.py`, `app_v3.py` and `app_v4.py`. Each has
its own extraction rules. This project models the extraction core of all
three and proves what each one does with a line, a reference, a name and a
whole text.

Modules:

- `Wrappers`: `Option`, `Outcome`, and `FirstSome` (the first present option of a sequence).
- `Text`: Python string primitives as pure functions:
  - `strip`, `lower`, `split` (as `Words`), `splitlines`, `split('\n')` (as `SplitOn`);
  - `re.split` on a separator recogniser (`RegexSplit`);
  - `re.sub(r"\s+", " ", …)` (`CollapseSpaces`).
- `Decimal`:
  - the `NUM` grammar `[-+]?\d+(?:[.,]\d+)?`, read as an exact rational;
  - the part of `float()` the code relies on (`ParseFloat`, after `replace(",", ".")`).
- `Tokens`: hand-written recognisers for the `QUAL`, `RANGE`, `UNIT` and `NUM|QUAL` regexes of app_v2 (and app_v3's value alternation), and `re.search` as the leftmost hit (`SearchFrom`).
- `Records`:
  - the 12-column row of app_v2/app_v3;
  - the reference reading (`RefInfo`);
  - the status rule `status_from` (`StatusFrom`);
  - the generic "append the row if there is one" step (`Present`).
- `Analyte`:
  - the three-tier validity rule, generic over the two word sets;
  - the shared name preparation of app_v2/app_v3;
  - the urine-qualitative test of app_v3/app_v4.
- `Selection`: `sort_values` + `drop_duplicates(keep="first")` as `KeepBest`, which keeps, for each key, one row that no other row with that key sorts before.
- `Padded`: reading a `NUM` with white space around it.
- `AppV2`, `AppV2Parse`, `AppV2Target`: app_v2's helpers and reference reading; `auto_parse`; `targeted_parse` and `merge_auto_target`.
- `AppV3`, `AppV4`: the `LabResultParser` classes of app_v3 and app_v4. Each has a pure specification of every method, a `class` whose constructor fixes the word sets, and methods with loops proved against those specifications.

The regex line patterns (app_v2's `PAT_*`, the pattern lists of app_v3 and
app_v4) are parameters. The matcher is a function from a pattern and a line
to the groups of its matches. For app_v4 the matcher's type carries what each
regex guarantees about its groups: the analyte has no digit, the value and
bounds are `\d+[,.]?\d*`, and the unit is `\w+`. The analyte catalog of
`targeted_parse` is also a parameter, because the sidebar can extend it.

Where the code behaves surprisingly, the model follows the code:

- A raw value that is neither a number nor a qualitative word is kept as qualitative text by app_v2 (`AppV2.ReadValue`) and by app_v3 and app_v4 (`ParseValue`). It is not treated as absent.
- app_v3's qualitative branch clears the unit and then reads the cleared unit as the value, so the word is lost (`AppV3.UnitWordLost`).
- In app_v4, a unit word moved into the qualitative value is dropped from the row. The value group is always a number, and the number is what Vrijednost shows (`AppV4.MatchResultFields`).
- app_v3 tries the qualitative reference word before the range, `<` and `>` forms. The four forms exclude each other, so this order changes nothing (`AppV2.RefFormsDisjoint`).

## Model

| member | source | states |
|---|---|---|
| Text.Strip | app_v2.py:97 | `str.strip()`: the result has no white space at either end and is no longer than the input |
| Text.Lower | app_v2.py:196 | `str.lower()` character by character, same length |
| Text.SplitOn | app_v4.py:424 | `text.split('\n')`: at least one piece, and no piece contains the separator |
| Text.SplitOnJoin | app_v4.py:424 | joining the pieces with the separator gives the text back, so the split loses only the separators |
| Text.SplitPieces | app_v2.py:235 | with one-character separators, every separator match adds a piece to `re.split` |
| Decimal.NumFullMatch | app_v2.py:73 | a string is a `NUM` exactly when the greedy match at 0 covers all of it (`re.fullmatch(NUM, …)`) |
| Decimal.NoNumAt | app_v2.py:73 | when the recogniser finds no `NUM` at i, no slice starting at i is one |
| Decimal.NumParsesAsFloat | app_v2.py:68-71 | `d2f` of a `NUM` (comma or dot) is its exact value |
| Decimal.CommaToDot | app_v2.py:69 | `replace(",", ".")`: same length, commas become dots, nothing else changes |
| Padded.PaddedNumParses | app_v2.py:236 | a `NUM` padded with white space is read by `d2f(x.strip())` as its value |
| Tokens.QualLenAt | app_v2.py:74 | the `QUAL` match at i is one of Negativan, Normalan, Pozitivan, and none of them occurs when it is 0 |
| Tokens.PairLenAtParts | app_v2.py:75 | the parts of a `NUM\s*[~-]\s*NUM` match: number, white space, separator, white space, number |
| Tokens.PairOfNums | app_v2.py:270 | two `NUM`s joined by `-` are recognised as a range that covers both |
| Tokens.SearchFrom | app_v2.py:395-399 | `pattern.search`: the leftmost hit, with no hit before it; None only when there is no hit at all |
| Tokens.SearchFinds | app_v2.py:395-403 | a search finds something exactly when the token occurs, and then the leftmost, non-empty occurrence |
| Records.StatusFrom | app_v2.py:120-133 | a deviation exactly for a qualitative value that differs from the qualitative reference; no status without a value or for a number against a qualitative reference |
| Records.RangeStatus | app_v2.py:122-125 | a range: within exactly on the closed interval, below under it, above over it |
| Records.OneSidedStatus | app_v2.py:126-129 | `<h` is met strictly below h, `>l` strictly above l |
| Records.StatusMonotone | app_v2.py:120-133 | for a fixed numeric reference, a larger value never gets a lower status |
| Records.PresentMembers | app_v2.py:271-272 | a row is in the collected list exactly when some step produced it |
| Selection.KeepBest | app_v2.py:321-322 | de-duplication keeps one row per key, loses no key, and keeps only rows of the input |
| Selection.KeepBestMinimal | app_v2.py:321-322 | for a total preorder, the kept row of each key sorts no later than any input row with that key |
| Analyte.SkipWordRejects | app_v2.py:198-201 | a name containing a skip word (in any case) is invalid, whatever else it contains |
| Analyte.KnownTermAccepts | app_v2.py:203-206 | with no skip word, a name containing a known term is valid |
| Analyte.StructuralAccepts | app_v2.py:208-213 | with neither, one to three words of three or more characters pass |
| Analyte.PrepareName | app_v2.py:98-101 | strip, drop one `k-`/`s-` prefix, `aps.` to `aps`, collapse white space: the result is single-spaced |
| Analyte.LabPrefixRemovedOnce | app_v2.py:99-100 | the lab prefix is removed once; a second prefix stays |
| Analyte.NoLabPrefixKept | app_v2.py:98-101 | a name without the prefix is only normalised |
| Analyte.CollapsedStrip | app_v4.py:329 | collapsing white space and stripping gives a single-spaced string |
| Analyte.NitritiQualitative | app_v4.py:283-296 | "Nitriti" anywhere in the name, in any case, makes a result qualitative |
| AppV2.NormalizeUnits | app_v2.py:79-84 | `""` for `""`; the result has no white space, no `^` and no micro sign, and holds only characters of the input, `*` and `u` |
| AppV2.NormalizeUnitsIdempotent | app_v2.py:79-84 | normalising twice is normalising once |
| AppV2.NameWithKIsValid | app_v2.py:169-215 | since "k" is a known term, a name containing k or K and no skip word is valid |
| AppV2.SkipWordBeatsKnownTerm | app_v2.py:198-206 | the skip check runs first: a known term never rescues a name with a skip word |
| AppV2.SpecificGravityNeverValid | app_v2.py:169-201 | the known term "specifina težina" can never make a name valid, because both its words are skip words |
| AppV2.StripUnitTails | app_v2.py:108-109 | the unit-tail loop ends with no `UNIT_TAIL` match left and never lengthens the name |
| AppV2.StripUnitTailsNoTail | app_v2.py:108-109 | a name without a unit tail is left as it is |
| AppV2.StripUnitTailsPrefix | app_v2.py:108-109 | on a single-spaced name, tail removal only cuts the name short |
| AppV2.CleanName | app_v2.py:97-118 | the cleaned name never ends in a unit tail |
| AppV2.CleanNameShape | app_v2.py:97-118 | the cleaned name is single-spaced and is the prepared name cut short |
| AppV2.CleanNameSubtype | app_v2.py:102-111 | Tip "aps" exactly when the name ends in " aps" once "%" is gone (the independent `if`s let "aps" override "%"); "%" when the name ended in "%" or the unit hint is "%"; else none |
| AppV2.UnitHintOnlyWithoutTip | app_v2.py:110-111 | the unit hint is consulted only when the name gave no Tip |
| AppV2.CleanNameAndType | app_v2.py:97-118 | the loop-based method returns the pair `CleanName` gives |
| AppV2.RefFormsDisjoint | app_v2.py:234-242 | the four reference forms exclude each other |
| AppV2.InterpretRef | app_v2.py:229-242 | range exactly for `a-b`/`a~b` with both bounds, `<` with only the upper bound, `>` with only the lower, qual with the word itself, otherwise "none" with nothing set |
| AppV2.RangeReads | app_v2.py:234-236 | a range reads as the values of its two numbers |
| AppV2.BlankRefIsNone | app_v2.py:232 | an empty or blank reference is "none" with every bound null |
| AppV2.AsWrittenCrashesExactly | app_v2.py:234-236 | the code as written raises exactly on the ranges with a minus-signed number |
| AppV2.AsWrittenAgrees | app_v2.py:232-242 | wherever it does not raise, the code as written gives the intended reading |
| AppV2.MinusTwoToTwo | app_v2.py:235 | "-2-2" raises as written; the intended reading is the range from -2 to 2 |
| AppV2.JoinedRangeReads | app_v2.py:270 | MojLab's `f"{low}-{high}"` reads back as the two numbers it was built from |
| AppV2.JoinedRangeCrashes | app_v2.py:270 | as written, MojLab's range raises exactly when one of its numbers is negative |
| AppV2.ReadValue | app_v2.py:221-222 | a number exactly when the raw value is a whole `NUM`, with its value; otherwise the non-empty raw text; never both |
| AppV2.AutoRow | app_v2.py:217-253 | no row unless the cleaned name is valid; otherwise the cleaned name and Tip, the value, the normalised unit, the reference reading, the status, source "auto" and the line |
| AppV2.AutoRowAsWrittenAgrees | app_v2.py:217-253 | as written, the code raises exactly for a valid name with a minus-signed range, and otherwise gives `AutoRow` |
| AppV2Parse.OneCandidatePerLine | app_v2.py:257-262 | the column split never fires: a blank line gives no candidate, and any other line gives exactly one, single-spaced |
| AppV2Parse.BlankTextEmptyTable | app_v2.py:315-316 | an empty or blank text gives the empty table |
| AppV2Parse.RowsOfLinesGood | app_v2.py:264-313 | every collected row names a valid analyte, has source "auto" and carries one of the lines |
| AppV2Parse.CollectLines | app_v2.py:256-262 | the first loop collects the candidate lines in order |
| AppV2Parse.AppendMatchRows | app_v2.py:275-279 | a `finditer` loop appends the rows of the valid matches in order |
| AppV2Parse.AppendLineRows | app_v2.py:266-313 | the patterns are applied to a line in their fixed order, and each match's row is appended |
| AppV2Parse.AutoLeTotal | app_v2.py:320-321 | the sort order (priority, Ref_low, Ref_high, nulls last) is a total preorder |
| AppV2Parse.AutoParse | app_v2.py:255-325 | the table is the de-duplicated collection: one row per (Analit, Tip), every key kept, only collected rows |
| AppV2Parse.MatchRowsAsWrittenAgrees | app_v2.py:275-279 | as written, the matches of one pattern raise exactly when one of them has a valid name and a minus-signed range, and otherwise give `MatchRows` |
| AppV2Parse.LineRowsAsWrittenAgrees | app_v2.py:267-313 | as written, a line raises exactly when one of its patterns does, and otherwise gives its rows in pattern order |
| AppV2Parse.RowsOfLinesAsWrittenAgrees | app_v2.py:265-313 | as written, the line loop raises exactly when some line does, and otherwise collects `RowsOfLines` |
| AppV2Parse.AutoParseAsWrittenAgrees | app_v2.py:255-325 | `auto_parse` as written raises exactly when some candidate line has a raising match, and otherwise returns the table `AutoParse` returns |
| AppV2Parse.AutoTableBest | app_v2.py:319-322 | the kept row of each key sorts no later than any row with that key, and every kept row is valid and from "auto" |
| AppV2Target.AliasLenAtFirst | app_v2.py:377 | the alias alternation matches at i exactly when some alias occurs there, and then with the first such alias in list order |
| AppV2Target.AliasAtIgnoresCase | app_v2.py:377 | an alias matches exactly where the text equals it up to case |
| AppV2Target.NextHit | app_v2.py:378 | the next `finditer` match is the leftmost match position at or after i |
| AppV2Target.AliasHits | app_v2.py:378 | `finditer` spans are within the text, in order, and do not overlap |
| AppV2Target.AliasHitsCover | app_v2.py:378 | no occurrence is skipped: each lies inside a reported span |
| AppV2Target.KalijumMatchesEveryK | app_v2.py:329-354 | with no word boundaries, Kalijum's alias "K" matches every k and K, inside words too |
| AppV2Target.WindowsClamped | app_v2.py:380-391 | the right and left windows are up to 120 characters each, cut only at the ends of the text, and the window is left + span + right |
| AppV2Target.FirstFoundFirst | app_v2.py:393-399 | a field is found when some side has it, and then it is the match in the first such side, in the order right, left, window |
| AppV2Target.SearchSides | app_v2.py:385-399 | the side loop finds each field independently in the first side that has it |
| AppV2Target.TargetRowWhen | app_v2.py:401-439 | with a minus-signed range read as intended (the code as written raises there, see `TargetRowAsWrittenAgrees`): a row exactly when the cleaned name is non-empty and some side has a value; its Linija is the alias span, Izvor "ciljani", and the reference and status as in `interpret_auto_match` |
| AppV2Target.ReadHit | app_v2.py:379-439 | the body of the `finditer` loop computes that row, with a minus-signed range read as intended |
| AppV2Target.RowFromAsWrittenAgrees | app_v2.py:405-439 | as written, reading the fields raises exactly when the stripped reference is a minus-signed range, whatever the name and the value; otherwise it gives `RowFrom` |
| AppV2Target.TargetRowAsWrittenAgrees | app_v2.py:379-439 | as written, a span raises exactly when its reference field is a minus-signed range, and otherwise gives `TargetRow` |
| AppV2Target.NoValueStillRaises | app_v2.py:414-418 | with no value and the reference "-2-2", the code as written raises where the intended reading gives no row |
| AppV2Target.HitRowsAsWrittenAgrees | app_v2.py:378-439 | as written, the first j spans of an entry raise exactly when one of them does, and otherwise give their rows in order |
| AppV2Target.EntryRowsAsWrittenAgrees | app_v2.py:378-439 | as written, an entry's spans raise exactly when one of them does, and otherwise give `EntryRows` |
| AppV2Target.CatalogRowsAsWrittenAgrees | app_v2.py:372-439 | as written, the catalog loop raises exactly when some entry does, and otherwise collects `CatalogRows` |
| AppV2Target.InfoScoreOfRef | app_v2.py:446 | `_info_score` is 3 for a range, 2 for a one-sided bound, and 1 otherwise |
| AppV2Target.TargetedParse | app_v2.py:370-449 | per catalog entry and span, in order, the rows are collected; then one row per Analit, every Analit kept, only collected rows; this is the intended reading, and the code as written raises as `TargetedParseAsWrittenAgrees` states |
| AppV2Target.TargetedParseAsWrittenAgrees | app_v2.py:369-449 | `targeted_parse` as written raises exactly when some span of some entry has a minus-signed range as its reference field, and otherwise returns the table `TargetedParse` returns |
| AppV2Target.TargetTableGood | app_v2.py:428-439 | every kept row has a value, a non-empty name, source "ciljani" and an alias of the catalog as Linija |
| AppV2Target.TargetTableBest | app_v2.py:445-447 | one row per Analit, with the highest `_info_score` among the rows of that Analit |
| AppV2Target.AbsentRows | app_v2.py:473 | the auto rows whose (Analit, Tip) is not among the targeted keys, and only those |
| AppV2Target.MergeKeepsTarget | app_v2.py:471-474 | every targeted row is kept, first and in order |
| AppV2Target.MergeAutoRow | app_v2.py:473 | an auto row is added exactly when its (Analit, Tip) is absent from the targeted rows |
| AppV2Target.MergeEmptySide | app_v2.py:475-478 | if either side is empty, the result is the other side |
| AppV2Target.MergeUniform | app_v2.py:469-478 | the three branches agree: targeted rows plus the unmatched auto rows |
| AppV2Target.MergeAutoTarget | app_v2.py:466-479 | the merge of the auto table and the targeted table of the text, with minus-signed ranges read as intended |
| AppV2Target.MergeAutoTargetAsWrittenAgrees | app_v2.py:466-479 | `merge_auto_target` as written raises exactly when `auto_parse` or `targeted_parse` does, and otherwise returns that merge |
| AppV3.ParseValue | app_v3.py:250-267 | `(None, None)` for `""`; a `QUAL` word gives `(None, s)`; a number gives its value; otherwise `(None, s)`; never both |
| AppV3.QualIsNoFloat | app_v3.py:258-265 | a `QUAL` word is never read by `float()` |
| AppV3.ParseReference | app_v3.py:283-314 | "none" for `""`; otherwise app_v2's reading of the stripped text (qualitative word first, then range, `<`, `>`) |
| AppV3.ReferenceCrashesExactly | app_v3.py:283-314 | the code as written raises exactly on minus-signed ranges, and otherwise agrees with `ParseReference` |
| AppV3.MinusTwoToTwo | app_v3.py:295-300 | "-2-2" raises as written; the intended reading is the range from -2 to 2 |
| AppV3.CalculateStatus | app_v3.py:316-338 | the status is app_v2's `status_from` applied to the value the row shows |
| AppV3.CleanAnalyteNameShape | app_v3.py:340-361 | Tip "%" exactly when the prepared name ends in "%", "aps" exactly when it does not and ends in " aps" (`if`/`elif`); the name is the prepared one cut short |
| AppV3.PercentBeforeAps | app_v3.py:350-358 | for a name ending in " aps%", app_v3 gives Tip "%" where app_v2 gives "aps" |
| AppV3.MatchRowFields | app_v3.py:385-428 | a row exactly when the stripped analyte is valid, with cleaned name and Tip, reference reading, status, source "smart", no flag, and the line |
| AppV3.UnitWordLost | app_v3.py:400-404 | the qualitative branch loses the word: the value and the unit both become `""`, and against a qualitative reference the status is "odstupanje" |
| AppV3.LineRowFirst | app_v3.py:363-430 | a blank line gives None; the row is that of the first pattern that matches with a valid analyte, since an invalid one moves on |
| AppV3.ColumnsClean | app_v3.py:443-448 | every column piece is stripped and not blank |
| AppV3.LinesClean | app_v3.py:437-448 | every line handed to `parse_line` is stripped and not blank |
| AppV3.SingleColumn | app_v3.py:444-448 | a line with no run of two white-space characters is handed over whole |
| AppV3.BlankTextNoRows | app_v3.py:437-457 | an empty or blank text gives no lines and the empty table |
| AppV3.SmartTableBest | app_v3.py:461-465 | one row per Analit, with the largest non-null reference count and then a unit |
| AppV3.SmartTableRows | app_v3.py:450-465 | every kept row is a `parse_line` row of one of the lines |
| AppV3.LabResultParser.constructor | app_v3.py:195-223 | the word sets are app_v2's known and skip words |
| AppV3.LabResultParser.RowOfMatch | app_v3.py:385-428 | the loop body computes the row `MatchRow` specifies |
| AppV3.LabResultParser.ParseLine | app_v3.py:363-430 | the pattern loop returns `LineRow` |
| AppV3.LabResultParser.ParseText | app_v3.py:432-468 | the table is the de-duplicated collection: unique Analit, every Analit kept, only collected rows |
| AppV3.SkipWordFirst | app_v3.py:225-248 | for the parser `__init__` builds, a name mentioning a skip word is invalid |
| AppV3.NameWithKIsValid | app_v3.py:225-248 | for the parser `__init__` builds, a name containing k and no skip word is valid |
| AppV4.DecReads | app_v4.py:269-281 | a `\d+[,.]?\d*` number is read by `float()` as its value |
| AppV4.DecNonNegative | app_v4.py:356-363 | such a number is never negative |
| AppV4.ParseValue | app_v4.py:265-281 | `(None, None)` for `""`; a qualitative word (any case) gives `(None, s)`; otherwise `(number, None)` when `float()` reads the text, and `(None, s)` when it does not |
| AppV4.DecValueRead | app_v4.py:392-393 | a value group is always read as its number |
| AppV4.BlankValueIsText | app_v4.py:265-281 | a white-space value is not empty, so it becomes the qualitative value `""` |
| AppV4.ParseReference | app_v4.py:298-321 | `(None, None, None)` for `""`; the unit is always None; the bounds are both set or both absent |
| AppV4.ReferenceForms | app_v4.py:307-322 | the first `a-b` anywhere, else the first `a do b`, gives its two values; no match gives nothing |
| AppV4.ThirdPatternIdle | app_v4.py:306-321 | the third pattern is reached only when the first did not match, and then it cannot match either |
| AppV4.ReferenceUnsigned | app_v4.py:305-318 | the bounds read are never negative ("-2 - 2" gives 2 and 2) |
| AppV4.CleanAnalyteName | app_v4.py:323-335 | `""` for `""`; the result is stripped |
| AppV4.CutsNone | app_v4.py:332-333 | neither filler substitution removes anything from a name with no filler word at either end |
| AppV4.FillerWrapped | app_v4.py:332-333 | a filler word, in any case, at each end is removed once, leaving the core |
| AppV4.KeptWithoutFiller | app_v4.py:329-335 | the cleaned name of a name without filler words is its collapsed, stripped form |
| AppV4.FillersDropped | app_v4.py:323-335 | "Rezultat glukoza test" is cleaned to "glukoza" |
| AppV4.FillerBeforeValidity | app_v4.py:385-390 | cleaning comes first: the raw "Rezultat glukoza test" would be rejected, but the cleaned "glukoza" is tested |
| AppV4.CalculateStatus | app_v4.py:337-344 | "Sniženo" exactly below the lower bound, "Normalno" exactly between the bounds (inclusive), "Povišeno" otherwise, never "Kvalitativno" |
| AppV4.StatusAgreesWithRange | app_v4.py:337-344 | on a non-empty interval it agrees with app_v2's range status |
| AppV4.MatchResultFields | app_v4.py:365-415 | a row exactly when the cleaned analyte is valid; the value is the number; bounds exactly for pattern 1; range status there; otherwise "Kvalitativno" exactly when a unit word was moved; the moved word leaves the unit |
| AppV4.LineResultFirst | app_v4.py:346-417 | a line shorter than 3 once stripped gives None; the first pattern that matches decides, and an invalid analyte gives None with no fall-back |
| AppV4.LineResultWellFormed | app_v4.py:346-417 | every row has a numeric value, bounds together, and a range status only with bounds |
| AppV4.ResultTableBest | app_v4.py:438-450 | one row per Analit, with the most non-null bounds and then a unit |
| AppV4.ResultTableRows | app_v4.py:424-450 | every kept row is the row of one line of `text.split('\n')`, and is well formed |
| AppV4.EmptyTextEmptyTable | app_v4.py:421-422 | an empty text gives the empty table |
| AppV4.LabResultParser.constructor | app_v4.py:207-238 | the word sets are app_v4's known and skip words |
| AppV4.LabResultParser.ResultOfMatch | app_v4.py:365-415 | the loop body, with its reassignments of unit, qualitative value and status, computes `MatchResult` |
| AppV4.LabResultParser.ParseLine | app_v4.py:346-417 | the pattern loop returns `LineResult` |
| AppV4.LabResultParser.ParseText | app_v4.py:419-452 | the table is the de-duplicated collection: unique Analit, every Analit kept, only collected rows |
| AppV4.NormalanDatumRejected | app_v4.py:240-263 | for the parser `__init__` builds, a name containing "normalan" or "datum" is invalid |

## Left out

- The Streamlit interface, sidebar, metrics, charts, exports and the command-line mode. They are presentation and I/O.
- PDF text extraction and OCR. They are foreign libraries and file I/O; the text is an input string.
- The md5-keyed caching. It is memoisation only.
- The sidebar's additions to `ANALYTE_CATALOG`: the catalog is a parameter of `AppV2Target.TargetedParse`.
- The line regexes (app_v2's `PAT_*`, app_v3 and app_v4's pattern lists). These are matcher parameters, not a regex engine. The app_v4 matcher promises only what its regexes guarantee about the groups. That the first pattern matches whenever the second does, for example, is not modelled.
- The token regexes `NUM`, `QUAL`, `UNIT`, `RANGE`, app_v3's value and unit alternations, and app_v4's `\d+[,.]?\d*`. These are hand-written recognisers that read the greedy match. For these grammars no backtracking can change which text a pattern built on them matches.
- IEEE floats. Numbers are exact rationals. `float()` is modelled on optional sign, digits, optional point and digits; `inf`, `nan`, exponents, underscores and surrounding white space are outside it.
- pandas row order. The de-duplication is modelled as keeping, for each key, a row no other row with that key sorts before. Which of several equally ranked rows is kept, and the final row order, are not modelled.
- Text.Lower: handles ASCII, Latin-1 capitals and Č Ć Š Đ Ž. Other Unicode case mappings are not modelled, and `re.IGNORECASE` is modelled as lower-casing both sides.
- Decimal.IsDigit: digits are ASCII `0`–`9`. The other Unicode decimal digits, which `\d` and `float()` accept, are not modelled.
- AppV4.IsWordChar: `\w` is modelled on ASCII, Latin-1, Latin Extended-A/B and the micro signs. Other Unicode letters are not modelled.
- The `.strip()` on a missing optional group in app_v3 (app_v3.py:387-390) is not reproduced. A missing group is `""`.
- app_v2's dead reassignment of `unit_guess` in `clean_name_and_type` has no effect, and so is not modelled.
- app_v3's and app_v4's `unit_pattern`, and app_v4's `num_pattern`, `qual_pattern` and `range_pattern` fields, are stored by `__init__` but not used by the modelled methods. They are not fields of the classes.
- AppV4.CleanAnalyteName: its ensures states only the empty case and strippedness. The removal of filler words is stated by `CutsNone`, `FillerWrapped` and `KeptWithoutFiller`.

## Findings

| source | as written | input that shows it | evidently intended | confidence | as-written member | corrected member |
|---|---|---|---|---|---|---|
| app_v2.py:234-236 | a range is split with `re.split(r"[~\-]", …)` into exactly two pieces, so a minus sign on a bound makes three pieces and the unpack raises | "-2-2" | the range from -2 to 2, which the `NUM\s*[~\-]\s*NUM` check accepted | not executed | AppV2.InterpretRefAsWritten | AppV2.InterpretRef |
| app_v2.py:416-418 | `targeted_parse` splits a range the same way, and does so before it checks the name and the value. So a minus-signed range next to any alias span raises, even where no row would be kept, and `merge_auto_target` raises with it | the text "Kalij 4.1 mmol/L -2-2"; for the fields alone, no value and the reference "-2-2" | the range from -2 to 2 | not executed | AppV2Target.TargetRowAsWritten | AppV2Target.TargetRow |
| app_v3.py:295-300 | the same split is read as `parts[0]` and `parts[1]`, so a leading minus makes the first piece empty and `float("")` raises | "-2-2" | the range from -2 to 2 | not executed | AppV3.ParseReferenceAsWritten | AppV3.ParseReference |

