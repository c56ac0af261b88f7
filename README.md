# Zoning-label updater: the label-rewriting engine

This project models the core of a tool that walks the text labels of a CAD
drawing and rewrites land-parcel zoning codes. Four zoning tags exist:
Residential `R`, Commercial `C`, Terrain `T` and Terrain-Commercial `TC`.

- **Residential/Commercial** codes keep the digits written before the tag. A
  missing number becomes "1": `r` → `1R`, `5C` → `5C`.
- **Terrain** codes always get the prefix "1": `2T` → `1T`.
- **Compound labels** `X/Y` are split into two labels. The left one stays in
  place (offset factor 0.0). The right one is displaced by 1.5 times the text
  height along the label's direction.

The model has five modules:

- `Config`: the constants of `core/config.py` (the tags, the displacement
  factor, the simulation flag) as a `ZoningType` datatype and constants.
- `Strings`: the Python string operations the rules rely on, over ASCII:
  `strip()`, `upper()`, `in`, `split("/")`. Each comes with lemmas that state
  what it computes.
- `LabelLogic`: `core/logica_texto.py`. It has `NormalizeCode`
  (`normalizar_tipo`), `NormalizeTerrain` (`normalizar_terreno`) and
  `AnalyzeCombination` (`analizar_combinacion`). The regular expression
  `(\d*)(tag)` with `re.search` is modelled as a direct string function.
  `SearchIsRegexSearch` proves it equal to a leftmost, greedy match
  predicate.
- `LabelUpdater`: the per-label body of the loop in `main.py`.
  - `Process` decides one text's outcome: cleaning, "/" routing, then the
    TC > T > R > C precedence and the changed-text check.
  - `Record` does the counter increments and the drawing edits for one
    outcome.
  - `Run` is the loop. It returns the outcomes, the edits it would make to
    the drawing, and the `procesados`/`separados`/`modificados` counters.
- `LabelFixtures`: the cases of `tests/test_logica.py`, plus a few cases of
  the main loop, as lemmas.

Three behaviours of the code are worth stating, because a reader might expect
otherwise:

- `normalizar_tipo` does not fail when the tag is missing. It returns "1"+tag
  (`core/logica_texto.py:18`), as `NormalizeCodeMissingTag` states.
- `analizar_combinacion` writes the factor `1.5` inline
  (`core/logica_texto.py:59`) instead of reading `FACTOR_DESPLAZAMIENTO` from
  `core/config.py:17`. `SplitFactorIsConfigured` states that the two are
  equal.
- An empty label is not rejected. It cleans to the empty text, has no tag,
  and is left unchanged (`main.py:89`), as `EmptyLabelUntouched` states.

## Model

| member | source | states |
|---|---|---|
| `Config.TagShape` | core/config.py:19-22 | every zoning tag is one or two upper-case letters |
| `Strings.Strip` | core/logica_texto.py:11 | `str.strip()`; no contract of its own, its behaviour is stated by `StripSpec`, `LeadingSpacesSpec`, `TrailingSpacesSpec` and `StripIdempotent` |
| `Strings.Upper` | main.py:49 | `str.upper()` on ASCII, character by character; no contract of its own, stated by `StripUpperCommute` and `NormalizeCodeIgnoresCleaning` |
| `Strings.StripSpec` | core/logica_texto.py:11 | `strip()` returns a slice of the text whose cut-off ends are all whitespace and whose own ends are not whitespace |
| `Strings.LeadingSpacesSpec` | core/logica_texto.py:11 | the leading run removed by `strip()` is all whitespace and ends at the first other character |
| `Strings.TrailingSpacesSpec` | core/logica_texto.py:11 | the trailing run removed by `strip()` is all whitespace and ends at the last other character |
| `Strings.StripUpperCommute` | main.py:49 | `upper().strip()` (main loop) and `strip().upper()` (label rules) give the same text |
| `Strings.StripIdempotent` | core/logica_texto.py:11 | stripping twice is stripping once |
| `Strings.IndexFromSpec` | core/logica_texto.py:52-54 | the substring search returns the first occurrence at or after the start, and None only when there is no occurrence |
| `Strings.IndexOfSpec` | core/logica_texto.py:52-54 | the search from index 0 returns the first occurrence of the substring, or None when there is none |
| `Strings.Contains` | core/logica_texto.py:52-54 | Python's `sub in s`; no contract of its own, stated by `ContainsIff` and `IndexOfSpec` |
| `Strings.ContainsIff` | core/logica_texto.py:52-54 | `sub in s` holds exactly when `sub` occurs at some index of `s` |
| `Strings.ContainsTC` | main.py:89-94 | a text containing "TC" contains "T" and "C" |
| `Strings.SplitOn` | core/logica_texto.py:40 | `str.split(sep)`: its contract gives at least one piece; `SplitCount`, `SplitPiecesFree`, `SplitJoin` and `SplitOnce` state the rest |
| `Strings.SplitCount` | core/logica_texto.py:40-41 | `split("/")` yields one more piece than the text has "/" characters |
| `Strings.SplitPiecesFree` | core/logica_texto.py:40 | no piece of the split contains "/" |
| `Strings.SplitJoin` | core/logica_texto.py:40 | joining the pieces with "/" gives back the original text |
| `Strings.SplitOnce` | core/logica_texto.py:40-45 | a text `a/b` with "/" in neither half splits into exactly `[a, b]` |
| `LabelLogic.SearchDigitsBefore` | core/logica_texto.py:12-15 | `re.search(PATRON_BASE…)` and `match.group(1)`: the digits just before the first tag, or no match; no contract of its own, stated by `SearchIsRegexSearch` and `DigitRunStartSpec` |
| `LabelLogic.DigitRunStartSpec` | core/config.py:25 | the `(\d*)` group before the tag is all digits and cannot be extended to the left |
| `LabelLogic.SearchIsRegexSearch` | core/logica_texto.py:12-15 | the digits before the first occurrence of the tag are group 1 of the leftmost, greedy match of `(\d*)(tag)`; there is no match when the tag is absent |
| `LabelLogic.SearchMatchUnique` | core/logica_texto.py:12 | the leftmost greedy match is unique |
| `LabelLogic.NormalizeCode` | core/logica_texto.py:6-18 | `normalizar_tipo`; no contract of its own, its behaviour is stated by `NormalizeCodeShape`, `NormalizeCodeMatchesSearch`, `NormalizeCodeMissingTag`, `NormalizeCodeFixesNormalized` and `NormalizeCodeIdempotent` |
| `LabelLogic.NormalizeTerrain` | core/logica_texto.py:21-26 | `normalizar_terreno`; no contract of its own, stated by `NormalizeTerrainShape` and `PrefixKeptOrForced` |
| `LabelLogic.NormalizeCodeShape` | core/logica_texto.py:14-18 | `normalizar_tipo` always returns a non-empty digit string followed by the tag |
| `LabelLogic.NormalizeCodeMatchesSearch` | core/logica_texto.py:11-18 | on the stripped, upper-cased text: with no match the result is "1"+tag; with a match it is the digit group (or "1" when the group is empty) followed by the tag |
| `LabelLogic.NormalizeCodeMissingTag` | core/logica_texto.py:18 | a tag absent from the cleaned text gives "1"+tag, with no error |
| `LabelLogic.NormalizeCodeFixesNormalized` | core/logica_texto.py:8-9 | a label that is already digits+tag ("2R") is returned unchanged |
| `LabelLogic.NormalizeCodeIdempotent` | core/logica_texto.py:6-18 | normalizing the result again with the same tag changes nothing |
| `LabelLogic.NormalizeCodeIgnoresCleaning` | core/logica_texto.py:11 | surrounding whitespace and letter case of the input do not change the result |
| `LabelLogic.NormalizeTerrainShape` | core/logica_texto.py:21-26 | `normalizar_terreno` returns a normalized label whose prefix is "1", whatever the text |
| `LabelLogic.PrefixKeptOrForced` | core/logica_texto.py:6-26 | the same digit prefix is kept by `normalizar_tipo` and replaced by "1" by `normalizar_terreno` |
| `LabelLogic.NormalizedContains` | main.py:89-99 | a text that does not start with a digit occurs in a normalized label exactly when it occurs in the label's tag, so the tag checks of the loop see only the tag |
| `LabelLogic.NormalizedHasNoSlash` | main.py:55 | a normalized label contains no "/" |
| `LabelLogic.SplitFactorIsConfigured` | core/logica_texto.py:59 | the factor written in the resolver equals `FACTOR_DESPLAZAMIENTO` and is positive |
| `LabelLogic.ClassifyPart` | core/logica_texto.py:52-55 | the R/C test applied to each part (also lines 61-64); no contract of its own, stated by `ClassifyPartOnlyResidentialOrCommercial` and `ClassifyNormalized` |
| `LabelLogic.ClassifyPartOnlyResidentialOrCommercial` | core/logica_texto.py:52-64 | a part is classified only as R or C; R exactly when it has "R" and no "C"; C exactly when it has "C" and no "TC" (lines 54, 63); a part containing "TC", or with neither "R" nor "C", is rejected |
| `LabelLogic.ClassifyNormalized` | core/logica_texto.py:52-55 | a normalized R or C label, used as a part, is classified by its own tag |
| `LabelLogic.AnalyzeCombination` | core/logica_texto.py:29-69 | a result has exactly two entries, the first with factor 0.0 and the second with the displacement factor |
| `LabelLogic.ResolveParts` | core/logica_texto.py:47-69 | builds `resultado` from the two parts and keeps it only with two entries; no contract of its own, stated by `ResolvePartsBoth` |
| `LabelLogic.ResolvePartsBoth` | core/logica_texto.py:47-69 | there is a result exactly when both parts are classified (never a one-entry list); it holds both parts, normalized, in input order |
| `LabelLogic.CombinationNeedsOneSlash` | core/logica_texto.py:40-42 | a text with zero or several "/" is not a combination |
| `LabelLogic.CombinationOfHalves` | core/logica_texto.py:40-69 | for `a/b`, the result is (left normalized, 0.0), (right normalized, 1.5) when both halves classify, else None |
| `LabelLogic.OneSlashIsHalves` | core/logica_texto.py:40-69 | every text with exactly one "/" is `a/b` with "/" in neither half, and its result is the one above; with `CombinationNeedsOneSlash` this covers every text |
| `LabelLogic.CombinationOfNormalized` | core/logica_texto.py:52-68 | two already normalized R/C halves come out unchanged, in input order |
| `LabelUpdater.Clean` | main.py:49 | `texto_original.upper().strip()`; no contract of its own, stated by `StripUpperCommute` |
| `LabelUpdater.NormalizeSingle` | main.py:89-99 | the any() test and the TC/T/R/C if/elif chain; no contract of its own, stated by `SingleLabelFollowsTable`, `TCNeverMisread` and `NoTagUntouched` |
| `LabelUpdater.Process` | main.py:48-109 | the decision for one text; no contract of its own, stated by `SlashGoesToResolver`, `RewriteOnlyWhenChanged`, `SeparatedIff`, `ModifiedIff`, `NormalizedCodeUntouched` and `TerrainRewrittenUnlessOne` |
| `LabelUpdater.Counted` | main.py:52-109 | the `stats` increments for one outcome (lines 52, 86, 109); no contract of its own, stated by `TallyBounds`, `SeparatedCountsSplits` and `ModifiedCountsRewrites` |
| `LabelUpdater.Tally` | main.py:30-109 | the `stats` counters after the whole loop, starting from zero (line 30); no contract of its own, stated by `TallyBounds`, `SeparatedCountsSplits` and `ModifiedCountsRewrites` |
| `LabelUpdater.EditsFor` | main.py:65-103 | the drawing write for one outcome: two new labels for a split (lines 65-84), a new text string for a rewrite (lines 102-103), nothing otherwise; no contract of its own, stated by `EditsFollowOutcomes` |
| `LabelUpdater.Edits` | main.py:65-103 | all drawing writes of the loop, in text order; no contract of its own, stated by `EditsFollowOutcomes` |
| `LabelUpdater.Record` | main.py:52-109 | one more processed text; separated or modified grows by the outcome; the drawing edit is recorded only outside simulation mode |
| `LabelUpdater.Run` | main.py:45-109 | the outcome of each text is that text's decision; the counters are the tally of the outcomes; the edits are those of the outcomes, or none in simulation mode, where the counters are unchanged |
| `LabelUpdater.OutcomesAt` | main.py:45-49 | each text's outcome depends on that text alone |
| `LabelUpdater.SlashGoesToResolver` | main.py:55-58 | a text with "/" is never rewritten in place; it is split exactly when the resolver returns a result, with that result |
| `LabelUpdater.RewriteOnlyWhenChanged` | main.py:101-109 | a rewrite happens only for a text without "/" whose single-label normalization differs from the cleaned text |
| `LabelUpdater.NoTagUntouched` | main.py:89 | a text with no "/" and none of R, C, T is left unchanged |
| `LabelUpdater.SingleLabelFollowsTable` | main.py:92-99 | the if/elif chain applies the rule of the first tag present in the order TC, T, R, C |
| `LabelUpdater.TCNeverMisread` | main.py:92-93 | a text containing "TC" is normalized to "1TC", never as bare T or C |
| `LabelUpdater.NormalizedCodeUntouched` | main.py:96-109 | a text that cleans to an already normalized R or C label ("2r") is not rewritten or counted |
| `LabelUpdater.NormalizedTerrainSingle` | main.py:92-95 | a normalized Terrain label has no "/" and normalizes to "1"+tag |
| `LabelUpdater.TerrainRewrittenUnlessOne` | main.py:92-109 | a Terrain label is rewritten to "1"+tag exactly when its prefix is not already "1" |
| `LabelUpdater.SeparatedIff` | main.py:55-58 | a text is split exactly when it has "/" and the resolver accepts it |
| `LabelUpdater.TallyBounds` | main.py:52-109 | processed equals the number of texts, and separated + modified ≤ processed |
| `LabelUpdater.SeparatedCountsPositions` | main.py:86 | the separated counter is the number of split outcomes |
| `LabelUpdater.SeparatedCountsSplits` | main.py:55-86 | the separated counter is the number of texts with "/" that the resolver accepts |
| `LabelUpdater.ModifiedIff` | main.py:88-109 | a text is rewritten exactly when it has no "/", has a tag, and its normalization differs from the cleaned text |
| `LabelUpdater.ModifiedCountsPositions` | main.py:109 | the modified counter is the number of rewrite outcomes |
| `LabelUpdater.ModifiedCountsRewrites` | main.py:88-109 | the modified counter is the number of texts without "/" whose normalization changes them |
| `LabelUpdater.EditsFollowOutcomes` | main.py:65-109 | the number of edits is separated + modified; every edit points to a text and carries that text's outcome; every split or rewritten text has an edit; edits are in strictly increasing text order, so no text is edited twice |
| `LabelUpdater.EditsMatchOutcomes` | main.py:65-109 | the number of edits is separated + modified, and each edit carries the outcome of the text it points to |
| `LabelUpdater.EditsCoverChanges` | main.py:65-109 | every split or rewritten text gets an edit |
| `LabelUpdater.EditsInOrder` | main.py:45-109 | edits follow input order, one per text at most |
| `LabelFixtures.BareResidential` | tests/test_logica.py:8-12 | "R" normalizes to "1R" |
| `LabelFixtures.NumberedCommercial` | tests/test_logica.py:14-18 | "5C" stays "5C" |
| `LabelFixtures.DirtyResidential` | tests/test_logica.py:20-24 | "  r " normalizes to "1R" |
| `LabelFixtures.BareCommercial` | core/logica_texto.py:9 | "C" normalizes to "1C" |
| `LabelFixtures.TerrainForcedToOne` | tests/test_logica.py:28-38 | "2T" gives "1T" and "TC" gives "1TC" |
| `LabelFixtures.PartClassification` | core/logica_texto.py:52-55 | parts "R" and "C" classify as R and C; "T" and "Z" are rejected |
| `LabelFixtures.SplitRC` | tests/test_logica.py:42-54 | "R/C" gives [("1R", 0.0), ("1C", 1.5)] |
| `LabelFixtures.SplitCR` | tests/test_logica.py:56-64 | "C/R" gives [("1C", 0.0), ("1R", 1.5)] |
| `LabelFixtures.SplitNumbered` | tests/test_logica.py:66-72 | "2R/3C" gives [("2R", 0.0), ("3C", 1.5)] |
| `LabelFixtures.NotCombinations` | tests/test_logica.py:74-79 | "R" and "T/Z" are not combinations |
| `LabelFixtures.SplitSameType` | core/logica_texto.py:52-68 | "R/R" is accepted and gives [("1R", 0.0), ("1R", 1.5)] |
| `LabelFixtures.LowerCaseNumberedUntouched` | main.py:96-109 | in the loop, "2r" cleans to "2R", which is not rewritten |
| `LabelFixtures.TerrainRewritten` | main.py:94-109 | in the loop, "7t" is rewritten to "1T" |
| `LabelFixtures.EmptyLabelUntouched` | main.py:49-109 | the empty text is processed without error and left unchanged |

## Left out

- The drawing session (`core/cliente_acad.py`) is not part of this model. That covers the COM connection, text enumeration, undo marks, and text creation, copying and deletion. `Run` returns the edits as a list of `Edit` values instead of applying them.
- The placement geometry (`main.py:66-81`): height × factor and the cosine/sine offset along the rotation are floating-point work done by the drawing layer. The model keeps only each part's factor.
- The `errores` counter (`main.py:111-119`): only failures of drawing-session calls can raise inside the loop body. Those calls are not modelled, so the counter would always stay 0.
- Logging, the progress bar, the final printout and the `input()` pause (`core/logger.py`, `main.py:12-14, 35-43, 60-63, 105-108, 125-139`).
- The log directory creation and time-stamped log file name (`core/config.py:7-13`). The layer and entity lists `IGNORE_LAYERS` and `SUPPORTED_ENTITIES` (`core/config.py:27-31`) are read by no source file; `core/cliente_acad.py` builds its own text and layer filter.
- NormalizeCode: the tag argument is one of the four zoning types. The source passes any string into the regular expression, but it only ever passes "R" and "C". General regular-expression semantics are not modelled.
- NormalizeCode: the default argument `tipo="R"` of `normalizar_tipo` (`core/logica_texto.py:6`) is not modelled; every call passes the tag explicitly.
- NormalizeCode: `\d`, `str.upper()` and `str.strip()` are modelled on ASCII only. Other Unicode digits, case mappings and whitespace are not covered.
- AnalyzeCombination: the offset factors are the exact reals 0.0 and 1.5. Both are exactly representable as Python floats, so nothing is lost.
