# Invoice field extraction, modelled in Dafny

This project models the rule-based field extraction of an invoice
document-AI pipeline. A text-recognition engine produces an ordered list of
lines for one scanned invoice of a tractor sale. Rules then pick four business
fields from those lines:

- the dealer name,
- the tractor model,
- the horse power,
- the asset cost.

A second component scores the result by which fields, and which visual
markers (stamp, signature), were found.

Modules:

- `Text` (`text.dfy`): the Python string operations the rules rely on, for
  ASCII text. These are `upper`, `isdigit`, `strip`, `replace`, `int()` on
  a digit run, and a leftmost substring search, which is what both the `in`
  test and `split(p)[0]` need.
- `Selection` (`selection.dfy`): the list idioms the rules use. These are a
  filtered list of texts; the first element of a stable sort by length
  (`sort(key=len)[0]`); `max(key=len)`; "first line that yields a value";
  gathering values over all lines; and the maximum of a list.
- `ExtractFields` (`fields.dfy`): `clean_text`, `clean_model_name`,
  `extract_model_name`, `extract_horse_power`, `extract_asset_cost` and
  `extract_dealer_name`, with their keyword tables.
  - Each extractor is a specification function over the line list.
  - A method with the source's loop(s) is proved equal to that function.
  - Lemmas state what the function selects, in terms of the individual lines.
- `Confidence` (`confidence.dfy`): `compute_confidence`, in integer
  hundredths. It is a method with the source's chain of `if` deductions,
  proved equal to a score function. Lemmas cover that function's bounds,
  monotonicity, exact per-field deductions and order independence.
- `Scenarios` (`scenarios.dfy`): concrete lines and what the rules make of
  them.

Modelling choices:

- A recognised line is `Line(text)`. The polygon and the recognition
  confidence are not read by the rules.
- Presence follows Python truthiness:
  - a name is present when it is not `None` and not `""`;
  - a number is present when it is not `None` and not `0`.
- A score of 100 stands for 1.00. Every weight is a whole number of
  hundredths, so `round(max(conf, 0.0), 2)` is exactly
  `max(100 - deductions, 0)` hundredths.
- The regular expressions are written out as the matcher runs them:
  - `(\d{2,3})HP`: the leftmost match; three digits are tried before two.
  - `H(\d)`: the leftmost match.
  - `findall(\d{5,7})`: greedy, up to seven digits, resuming after each
    match.

Three consequences of the code that are easy to miss:

- **`clean_model_name` is not idempotent.**
  - `"MO:-DEL"` cleans to `"MODEL"`, which cleans to `""`, which cleans to
    `None`.
  - `"::--"` cleans to `":-"`, so `":-"` can survive the cleaning.
  - `Scenarios.CleanModelNotIdempotent` and
    `Scenarios.CleanModelKeepsColonDash` state both.
- **Asset-cost example.** In a corpus of `"45,000"`, `"350,000"` and
  `"1,20,00,000"`:
  - the last line becomes the eight digits `"12000000"`;
  - `findall` takes its first seven digits, `"1200000"`, which is in range;
  - so the result is 1200000 (`Scenarios.AssetCostExample`).
- **Dealer example.** For `"SWARAJ TRACTORS PVT LTD, PUNE ROAD"`:
  - the cut falls after `" LTD"`, the first suffix in list order that
    occurs, although `" PVT"` stands earlier in the line;
  - the result is `"SWARAJ TRACTORS PVT LTD"` (`Scenarios.CutSwarajLine`).

## Model

| member | source | states |
|---|---|---|
| ExtractFields.CleanText | utils/extract_fields.py:3-4 | the result equals the upper-cased text with every comma and every space dropped; it holds no comma, no space and no lower-case letter |
| ExtractFields.CleanModelName | utils/extract_fields.py:7-17 | the loop over the noise list computes `CleanModel`: `None` for a missing or empty name, otherwise the upper-cased name with the four noise strings removed in order, then stripped |
| ExtractFields.CleanModel | utils/extract_fields.py:7-17 | what `clean_model_name` returns; a result is never longer than the given name, since the removals and the strip only take characters away (its shape is `CleanModelShape`) |
| ExtractFields.Noise | utils/extract_fields.py:11 | definition of the four noise strings, word for word and in the order they are removed |
| ExtractFields.RemoveEach | utils/extract_fields.py:14-15 | removing noise strings keeps an upper-case string upper case |
| ExtractFields.CleanModelShape | utils/extract_fields.py:7-17 | the result is `None` exactly when the input is `None` or `""`; otherwise it is upper case and has no white space at either end |
| Scenarios.CleanModelNotIdempotent | utils/extract_fields.py:7-17 | `"MO:-DEL"` cleans to `"MODEL"`, `"MODEL"` to `""`, and `""` to `None` |
| Scenarios.CleanSplitModel | utils/extract_fields.py:11-17 | removing `":-"` from `"MO:-DEL"` assembles `"MODEL"`, which the earlier `"MODEL"` removal has already passed |
| Scenarios.CleanPlainModel | utils/extract_fields.py:11-17 | `"MODEL"` cleans to the empty string |
| Scenarios.CleanModelKeepsColonDash | utils/extract_fields.py:11-17 | `"::--"` cleans to `":-"`: one left-to-right removal pass can leave the noise string behind |
| ExtractFields.IsModelCandidate | utils/extract_fields.py:45-56 | definition of the loop's filter on an upper-cased line: no negative keyword, a digit, a positive keyword and more than 8 characters (characterised by `ModelNameQualifies`) |
| ExtractFields.NegativeKeywords | utils/extract_fields.py:28-32 | definition of the ten negative keywords, word for word |
| ExtractFields.PositiveKeywords | utils/extract_fields.py:34-38 | definition of the thirteen positive keywords, word for word |
| ExtractFields.ModelName | utils/extract_fields.py:40-63 | definition of what `extract_model_name` returns: `None` when no line qualifies, else the first element of the candidates sorted by length (characterised by `ModelNameSelects`) |
| ExtractFields.ModelText | utils/extract_fields.py:43 | definition of the text the model rule reads from a line: `r["text"].upper()` |
| ExtractFields.ExtractModelName | utils/extract_fields.py:20-63 | the loop with its three `continue`/`if` filters and the final stable sort by length computes `ModelName` |
| ExtractFields.ModelNameSelects | utils/extract_fields.py:40-63 | no model name exactly when no line qualifies; otherwise the upper-cased text of a qualifying line that no qualifying line is shorter than and that every earlier qualifying line is longer than (the first of the shortest) |
| ExtractFields.ModelNameQualifies | utils/extract_fields.py:42-56 | the chosen model name is upper case, longer than 8 characters, and has a digit and a positive keyword but no negative keyword |
| ExtractFields.HpText | utils/extract_fields.py:69-72 | definition of the pass-1 text: upper-cased, every `"O"` replaced by `"0"`, every space dropped |
| ExtractFields.HpMatchAt | utils/extract_fields.py:74-76 | a match of `(\d{2,3})HP` starting at an index captures a number below 1000, with "HP" right after its two or three digits |
| ExtractFields.HpSearchFrom | utils/extract_fields.py:74 | `re.search(r"(\d{2,3})HP")` finds the leftmost start index at which a match begins, and none exists before it |
| ExtractFields.LineHp | utils/extract_fields.py:69-78 | pass 1 takes from a line only a value in [20, 120] |
| ExtractFields.FallbackText | utils/extract_fields.py:82 | definition of the pass-2 text: upper-cased and every space dropped, with no `O`→`0` step |
| ExtractFields.HDigitAt | utils/extract_fields.py:83 | definition of a match of `H(\d)` starting at one index: an `"H"` followed by a decimal digit |
| ExtractFields.HDigitSearchFrom | utils/extract_fields.py:83 | `re.search(r"H(\d)")` finds the leftmost "H" followed by a digit |
| ExtractFields.LineFallbackDigit | utils/extract_fields.py:82-85 | pass 2 takes a single digit 0..9 from a line |
| ExtractFields.HorsePower | utils/extract_fields.py:66-87 | a horse power, when there is one, lies in [20, 120] |
| ExtractFields.ExtractHorsePower | utils/extract_fields.py:66-87 | the two loops with early return compute `HorsePower`: the first pass-1 value, else 40 plus the first pass-2 digit, else none |
| ExtractFields.HorsePowerAbsent | utils/extract_fields.py:66-87 | no horse power exactly when no line yields a pass-1 value and no line has an "H" followed by a digit |
| ExtractFields.HorsePowerFirstLine | utils/extract_fields.py:68-78 | the first line with a pass-1 value decides the result, and later lines are never consulted |
| ExtractFields.HorsePowerFallback | utils/extract_fields.py:80-87 | when pass 1 finds nothing, a result is 40 plus the digit of the first line with "H" and a digit, so it lies in [40, 49] |
| Scenarios.HpOf45 | utils/extract_fields.py:66-78 | `"45HP TRACTOR"` gives 45 |
| Scenarios.HpOfH8 | utils/extract_fields.py:66-87 | `"H8 MODEL"` gives 48 through the fallback |
| Scenarios.NoHpInH8 | utils/extract_fields.py:69-78 | `"H8 MODEL"` has no pass-1 value: its text holds no `"P"` |
| Scenarios.LeadingOutOfRangeHp | utils/extract_fields.py:66-87 | a one-line corpus whose leftmost `(\d{2,3})HP` match, in the pass-1 text, is out of [20, 120] and whose line has no pass-2 `H(\d)` match gives no value, whatever later matches the line holds |
| Scenarios.PlainOutOfRangeHp | utils/extract_fields.py:66-87 | plain upper-case text without spaces or "O" that begins with an out-of-range `NNNHP` and has no "H" followed by a digit meets the conditions of `LeadingOutOfRangeHp` |
| Scenarios.HpLeftmostOnly | utils/extract_fields.py:74-78 | `"145HP45HP"` gives no value: only the leftmost match of a line is checked against the range |
| Scenarios.NoPNoHp | utils/extract_fields.py:69-78 | a line without a "P" yields nothing in pass 1 |
| ExtractFields.CostText | utils/extract_fields.py:99 | definition of the cost text of a line: every comma and every space dropped, no upper-casing |
| ExtractFields.DigitRun | utils/extract_fields.py:100 | the digits counted from an index are all digits, at most the cap, and stop at a non-digit or the end when under the cap |
| ExtractFields.FindCostRuns | utils/extract_fields.py:100 | every run `re.findall(r"\d{5,7}")` yields has 5 to 7 characters, all digits |
| ExtractFields.InRangeCosts | utils/extract_fields.py:101-104 | every kept value lies in [50000, 2000000] |
| ExtractFields.InRangeCostsMembers | utils/extract_fields.py:101-104 | a value is kept exactly when it is in range and is the `int()` of one of the runs |
| ExtractFields.CostValues | utils/extract_fields.py:99-104 | the values one line contributes to `numbers`: the `int()` of each `\d{5,7}` run, kept only when in [50000, 2000000] |
| ExtractFields.AssetCost | utils/extract_fields.py:106-109 | an asset cost, when there is one, lies in [50000, 2000000] |
| ExtractFields.ExtractAssetCost | utils/extract_fields.py:90-109 | the nested loops that accumulate `numbers`, followed by `max`, compute `AssetCost` |
| ExtractFields.AssetCostSelects | utils/extract_fields.py:96-109 | no cost exactly when no line holds an in-range value; otherwise the cost is an in-range value of some line and no line holds a larger one |
| Scenarios.RunsOf12000000 | utils/extract_fields.py:100 | the eight digits `"12000000"` yield the single run `"1200000"` |
| Scenarios.SingleRun | utils/extract_fields.py:100 | a text of 5 to 7 digits yields itself as its only run |
| Scenarios.CostsOf45000 | utils/extract_fields.py:99-104 | `"45,000"` yields no in-range value |
| Scenarios.CostsOf350000 | utils/extract_fields.py:99-104 | `"350,000"` yields 350000 |
| Scenarios.CostsOf12000000 | utils/extract_fields.py:99-104 | `"1,20,00,000"` yields 1200000 |
| Scenarios.AssetCostExample | utils/extract_fields.py:90-109 | the corpus `"45,000"`, `"350,000"`, `"1,20,00,000"` gives 1200000 |
| ExtractFields.TopLines | utils/extract_fields.py:128 | `ocr_results[:30]` is the prefix of the first 30 lines, or all lines when there are fewer |
| ExtractFields.DealerWindow | utils/extract_fields.py:128 | definition of the 30-line window of `ocr_results[:30]` |
| ExtractFields.CutAtSuffix | utils/extract_fields.py:150-154 | the cut is a prefix of the chosen line |
| ExtractFields.LegalSuffixes | utils/extract_fields.py:151 | definition of the six suffixes, word for word and in the order they are tried |
| ExtractFields.DealerText | utils/extract_fields.py:129 | definition of the text the dealer rule reads from a line: `r["text"].upper().strip()` |
| ExtractFields.IsDealerCandidate | utils/extract_fields.py:129-140 | definition of the loop's filter on an upper-cased, stripped line: at least 10 characters, no bad keyword, a legal term |
| ExtractFields.LegalTerms | utils/extract_fields.py:113-116 | definition of the nine legal terms, word for word |
| ExtractFields.BadKeywords | utils/extract_fields.py:118-124 | definition of the seventeen bad keywords, word for word |
| ExtractFields.DealerName | utils/extract_fields.py:126-156 | definition of what `extract_dealer_name` returns: `None` without candidates, else the first longest candidate, cut after its legal suffix and stripped (characterised by `DealerNameSelects`) |
| ExtractFields.ExtractDealerName | utils/extract_fields.py:112-156 | the filtering loop, `max(key=len)`, the suffix loop and the final `strip` compute `DealerName` |
| ExtractFields.CutAfterLegalSuffix | utils/extract_fields.py:151-154 | the suffix loop with `break` computes `CutAtSuffix` over the six suffixes in list order |
| ExtractFields.DealerNameSelects | utils/extract_fields.py:126-156 | no dealer exactly when none of the first 30 lines qualifies; otherwise the first longest qualifying line among them, cut and stripped |
| ExtractFields.DealerNameIsCut | utils/extract_fields.py:144-156 | the dealer name is the first longest qualifying line itself, cut right after the first suffix in list order: the final `strip()` never changes it |
| ExtractFields.DealerIgnoresLaterLines | utils/extract_fields.py:128 | lines after the thirtieth never change the dealer name |
| ExtractFields.CutWithoutSuffix | utils/extract_fields.py:151-154 | when no suffix occurs, the line is kept whole |
| ExtractFields.CutAtFirstSuffix | utils/extract_fields.py:151-154 | for the first suffix in list order that occurs, the cut is the text before its first occurrence followed by the suffix (`split(suffix)[0] + suffix`) |
| ExtractFields.CutEndsWithSuffix | utils/extract_fields.py:151-154 | after a cut, the name ends with that suffix |
| ExtractFields.CutStaysStripped | utils/extract_fields.py:129-156 | cutting a stripped non-empty line leaves it stripped, so the final `strip()` changes nothing |
| Scenarios.CutAtLtd | utils/extract_fields.py:151-154 | when `" LTD"` occurs with no "L" before it, the cut falls right after it, whatever other suffixes occur earlier in the text |
| Scenarios.CutSwarajLine | utils/extract_fields.py:150-156 | `"SWARAJ TRACTORS PVT LTD, PUNE ROAD"` is cut to `"SWARAJ TRACTORS PVT LTD"` |
| Selection.Keep | utils/extract_fields.py:40-56 | the list a filtering loop builds: at most one text per element, and every kept text passes the filter |
| Selection.KeepStep | utils/extract_fields.py:42-56 | one more element grows the list by that element's text exactly when it passes the filter |
| Selection.KeepShortest | utils/extract_fields.py:58-63 | taking `sort(key=len)[0]` of the kept texts gives the first shortest qualifying element, and nothing is kept exactly when nothing qualifies |
| Selection.KeepLongest | utils/extract_fields.py:144-148 | `max(key=len)` of the kept texts gives the first longest qualifying element, and nothing is kept exactly when nothing qualifies |
| Selection.ShortestIndex | utils/extract_fields.py:62-63 | the index of the first element of least length |
| Selection.LongestIndex | utils/extract_fields.py:148 | the index of the first element of greatest length |
| Selection.FirstOf | utils/extract_fields.py:68-87 | definition of a scan that returns at the first element yielding a value (characterised by `FirstOfFirst` and `FirstOfStopsAt`) |
| Selection.FirstOfStopsAt | utils/extract_fields.py:68-87 | once element `k` is the first to yield a value, that value is the result and later elements are not read |
| Selection.FirstOfFirst | utils/extract_fields.py:68-87 | the first value over the lines is absent exactly when no line yields one, and otherwise comes from the first line that yields one |
| Selection.MaxOf | utils/extract_fields.py:109 | `max(numbers)` is an element of the list and no element exceeds it |
| Selection.Gather | utils/extract_fields.py:96-104 | definition of the list that nested loops accumulate: each element's values, appended in order (characterised by `GatherHas` and `GatherSource`) |
| Selection.GatherHas | utils/extract_fields.py:96-104 | every value that some line yields is accumulated |
| Selection.GatherBounds | utils/extract_fields.py:101-104 | bounds every line's values obey hold of all accumulated numbers |
| Selection.GatherSource | utils/extract_fields.py:96-104 | every accumulated number comes from some line |
| Text.Upper | utils/extract_fields.py:12 | `upper()` keeps the length, maps each character, and leaves no lower-case letter |
| Text.Strip | utils/extract_fields.py:17 | `strip()` leaves no white space at either end, and its result sits in the argument with only white space before and after it |
| Text.IsSpace | utils/extract_fields.py:17 | definition of the ASCII white space `str.strip()` removes (also at :129 and :156): tab, line feed, vertical tab, form feed, carriage return, 0x1C-0x1F and the space |
| Text.Find | utils/extract_fields.py:152-153 | the leftmost search behind `suffix in dealer` and `dealer.split(suffix)[0]`: it reports the leftmost occurrence, or none when there is no occurrence |
| Text.ReplaceAll | utils/extract_fields.py:15 | definition of `str.replace`: the leftmost occurrence is replaced and the search resumes after it, so occurrences never overlap (properties in `ReplaceLength`, `ReplaceAllChars`, `ReplaceCharByNothing`) |
| Text.ReplaceLength | utils/extract_fields.py:72 | a replacement as long as the pattern (`"O"` by `"0"`) keeps the length, and a shorter one never lengthens the text |
| Text.Contains | utils/extract_fields.py:152 | definition of `p in s`: the leftmost search finds an occurrence, which by `Find`'s contract happens exactly when `p` occurs somewhere in `s` |
| Text.ContainsAny | utils/extract_fields.py:46 | definition of `any(k in s for k in keys)` by recursion over the keys |
| Text.ContainsAnyAt | utils/extract_fields.py:46 | `any(k in s for k in keys)` holds exactly when some key occurs in `s` |
| Text.HasDigit | utils/extract_fields.py:50 | definition of `any(ch.isdigit() for ch in text)` by recursion over the text |
| Text.HasDigitAt | utils/extract_fields.py:50 | a text has a digit exactly when some character of it is a decimal digit |
| Text.DigitValue | utils/extract_fields.py:85 | `int(match.group(1))` of one decimal digit, a value from 0 to 9 |
| Text.DecimalValue | utils/extract_fields.py:76 | `int()` of a string of `n` decimal digits is below ten to the `n` |
| Text.ReplaceCharByNothing | utils/extract_fields.py:4 | `replace(c, "")` with a one-character `c` drops every `c` |
| Text.ReplaceAllChars | utils/extract_fields.py:15 | every character of a `replace` result comes from the text or the replacement |
| Confidence.TextPresent | utils/confidence.py:5-8 | definition of the truthiness of a name: `None` and `""` are missing |
| Confidence.NumberPresent | utils/confidence.py:9-14 | definition of the truthiness of a number: `None` and `0` are missing |
| Confidence.PresenceOf | utils/confidence.py:1-20 | definition of which of the six inputs the `if not ...` tests find present |
| Confidence.Checks | utils/confidence.py:5-20 | definition of the `if` chain as six rules in source order: dealer 30, model 30, cost 30, horse power 10, stamp 15, signature 15 hundredths |
| Confidence.Penalty | utils/confidence.py:5-20 | definition of one `if not x: conf -= w`: the weight when the input is missing, else nothing |
| Confidence.Deduction | utils/confidence.py:5-20 | nothing is taken off exactly when no rule applies, that is, every rule's input is present or its weight is zero |
| Confidence.ChecksDeduction | utils/confidence.py:5-20 | the total taken off is the sum of the six penalties, in the order of the `if` chain |
| Confidence.ComputeConfidence | utils/confidence.py:1-22 | the chain of deductions and the clamp compute `Score` of the six inputs' truthiness |
| Confidence.Score | utils/confidence.py:22 | the score always lies in [0, 100] hundredths |
| Confidence.AllPresentFull | utils/confidence.py:2-22 | all six inputs present give 1.00 |
| Confidence.AllMissingZero | utils/confidence.py:5-22 | all missing: the deductions total 1.30, and the clamp gives 0.00 |
| Confidence.MostDeduction | utils/confidence.py:5-20 | the deductions total at most 1.30, and exactly 1.30 only when all inputs are missing |
| Confidence.ScoreMonotone | utils/confidence.py:5-22 | making any inputs absent never raises the score |
| Confidence.ScoreFlip | utils/confidence.py:5-22 | making one present input absent lowers the score by exactly its weight (0.30, 0.30, 0.30, 0.10, 0.15 or 0.15), or to 0 when the clamp is reached |
| Confidence.DeductionOrderFree | utils/confidence.py:5-20 | any two orderings (multiset-equal lists) of the deduction rules give the same total |
| Confidence.DeductionMonotone | utils/confidence.py:5-20 | pointwise fewer present fields never give a smaller deduction |
| Confidence.DeductionRemove | utils/confidence.py:5-20 | each rule's deduction counts once wherever it stands in the list |
| Confidence.SameTruthinessSameScore | utils/confidence.py:5-19 | inputs with the same truthiness give the same score, whatever their values |

## Left out

- `utils/stamp_signature.py`, `utils/ocr.py`, `utils/visualize.py` and
  `executable.py` are not part of this model. They are image processing
  through OpenCV, calls into the recognition engine, drawing and file I/O,
  and orchestration with timing and JSON output.
- Stamp and signature presence enter `ComputeConfidence` as plain booleans,
  which is what the detectors return.
- Text is ASCII. Python's Unicode behaviour of `upper`, `isdigit`, `\d` and
  `strip` is not modelled; for instance, non-ASCII digits and non-ASCII white
  space are treated as ordinary characters.
- `Confidence.Score`: floating point is not modelled. The score is exact
  integer hundredths, which is what `round(..., 2)` of these weights yields.
- `Selection.ShortestIndex`: the stable sort at utils/extract_fields.py:62
  is modelled by its first element only, since only `candidates[0]` is read;
  the sorted order of the other candidates is not modelled.
- `Scenarios.CutSwarajLine`: this scenario states the cut and the final
  `strip`. That the line qualifies as a dealer line (no bad keyword, a legal
  term) is not proved for this concrete text.
