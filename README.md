# Supplier deduplication, ignore list, cache and supplier analysis

This project models the core of a supplier-extraction service in Dafny:

- the `SupplierDeduplicator` in two variants:
  - the server's, in `server/app/utils/deduplication.py`;
  - the older one of the app directory, in `app/utils/deduplication.py`.
  Each normalises company names, groups suppliers whose names are similar to a seed, and merges each group into one supplier. The merge takes the name of the most confident member, averages the confidence (rounded to two places in the server variant), keeps the first source URL and joins the contexts with "; ".
- the ignore-list `Config` (`server/app/config.py`). It holds the set of lower-cased names loaded from a line-oriented text file, with add, remove, reload and list operations.
- the `FirestoreService` (`server/app/services/storage.py`). It keeps an extraction log, a cache keyed by the lower-cased company name with a 24-hour freshness rule, the newest-first history and the statistics.
- the request and supplier schema (`server/app/models/schemas.py`): company-name validation, the default of ten results, and the confidence range.
- the offline ignore-list analysis (`server/analyze_suppliers.py`). It counts suppliers across supermarket lists, groups the common ones by count, splits them into ignore candidates and product suppliers, and produces the sorted ignore list.

Code whose work is a value computation is modelled as functions and lemmas. This covers normalisation, grouping, merging, schema validation and categorisation rules.

Code that updates state is modelled imperatively:
- `Config` and `FirestoreService` are classes whose methods change their fields.
- The Python loops are methods with loop invariants, proved against the specification functions: the counting and grouping loops of `find_common_suppliers`, the categorisation loop, the grouping loop of `_group_similar_suppliers` and the merge loop.

Modules:

| file | module | models |
|---|---|---|
| wrappers.dfy | Wrappers | `Option` and `Result` |
| text.dfy | Text | ASCII lower-casing, `str.strip`, whitespace collapse, `[^\w\s]` removal, joining |
| normalizer.dfy | NameNormalizer | the server's `_normalize_company_name` |
| normalizer_examples.dfy | NormalizerExamples | the normalisation cases of the server's tests |
| legacy_normalizer.dfy | LegacyNormalizer | the older `_normalize_company_name` (suffix patterns first, then clean-up) |
| legacy_examples.dfy | LegacyExamples | the same names through the older normaliser |
| grouping.dfy | Grouping | `_group_similar_suppliers` over indices |
| merging.dfy | Merging | `_merge_supplier_group` |
| deduplication.dfy | Deduplication | `deduplicate_suppliers` of both variants, and the ignore filter the tests expect |
| ignore_list.dfy | IgnoreList | `Config`, its file as text, line iteration and the ignore set |
| storage.dfy | Storage | `FirestoreService` on an in-memory log and cache |
| schemas.dfy | Schemas | `SupplierExtractionRequest` and `Supplier` validation |
| analysis.dfy | Analysis | `find_common_suppliers`, `categorize_suppliers`, `generate_ignore_list` |

Parameters stand in for what the model cannot see:
- the similarity score `fuzz.ratio` is a function `(string, string) -> int`, and the proved properties hold for any such function;
- the clock is an integer number of seconds, `now`;
- Firestore document ids are supplied by the caller;
- the ignore-list file is a flag for its existence, its text, and flags for whether reading and writing succeed.

Behaviour of the code a reader might not expect; the model follows the code:
- The server normaliser applies every suffix pattern in turn, not only the first match. "XYZ Technologies Inc." loses both suffixes and becomes "xyz", as server/tests/test_deduplication.py:11 expects (`NormalizerExamples.ExampleXyzTechnologiesInc`).
- `remove_from_ignore_list` returns true whenever the file exists and can be read and rewritten, even when no line matched the name (`IgnoreList.Config.Remove`).
- `add_to_ignore_list` writes the name as given, without trimming it. A reload then trims it (`IgnoreList.AddThenReload`).
- Mentions with an empty name are not rejected. They are grouped and merged like any other.
- The older normaliser's `[^\w\s]` keeps `_`, because `\w` includes it. The model keeps it too.
- `deduplicate_suppliers` does not consult the ignore list, although server/tests/test_ignore_list.py:71-122 expects ignored names to be filtered out; see "Findings".

## Model

| member | source | states |
|---|---|---|
| NameNormalizer.StripSuffix | server/app/utils/deduplication.py:56-57 | a suffix pattern removes " suffix" exactly when the name ends with it as a whole word, and otherwise leaves the name unchanged |
| NameNormalizer.CleanCanonical | server/app/utils/deduplication.py:38-46 | after lower-casing, separator replacement, punctuation removal and whitespace collapse, a name has only lower-case letters, digits and single inner spaces, with no leading or trailing space |
| NameNormalizer.NormalizeCanonical | server/app/utils/deduplication.py:35-59 | the normalised name is canonical, and suffix removal never empties a cleaned name that was not empty |
| NameNormalizer.CleanIdempotent | server/app/utils/deduplication.py:38-46 | cleaning a cleaned name changes nothing |
| NameNormalizer.CleanFixesCanonical | server/app/utils/deduplication.py:38-46 | a canonical name is its own cleaning |
| NameNormalizer.StripSuffixesOfEmpty | server/app/utils/deduplication.py:56-57 | no suffix pattern matches the empty name |
| NameNormalizer.StripSuffixesWithoutSpace | server/app/utils/deduplication.py:49-57 | a one-word name keeps its only word, even when that word is a suffix (each pattern needs a leading space) |
| NameNormalizer.StripSuffixLastWord | server/app/utils/deduplication.py:56-57 | a pattern matches a name ending in " x" exactly when x is the suffix |
| NameNormalizer.StripSuffixesKeepWord | server/app/utils/deduplication.py:49-57 | a name whose last word is no suffix passes every pattern unchanged |
| NameNormalizer.StripSuffixesPeel | server/app/utils/deduplication.py:49-57 | a last word equal to suffix k is removed by pattern k, and only the later patterns apply to what remains, so several suffixes can go |
| NormalizerExamples.ExampleAbcCorp | server/tests/test_deduplication.py:10 | "ABC Corp" normalises to "abc" |
| NormalizerExamples.ExampleXyzTechnologiesInc | server/tests/test_deduplication.py:11 | "XYZ Technologies Inc." normalises to "xyz" |
| NormalizerExamples.ExampleTestCompanyLtd | server/tests/test_deduplication.py:12 | "Test Company Ltd." normalises to "test company" |
| NormalizerExamples.ExampleAmpersand | server/tests/test_deduplication.py:15 | "A&B Corp." normalises to "a b" |
| NormalizerExamples.ExampleHyphen | server/tests/test_deduplication.py:16 | "Test-Company" normalises to "test company" |
| NormalizerExamples.ExampleXyzLtd | server/tests/test_deduplication.py:21 | "XYZ Ltd" normalises to "xyz" |
| LegacyNormalizer.EndOfText | app/utils/deduplication.py:49-50 | where `$` matches: the end of the text, or just before a final newline |
| LegacyNormalizer.ApplyPatternChars | app/utils/deduplication.py:49-50 | removing a suffix match introduces no character the input lacked |
| LegacyNormalizer.PatternsKeepLowerCase | app/utils/deduplication.py:39-50 | the suffix patterns applied to a lower-cased name leave no upper-case letter |
| LegacyNormalizer.NormalizeTidy | app/utils/deduplication.py:35-56 | the result has only word characters and single inner spaces, with no leading or trailing space |
| LegacyNormalizer.ApplyPatternBeforeNewline | app/utils/deduplication.py:49-50 | a final newline does not stop a pattern from matching, and it survives the substitution |
| LegacyNormalizer.ApplyPatternLastWord | app/utils/deduplication.py:43-50 | a pattern removes the last word, together with all the whitespace before it, exactly when the word matches the suffix (with its optional dot) |
| LegacyNormalizer.ApplyPatternsWithoutWhite | app/utils/deduplication.py:42-50 | a name without whitespace passes every pattern unchanged |
| LegacyNormalizer.ApplyPatternsKeepWord | app/utils/deduplication.py:42-50 | a name whose last word matches no pattern passes every pattern unchanged |
| LegacyNormalizer.ApplyPatternsPeel | app/utils/deduplication.py:42-50 | the first pattern matching the last word removes it, and only the later patterns apply to the rest |
| LegacyExamples.ExampleTestCompanyLtd | app/utils/deduplication.py:42-56 | the older normaliser maps "Test Company Ltd." to "test": " company" is removed after " ltd." |
| LegacyExamples.ExampleAmpersand | app/utils/deduplication.py:42-56 | the older normaliser maps "A&B Corp." to "ab", because the ampersand is deleted rather than spaced |
| LegacyExamples.ExampleHyphen | app/utils/deduplication.py:42-56 | the older normaliser maps "Test-Company" to "testcompany" |
| Grouping.GroupSimilar | server/app/utils/deduplication.py:61-90 | the nested loops with their used-index set produce exactly the groups of the greedy seed rule |
| Grouping.Absorb | server/app/utils/deduplication.py:71-86 | the inner loop's group is the seed followed by every later unused index similar to it, and the used set grows by exactly those |
| Grouping.AbsorbedSpec | server/app/utils/deduplication.py:75-86 | an index joins the seed exactly when it is unused, lies after the seed and scores at least the threshold against it; members keep input order |
| Grouping.GroupsPartition | server/app/utils/deduplication.py:64-90 | every supplier is in exactly one group; every group is non-empty, starts with its seed and is in increasing order |
| Grouping.GroupsInSeedOrder | server/app/utils/deduplication.py:67-88 | there are at most as many groups as suppliers, and groups come in the order of their seeds |
| Grouping.GroupsSeedRelative | server/app/utils/deduplication.py:79-86 | every member of a group scores at least the threshold against that group's seed, and no unused supplier similar to a seed is left out of the seed's group |
| Grouping.GroupsSeeds | server/app/utils/deduplication.py:67-72 | each seed is the first supplier not yet in an earlier group |
| Grouping.GroupsTestScenario | server/tests/test_deduplication.py:66-76 | keys "abc", "abc", "xyz" form the groups [0, 1] and [2] under any score with abc/abc above and abc/xyz below the threshold |
| Merging.BestIndex | server/app/utils/deduplication.py:101 | `max` with a key picks the first member of highest confidence, with a missing confidence counting as 0 |
| Merging.MergeGroup | server/app/utils/deduplication.py:92-123 | the merge loop yields the merged supplier |
| Merging.MergedSingleton | server/app/utils/deduplication.py:95-98 | a single-member group is returned as it is |
| Merging.MergedName | server/app/utils/deduplication.py:101-117 | the merged name is the name of the first most confident member |
| Merging.TruthiesEmpty | server/app/utils/deduplication.py:104-111 | no value is collected exactly when no member has a non-empty value |
| Merging.TruthiesFirst | server/app/utils/deduplication.py:104-109 | the first value collected is that of the first member with a non-empty value |
| Merging.MergedSource | server/app/utils/deduplication.py:104-119 | the merged source URL is absent exactly when no member has one; otherwise it is the first member's non-empty URL |
| Merging.MergedContext | server/app/utils/deduplication.py:104-120 | the merged context is absent exactly when no member has one; otherwise it starts with the first non-empty context |
| Merging.SumBounds | server/app/utils/deduplication.py:114 | the sum of confidences lies between n·lo and n·hi when every confidence lies in [lo, hi] |
| Merging.MeanBounds | server/app/utils/deduplication.py:114 | the average confidence lies within the bounds of the members' confidences |
| Merging.Round2Close | server/app/utils/deduplication.py:118 | rounding to two places moves a value by at most 0.005 |
| Merging.Round2Unit | server/app/utils/deduplication.py:118 | rounding keeps a value in [0, 1] within [0, 1] |
| Merging.Round2Hundredths | server/app/utils/deduplication.py:118 | a value with two decimal places is its own rounding |
| Merging.MergedConfidenceBounds | server/app/utils/deduplication.py:113-118 | the merged confidence is present, lies in [0, 1], equals the mean when unrounded, and is within 0.005 of the mean when rounded |
| Merging.MergeTestScenario | server/tests/test_deduplication.py:54-64 | merging ABC Corp (0.8) and ABC Corporation (0.9) gives the name "ABC Corporation", confidence 0.85, the first URL and the contexts "Main supplier; Primary vendor" |
| Deduplication.GroupsInRange | server/app/utils/deduplication.py:61-90 | every index in a group names a supplier |
| Deduplication.Deduplicate | server/app/utils/deduplication.py:9-33 | the method's normalise, group and merge loops produce the merge of every group of the normalised keys |
| Deduplication.MergeGroups | server/app/utils/deduplication.py:28-31 | the merge loop merges each group in group order |
| Deduplication.DeduplicatedLength | server/app/utils/deduplication.py:12-33 | there are never more outputs than inputs, and the output is empty exactly when the input is |
| Deduplication.DeduplicatedNames | server/app/utils/deduplication.py:92-117 | every output name is the name of some input supplier |
| Deduplication.DeduplicatedConfidence | server/app/utils/deduplication.py:113-118 | confidences in [0, 1] stay in [0, 1] through deduplication, in both variants |
| Deduplication.DeduplicatedDistinct | server/app/utils/deduplication.py:9-98 | when no two keys are similar, the output is the input unchanged |
| Deduplication.DuplicatesMerge | server/tests/test_deduplication.py:29-41 | two "ABC Corp" entries and one "XYZ Ltd" become two suppliers: "ABC Corp" with confidence 0.85 and the first URL, then "XYZ Ltd" unchanged; this holds for any deduplicator whose normaliser maps the names to "abc" and "xyz" |
| Deduplication.DuplicatesScenario | server/tests/test_deduplication.py:29-41 | the same outcome for the server deduplicator at its default threshold of 80 |
| Deduplication.UnignoredSpec | server/tests/test_ignore_list.py:83-89 | the ignore filter keeps no supplier whose name is ignored |
| Deduplication.UnignoredAllIgnored | server/tests/test_ignore_list.py:91-105 | when every name is ignored, the filter keeps nothing |
| Deduplication.UnignoredNoneIgnored | server/tests/test_ignore_list.py:71-89 | when no name is ignored, the filter keeps everything |
| Deduplication.IgnoredSuppliersSurvive | server/app/utils/deduplication.py:9-33 | as written, a non-empty list of ignored suppliers still yields an ignored supplier |
| Deduplication.DeduplicateIgnoring | server/tests/test_ignore_list.py:71-122 | the corrected method filters first, then deduplicates |
| Deduplication.IgnoringDropsIgnored | server/tests/test_ignore_list.py:71-122 | with the filter, no output is ignored; all-ignored input gives no output; with nothing ignored, the output is that of `deduplicate_suppliers` |
| IgnoreList.LineEnd | server/app/config.py:22 | the first line of a text runs up to and including its first newline, or to the end of the text |
| IgnoreList.ConcatOfLines | server/app/config.py:22 | iterating a file by lines loses and adds nothing: the lines concatenate to the text |
| IgnoreList.LinesProper | server/app/config.py:22 | every line but the last ends in its only newline, and no line is empty |
| IgnoreList.LinesOfConcat | server/app/config.py:62-68 | writing back proper lines and reading them again gives the same lines |
| IgnoreList.EntriesSpec | server/app/config.py:22-25 | a name is an entry exactly when some line, stripped, is that name, is non-empty and does not start with '#' |
| IgnoreList.EntriesStripped | server/app/config.py:84 | every listed entry is already stripped |
| IgnoreList.KeptSpec | server/app/config.py:66-68 | the rewrite keeps exactly the lines that do not strip to the removed name, and never adds lines |
| IgnoreList.KeptUnmatched | server/app/config.py:66-68 | when no line strips to the name, the rewrite keeps every line |
| IgnoreList.KeptProper | server/app/config.py:66-68 | the kept lines are still proper lines |
| IgnoreList.RemovedEntries | server/app/config.py:60-68 | after removal the file lists no entry equal to the removed name |
| IgnoreList.RemoveThenReload | server/app/config.py:60-70 | removal compares case-sensitively: a line differing from the name only in case stays, so a reload ignores the name again |
| IgnoreList.RemoveUnmatched | server/app/config.py:60-68 | removing a name that no line matches leaves the file byte for byte as it was |
| IgnoreList.AddThenReload | server/app/config.py:45-47 | when the file is empty or ends in a newline, appending a name and a newline and reloading adds the name stripped and lower-cased, when it is an entry (otherwise the append glues the name onto the last line) |
| IgnoreList.IgnoredCaseInsensitive | server/app/config.py:37-39 | names differing only in case are ignored alike |
| IgnoreList.LoadedIgnores | server/app/config.py:22-39 | after a load, a name is ignored exactly when it equals some entry up to case |
| IgnoreList.ListedSpec | server/app/config.py:76-87 | what the file lists is exactly its stripped entry lines when it exists and is readable, already stripped, and their lower-cased forms are exactly what a load of that file ignores |
| IgnoreList.Config.IsSupplierIgnored | server/app/config.py:37-39 | the answer is the same for every case variant of the name, and after a fresh load it is yes exactly when the file exists, is readable and has an entry equal to the name up to case |
| IgnoreList.Config.GetIgnoreList | server/app/config.py:76-87 | the list holds exactly the stripped, non-empty, non-comment lines of an existing readable file, each already stripped; after a fresh load the ignored set is exactly the list lower-cased |
| IgnoreList.Config.constructor | server/app/config.py:11-14 | a new configuration holds exactly the names its file loads, or none if the file is missing or unreadable |
| IgnoreList.Config.Load | server/app/config.py:16-30 | loading adds the file's entries to the set, and adds none when the file is missing or unreadable |
| IgnoreList.Config.Reload | server/app/config.py:32-35 | reloading replaces the set by exactly the file's entries |
| IgnoreList.Config.Add | server/app/config.py:41-51 | adding succeeds exactly when the file is writable; then the file gains the name and a newline (it is created if missing) and the set gains the lower-cased name; on failure nothing changes |
| IgnoreList.Config.Remove | server/app/config.py:53-74 | removal succeeds exactly when the file exists and can be read and written; then the file keeps only the lines not equal to the name and the set loses the lower-cased name; on failure nothing changes |
| Storage.FreshUnderADay | server/app/services/storage.py:41-45 | an entry is fresh exactly when it has a timestamp less than 86400 seconds old (`timedelta.days < 1`) |
| Storage.LookupSpec | server/app/services/storage.py:33-47 | a cache read hits exactly when the lower-cased name has a fresh entry, and then returns that entry |
| Storage.LookupCaseInsensitive | server/app/services/storage.py:37 | names differing only in case read the same entry |
| Storage.LookupAfterCache | server/app/services/storage.py:49-61 | after caching, any case variant of the name reads the new entry within a day and misses after; other names are unaffected |
| Storage.InsertNewestFirst | server/app/services/storage.py:68 | inserting into the history order adds the record once and loses nothing |
| Storage.NewestFirst | server/app/services/storage.py:68 | ordering by timestamp is a permutation |
| Storage.NewestFirstDescending | server/app/services/storage.py:68 | the ordered records have non-increasing timestamps |
| Storage.NewestFirstOfAscending | server/app/services/storage.py:68 | under a clock that never goes back, newest first is the reverse of the log |
| Storage.MatchingSpec | server/app/services/storage.py:67 | the company filter keeps exactly the log's records with that exact company name |
| Storage.HistoryMembers | server/app/services/storage.py:63-72 | the history holds at most `limit` records, fewer only when fewer match, each from the log and with that company name |
| Storage.HistoryOrder | server/app/services/storage.py:66-72 | the history is newest first, and no matching record left out is newer than one returned |
| Storage.FirestoreService.constructor | server/app/services/storage.py:7-14 | a new service has an empty log and an empty cache |
| Storage.FirestoreService.StoreExtractionResult | server/app/services/storage.py:16-31 | storing appends one record carrying the name, suppliers, their count, the time taken, the result count and the clock, returns its id, and leaves the cache alone; the statistics count one more extraction and the same cached companies |
| Storage.FirestoreService.CacheResult | server/app/services/storage.py:49-61 | caching overwrites the lower-cased name's entry with a full snapshot stamped with the clock, and leaves the log alone; the statistics count the same extractions, and one more cached company exactly when the lower-cased name had no entry before |
| Storage.StatisticsAfterWrites | server/app/services/storage.py:74-84 | writing an entry under a key adds one cached company exactly when the key was new, and none otherwise |
| Storage.FirestoreService.GetCachedResult | server/app/services/storage.py:33-47 | a read hits exactly when the lower-cased name has an entry with a timestamp less than a day old, and then returns that entry |
| Storage.FirestoreService.GetExtractionHistory | server/app/services/storage.py:63-72 | the history holds min(limit, matches) records (limit 10 by default), each from the log with that exact company name, newest first |
| Storage.FirestoreService.GetStatistics | server/app/services/storage.py:74-84 | the statistics count the log's records and the cache's companies, stamped with the clock |
| Storage.StoredHeadsHistory | server/app/services/storage.py:16-72 | a record stored no earlier than any other of its company heads that company's history |
| Schemas.ValidateCompanyName | server/app/models/schemas.py:9-14 | a name is refused, with "Company name cannot be empty", exactly when it is empty or all whitespace; an accepted name is non-empty and has no surrounding whitespace |
| Schemas.ValidatedIsTrimmed | server/app/models/schemas.py:14 | the accepted name is the input with only the surrounding whitespace removed |
| Schemas.ValidateIdempotent | server/app/models/schemas.py:9-14 | validating an accepted name again accepts it unchanged |
| Schemas.NewRequest | server/app/models/schemas.py:5-14 | a request is built exactly when its name validates; it carries the stripped name and the given result count |
| Schemas.RequestDefaults | tests/test_schemas.py:19-25 | a request for "Tesco" defaults to 10 results, and an empty name is refused |
| Schemas.NewSupplier | server/app/models/schemas.py:16-20 | a supplier is built exactly when 0 ≤ confidence ≤ 1, with the optional fields as given |
| Schemas.SupplierDefaults | tests/test_schemas.py:40-52 | omitted source and context are absent; confidences 1.5 and -0.1 are refused |
| Analysis.Pairs | server/analyze_suppliers.py:44-45 | one (company, supplier) occurrence per listed supplier, in list order |
| Analysis.LocationsCount | server/analyze_suppliers.py:46-47 | a supplier has one location per occurrence |
| Analysis.FirstSeenSpec | server/analyze_suppliers.py:46-51 | the counter's keys are distinct, and they are exactly the suppliers seen at least once |
| Analysis.CountConcat | server/analyze_suppliers.py:44-47 | counts and locations of concatenated occurrences add up and concatenate |
| Analysis.PairsCount | server/analyze_suppliers.py:45-47 | one company's list counts each supplier as often as it is listed, located at that company each time |
| Analysis.CountFlat | server/analyze_suppliers.py:44-46 | a supplier's count is the number of times it is listed, summed over all companies |
| Analysis.LocationsAppend | server/analyze_suppliers.py:44-47 | a further company's list adds that company once per listing to the supplier's locations |
| Analysis.TracksStep | server/analyze_suppliers.py:46-47 | one increment and append keep the counter, the location lists and the key order in step with the occurrences seen |
| Analysis.TallyList | server/analyze_suppliers.py:45-47 | the inner loop tallies one company's suppliers |
| Analysis.Tally | server/analyze_suppliers.py:41-47 | the two loops leave each supplier's count, its location list and the counter's key order equal to those of all occurrences |
| Analysis.FindCommonSuppliers | server/analyze_suppliers.py:38-58 | the method returns the grouping of suppliers by count |
| Analysis.CommonSuppliersSound | server/analyze_suppliers.py:50-56 | every count key exceeds 1 and has a non-empty list, and every supplier listed under a count appears exactly that often, with that many locations |
| Analysis.CommonSuppliersComplete | server/analyze_suppliers.py:50-56 | every supplier listed more than once appears under its count, and no supplier appears twice in one list |
| Analysis.CategorizeSuppliers | server/analyze_suppliers.py:60-114 | the loop's two lists are the categorisation of the suppliers |
| Analysis.CategorizedAppend | server/analyze_suppliers.py:86-109 | categorisation works supplier by supplier and keeps input order in both lists |
| Analysis.CategorizedPartition | server/analyze_suppliers.py:86-109 | the two lists together are the input, the candidates are all ignore candidates, and the product suppliers are none |
| Analysis.CategorizedMember | server/analyze_suppliers.py:103-109 | an input supplier is a candidate exactly when the rule says so, and a product supplier exactly when it does not |
| Analysis.BrandWins | server/analyze_suppliers.py:90-104 | a name containing a product brand is a product supplier even when it also contains a keyword |
| Analysis.KeywordIsCandidate | server/analyze_suppliers.py:93-106 | a name with no brand but with a keyword or a generic term is an ignore candidate |
| Analysis.UnmatchedIsProduct | server/analyze_suppliers.py:107-109 | a name matching no word list defaults to a product supplier |
| Analysis.LessEqTotal | server/analyze_suppliers.py:123 | any two names are ordered one way or the other |
| Analysis.LessEqTransitive | server/analyze_suppliers.py:123 | the string order is transitive |
| Analysis.LessEqAntisymmetric | server/analyze_suppliers.py:123 | names ordered both ways are equal |
| Analysis.InsertPermutes | server/analyze_suppliers.py:123 | insertion adds the name once and loses nothing |
| Analysis.InsertSorted | server/analyze_suppliers.py:123 | insertion into a sorted list keeps it sorted |
| Analysis.SortSpec | server/analyze_suppliers.py:123 | sorting yields a sorted permutation of the names |
| Analysis.SortedUnique | server/analyze_suppliers.py:123 | two sorted permutations of the same names are equal, so the sorted list is determined by the names |
| Analysis.GenerateIgnoreList | server/analyze_suppliers.py:116-123 | the ignore list is sorted and holds the candidates' names with their multiplicity |
| Analysis.IgnoreListNames | server/analyze_suppliers.py:118-121 | a name is in the ignore list exactly when some candidate has it |

## Left out

- `load_supplier_files` and `main` of server/analyze_suppliers.py read JSON files and print a report; they are file and console I/O. Their input arrives as a sequence of (company, supplier names) pairs in dictionary order.
- Analysis.FindCommonSuppliers: returns a map, so the key order of the resulting dictionary (counts in the order first met) is not modelled; each list's order is.
- `fuzz.ratio` is a function parameter; no property of edit-distance ratios is assumed or proved.
- The clock `datetime.now` and Firestore document ids are parameters.
- The Firestore client, the `GOOGLE_CLOUD_PROJECT` check and its `ValueError` are left out; the service is an in-memory log and cache.
- The path of the ignore-list file (`SUPPLIER_IGNORE_LIST_FILE`) is left out; the file is one text value with existence, read and write flags.
- Partial writes (a failure half-way through rewriting the file) are left out; a write either succeeds fully or changes nothing.
- IgnoreList.Config.Load: a read or decoding error part-way through the file leaves the entries already added in the set (server/app/config.py:21-30); the model's read flag is all or nothing, so a failed read adds no entry.
- Console messages (`print`) are left out.
- Storage.FirestoreService.GetExtractionHistory: the returned records carry the document `id`, which `doc.to_dict()` (server/app/services/storage.py:72) does not return; `limit` is a natural number, so a negative limit is not modelled.
- Storage.InsertNewestFirst: among records with equal timestamps, the later-stored record comes first. Firestore does not specify an order for ties.
- Merging.Round2: rounds exact reals half to even. Python's `round` works on binary doubles, so results on inputs not exactly representable may differ.
- Confidences and processing times are exact reals, not floating point.
- Upper/lower case and the character classes `\w` and `\s` cover ASCII only; Unicode lower-casing is left out.
- Newline translation of text-mode files is left out; '\n' is the only line terminator.
- Merging.MergedSingleton: supplier records have the four fields of the schema only. The extra keys a Python dictionary may carry through a single-member group are left out.
- `SupplierExtractionResponse` and `HealthResponse` (server/app/models/schemas.py:22-31) only default their timestamp to the clock and are left out.
- `MAX_SEARCH_RESULTS` (server/app/config.py:6) is used by the search service, which is not part of this model.
- app/models/schemas.py, the older schema module, is not part of this model.

## Findings

| source | as written | input that shows it | evidently intended | confidence | as-written member | corrected member |
|---|---|---|---|---|---|---|
| server/app/utils/deduplication.py:9-33 | `deduplicate_suppliers` never consults the ignore list, so ignored suppliers reach the output | any non-empty list whose every name is ignored, such as "Ignored Supplier 1" and "Ignored Supplier 2" from server/tests/test_ignore_list.py:91-105; the output is non-empty and its first supplier is ignored | filter out ignored names before grouping, as server/tests/test_ignore_list.py:71-122 expects | not executed | Deduplication.IgnoredSuppliersSurvive | Deduplication.IgnoringDropsIgnored |
