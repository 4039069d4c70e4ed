# tenant-screening: the match-and-classify core in Dafny

This project models the core of the tenant-screening matcher. The matcher
compares a candidate tenant with records from a blacklist provider in these
steps:

1. Keep only the records whose `pipeline.type` is `"refinitiv-blacklist"`.
2. Normalise every name: non-word runs become a space, the name is stripped
   and lower-cased, and the Spanish particles `de`, `la`, `del`, `los` and
   `las` are dropped.
3. Score each record: the name similarity (`fuzz.ratio`), plus 10 points for
   each of birthdate, nationality and age that agrees, capped at 100.
4. Derive a confidence tier and a provisional classification from the score.
5. Ask an AI completion service to reclassify every record scoring 60..80.
6. Sort the results, highest score first.

The model is functional: dictionaries become immutable records, and lists
become sequences. The similarity ratio is a parameter. The completion service
is an oracle: a function from the call number and the two records to a reply
or a failure.

Modules:

- `Wrappers`: `Option` and `Result`.
- `Strings`: the Python `str` operations normalisation uses: `re.sub(r'\W+', ' ', …)`, `strip`, `lower`, `split` and `" ".join`.
- `Names`: `clean_name` and `normalize_name`.
- `Records`: candidate and result dictionaries, and the exceptions.
- `Scoring`: `calculate_match_score`.
- `AiHelper`: the constructor and `query_chatgpt` of `AIHelper`.
- `Ranking`: the stable descending sort the screening run applies.
- `Matcher`: the source filter, `classify` as written and as corrected (see Findings), and the screening run, classification followed by sorting, for each.
- `PartialAnswers`: the run behind the finding below, on which the as-written and the corrected `classify` differ.

Two design points of the source shape the model:

- **`classify` works on its argument.** It does not read the filtered `self.blacklist_data`, and the example run passes the unfiltered list. So the filter is modelled as its own function, and nothing assumes it feeds scoring.
- **A missing key and a JSON null are the same.** Each dictionary key is an `Option` field, so `None` stands for both.

## Model

| member | source | states |
|---|---|---|
| `Strings.ReplaceNonWord` | Challenge/tenant_screening/matcher.py:30 | the result holds only spaces and word characters, never two spaces in a row, keeps exactly the word characters of the input in order, is empty iff the input is, and starts with a word character iff the input does |
| `Strings.ReplaceNonWordEnd` | Challenge/tenant_screening/matcher.py:30 | a non-empty input ends with a word character iff its replacement does |
| `Strings.ReplaceAroundRun` | Challenge/tenant_screening/matcher.py:30 | between a word ending in a word character and one starting with a word character, any non-empty run of non-word characters becomes exactly one space, and the two sides are replaced independently |
| `Strings.ReplaceAfterWord` | Challenge/tenant_screening/matcher.py:30 | after a word character, replacement restarts: the replacement of `x + z` is that of `x` followed by that of `z` when `z` starts with a non-word character |
| `Strings.ReplaceLeadingRun` | Challenge/tenant_screening/matcher.py:30 | a leading non-empty run of non-word characters before a word becomes one space |
| `Strings.Strip` | Challenge/tenant_screening/matcher.py:30 | the result is the slice of the input between its leading and trailing whitespace, with no whitespace at either end; a string without edge whitespace is its own strip |
| `Strings.Split` | Challenge/tenant_screening/matcher.py:32 | every token is non-empty, contains no whitespace, and is made of characters of the input; the tokens written one after another are exactly the non-whitespace characters of the input, in order |
| `Strings.SplitBlank` | Challenge/tenant_screening/matcher.py:32 | a string of whitespace only has no tokens |
| `Strings.SplitJoin` | Challenge/tenant_screening/matcher.py:32 | joining (`Strings.Join`) whitespace-free, non-empty tokens with single spaces and splitting again gives the same tokens |
| `Strings.SplitAroundSpace` | Challenge/tenant_screening/matcher.py:32-34 | for any whitespace character `c`, splitting `x + c + y` gives the tokens of `x` followed by those of `y` |
| `Names.DropStopWordsKeeps` | Challenge/tenant_screening/matcher.py:31-32 | a token survives the particle filter iff it is in the input and is not one of de, la, del, los, las; a list without particles is kept whole |
| `Names.DropStopWordsConcat` | Challenge/tenant_screening/matcher.py:31-32 | filtering a concatenation filters each part and keeps them in order, so the surviving tokens keep their relative order |
| `Names.DropStopWordsCounts` | Challenge/tenant_screening/matcher.py:31-32 | every token that is not a particle survives exactly as often as it occurs, and a particle never survives |
| `Names.CleanNameForm` | Challenge/tenant_screening/matcher.py:29-32 | `clean_name` (`Names.CleanName`) always yields clean tokens (non-empty, lower-case word characters, no particle) joined by single spaces |
| `Names.CleanNameShape` | Challenge/tenant_screening/matcher.py:29-32 | at character level, `clean_name` output has no space at either end, never two spaces in a row, every other character is a lower-case word character, and no token is a particle |
| `Names.CleanNameIdempotent` | Challenge/tenant_screening/matcher.py:29-32 | cleaning a cleaned name changes nothing |
| `Names.CleanNameFixedPoints` | Challenge/tenant_screening/matcher.py:29-32 | a string is left unchanged by `clean_name` iff it is in clean form, so the clean forms are exactly the image of `clean_name` |
| `Names.CleanNameOfWords` | Challenge/tenant_screening/matcher.py:29-32 | on non-empty words joined by single spaces, `clean_name` only lower-cases each word (`Strings.Lower`) and drops the particles |
| `Names.NormalizeNameTokens` | Challenge/tenant_screening/matcher.py:34 | the tokens of `normalize_name(f, l)` (`Names.NormalizeName`) are those of `clean_name(f)` followed by those of `clean_name(l)`; the result is in clean form iff neither half cleans to the empty string |
| `Names.ParticlesDropped` | Challenge/tenant_screening/matcher.py:29-34 | for single words `f` and `l`, `normalize_name(f, "de la " + l)` is `f` and `l` lower-cased and joined by one space; accents are kept |
| `Scoring.AttributeBonus` | Challenge/tenant_screening/matcher.py:45-49 | the bonus is 10 times the number of agreeing attributes among birthdate, nationality and age, so it is one of 0, 10, 20, 30 |
| `Scoring.FinalScore` | Challenge/tenant_screening/matcher.py:50 | the final score lies between the ratio and the ratio plus the bonus, and is either 100 or their exact sum |
| `Scoring.ScoreMonotone` | Challenge/tenant_screening/matcher.py:45-50 | with the name similarity held fixed, a result agreeing with the candidate on at least as many attributes never scores lower |
| `Scoring.ScoreMonotoneSubset` | Challenge/tenant_screening/matcher.py:45-50 | of two results with the same names, the one agreeing on a superset of attributes never scores lower |
| `Scoring.Confidence` | Challenge/tenant_screening/matcher.py:52-56 | the tier is "High" iff the score exceeds 90, "Medium" iff it lies in 76..90, and "Low" iff it is at most 75 |
| `Scoring.Provisional` | Challenge/tenant_screening/matcher.py:61 | the classification is "relevant match" iff the score exceeds 80, otherwise "probably not relevant" |
| `Scoring.TiersAgree` | Challenge/tenant_screening/matcher.py:52-61 | a higher score never gets a lower tier; a relevant match is never "Low"; a "High" result is always a relevant match |
| `Scoring.ScoreRecord` | Challenge/tenant_screening/matcher.py:58-62 | the update sets all three keys; the score is `min(similarity + bonus, 100)`: it lies between the similarity and 100, exceeds the similarity by at most the bonus, and is either 100 or exactly the similarity plus the bonus; confidence and classification follow the score; no other key changes |
| `Scoring.CalculateMatchScore` | Challenge/tenant_screening/matcher.py:36-66 | scoring succeeds iff the candidate and every result have both name keys; otherwise it raises `KeyError`; on success (the loop `Scoring.ScoreAll`) it returns as many results as it was given, in order, each scored against the candidate's normalised name |
| `AiHelper.NewHelper` | Challenge/tenant_screening/ai_helper.py:13-18 | construction fails with the missing-key error iff neither the argument nor the environment gives a non-empty key; a non-empty argument wins over the environment; a constructed helper has a client |
| `AiHelper.MissingPromptKey` | Challenge/tenant_screening/ai_helper.py:27-43 | no lookup of the prompt fails iff both records have first name, last name, birthdate, nationality and age |
| `AiHelper.Adjudicate` | Challenge/tenant_screening/ai_helper.py:25-51 | the loop keeps length and order; it changes at most the classification of any result, and never touches one outside 60..80 |
| `AiHelper.QueryChatGpt` | Challenge/tenant_screening/ai_helper.py:20-53 | without a client the list comes back unchanged; otherwise the loop's guarantees apply to the returned list |
| `AiHelper.AdjudicateCompletes` | Challenge/tenant_screening/ai_helper.py:25-51 | the loop returns normally iff, for every result `i`, the `i`-th step succeeds; entry `i` is the call numbered by the in-band results before it; a step succeeds when the score is present and, if the score is in band, the prompt keys are present and the call answers |
| `AiHelper.AdjudicateCompleted` | Challenge/tenant_screening/ai_helper.py:25-51 | when the loop completes, each in-band result carries the stripped answer to its own call, and each other result is unchanged |
| `AiHelper.AdjudicateRaised` | Challenge/tenant_screening/ai_helper.py:25-51 | when the loop raises, there is a result at which it stopped: every step before it succeeded and its results are adjudicated, its own step fails, and it and the rest are as they were |
| `AiHelper.StopsAtUnique` | Challenge/tenant_screening/ai_helper.py:25-51 | the result at which the loop stops is unique, so it is the first failing one |
| `Ranking.Insert` | Challenge/tenant_screening/matcher.py:116 | inserting into a descending list keeps it descending and adds exactly the one element |
| `Ranking.InsertGroups` | Challenge/tenant_screening/matcher.py:116 | an inserted result goes in front of the results of its own score and leaves every other score group alone |
| `Ranking.SortByScore` | Challenge/tenant_screening/matcher.py:116 | the sorted list is descending by score, is a permutation of the input, and keeps the input order within each score |
| `Ranking.SortByScoreUnique` | Challenge/tenant_screening/matcher.py:116 | any descending arrangement that keeps input order within each score is the one `SortByScore` returns |
| `Matcher.FilterBlacklist` | Challenge/tenant_screening/matcher.py:22-24 | an entry is kept iff it is in the input and its pipeline type is "refinitiv-blacklist" |
| `Matcher.FilterCounts` | Challenge/tenant_screening/matcher.py:22-24 | each blacklisted entry is kept as often as it occurs, and no other entry is kept |
| `Matcher.FilterConcat` | Challenge/tenant_screening/matcher.py:22-24 | filtering a concatenation filters each part and keeps them in order, so retained entries keep their relative order |
| `Matcher.FilterKeepsBlacklisted` | Challenge/tenant_screening/matcher.py:22-24 | a list of blacklisted entries passes unchanged, so the filter is idempotent |
| `Matcher.NewMatcher` | Challenge/tenant_screening/matcher.py:13-25 | the matcher keeps the tenant and helper it was given and holds exactly the blacklisted entries, each as often as in the input and in input order (the filter of `Matcher.FilterConcat`) |
| `Matcher.ClassifyAsWritten` | Challenge/tenant_screening/matcher.py:68-78 | scoring errors propagate; otherwise the result is the list the helper left behind, whether it returned or raised; it differs from the scored list only in classifications of in-band results |
| `Matcher.Classify` | Challenge/tenant_screening/matcher.py:68-78 | corrected `classify`: scoring errors propagate; if adjudication raises, the result is exactly the scored list; otherwise it is the adjudicated list; every result keeps its score and confidence tier, and outside 60..80 keeps its provisional classification |
| `Matcher.ClassifyAndSort` | Challenge/tenant_screening/matcher.py:113-116 | the screening output is the as-written `classify` result in the stable descending order of score: descending, the same multiset, and input order kept within each score |
| `Matcher.AdjudicationFailureKeepsAnswers` | Challenge/tenant_screening/matcher.py:72-78 | when adjudication raises, the as-written run sorts the list the loop left: every result before the stopping one adjudicated, that one and the rest as scored |
| `Matcher.ClassifyAndSortCorrected` | Challenge/tenant_screening/matcher.py:113-116 | corrected run: the corrected `classify` result in the stable descending order of score |
| `Matcher.AdjudicationFailureFallsBack` | Challenge/tenant_screening/matcher.py:72-78 | corrected run: when adjudication raises, the output is the scored results in the stable descending order |
| `PartialAnswers.ClassifyKeepsPartialAnswers` | Challenge/tenant_screening/matcher.py:72-78 | with two in-band results, where the first call answers and the second fails: as written, the first answer stays in the returned list; the fallback returns "probably not relevant"; unless the answer is "probably not relevant" itself, the result holding it occurs nowhere in the corrected output |
| `PartialAnswers.SortedRunsDiffer` | Challenge/tenant_screening/matcher.py:72-78 | on the same run, the sorted screening outputs of the as-written and the corrected `classify` differ unless the answer is "probably not relevant" |

## Left out

- Logging, the `__main__` block's file I/O, JSON parsing and exit codes, the command-line script, `load_json` and packaging are not modelled. They are I/O or wiring.
- The internals of `fuzz.ratio` are not modelled. It is a parameter: any function from two strings to 0..100.
- The completion request is not modelled: the prompt text, model name, token limit and response parsing. An oracle returns the reply text or one of four failure kinds.
- `Strings.IsWordChar`: `\w` is exact up to U+00FF. Above that, every non-whitespace character counts as a word character. Python's Unicode tables are not reproduced.
- `Strings.LowerChar`: `str.lower` is exact up to U+00FF and the identity above. Multi-character lower-case expansions do not occur in that range.
- `Records.Record`: a key holding JSON null and a missing key are the same. Two results follow:
  - A present null `match_score` raises `TypeError` in Python; the model raises `KeyError`.
  - A present null prompt field prints as "None"; the model raises `KeyError`.
- Records hold only string or integer values. Non-string names, non-dict pipelines, floats, booleans and nested values are not modelled, nor the `TypeError`/`AttributeError` they cause.
- `Scoring.CalculateMatchScore`: the partly updated list is not returned when a later result raises `KeyError`. The exception escapes `classify`, so no caller sees that list.
- The failure branch of the sort (matcher.py:118-119) is not modelled. After scoring, every result has an integer score, so the sort key cannot fail.
- Accent folding is not modelled. The unit test at Challenge/tests/test_matcher.py:48-49 expects `normalize_name("José", "de la Cruz")` to be "jose cruz", but `clean_name` folds no accents. `Names.ParticlesDropped` states what the code produces: "josé cruz".
- The threshold fallback and `filter_results` API that the root tests and main script use are not modelled. No such code exists in the matcher source.

## Findings

| source | as written | input that shows it | evidently intended | confidence | as-written member | corrected member |
|---|---|---|---|---|---|---|
| Challenge/tenant_screening/matcher.py:72-78 | on an exception from `query_chatgpt`, `classify` returns the list `query_chatgpt` was editing in place, so answers written before the failure stay | two results scoring 70 (name ratio 50 plus two agreeing attributes); the service answers the first call and fails the second | the handler's message says it returns only match scores, so the scored results with their provisional classifications | medium; not executed | `Matcher.ClassifyAsWritten`, `Matcher.ClassifyAndSort`, `Matcher.AdjudicationFailureKeepsAnswers`, `PartialAnswers.ClassifyKeepsPartialAnswers`, `PartialAnswers.SortedRunsDiffer` | `Matcher.Classify`, `Matcher.ClassifyAndSortCorrected`, `Matcher.AdjudicationFailureFallsBack` |
