# Movie recommender feature pipeline and top-5 lookup, in Dafny

This project models the core of `recommend.py`, a batch script that builds a
content-based movie recommender from the TMDB movie and credits tables. The
model covers two parts:

* **Feature extraction.** Each movie's nested columns are lists of
  `{name, job, ...}` records. `convert` takes every name. `convert3` takes the
  first three names. `fetchDirector` takes the name of the first crew member
  whose job is `Director`. Spaces are removed from every name. The tag list is
  the overview's tokens, then genres, cast and director. The `keywords` column
  is flattened, but it is left out of the tags. The list is joined with single
  spaces and lower-cased, and the persisted tag string is the stemmed version
  of that text.
* **Lookup.** `recommend(movie)` finds the first row with that title. It sorts
  `enumerate` of that row of the similarity matrix by score, descending. The
  sort is stable, so equal scores keep ascending index order. It then takes
  the slice `[1:6]` and maps the indices back to titles.

Modules:

| file | module | contents |
|---|---|---|
| `results.dfy` | `Results` | `Option`, `Result` and the script's errors (`KeyError`, title not found, row out of range) |
| `text.dfy` | `Text` | Python's `str.split()`, `" ".join`, `str.lower()` and `str.replace(" ", "")`, with their round-trip and commutation lemmas |
| `extract.dfy` | `Extract` | decoded records, `convert`, `convert3`, `fetchDirector` and space stripping |
| `pipeline.dfy` | `Pipeline` | per-row decoding, tag list, tag string, `stem`, and the column-by-column batch |
| `ranking.dfy` | `Ranking` | the stable descending sort of row indices and the `[1:6]` slice |
| `lookup.dfy` | `Lookup` | title resolution and `recommend`, plus the lookup as literally written (see Findings) |

The model keeps three things abstract. Decoding of the serialized columns is
not modelled: the input is already a list of records. The stemmer is an
uninterpreted `string -> string` parameter. The similarity matrix is an input:
a square `seq<seq<real>>`.

Three behaviours of the code are worth stating up front:

* `recommend` drops sorted position 0, whatever movie sits there. The
  queried movie itself is returned exactly when one to five movies rank ahead
  of it (`Ranking.ReturnedIffOneToFiveAhead`). For example, a query whose own
  score is the highest in its row comes back when one earlier movie ties with
  it (`Lookup.QueryReturnedOnTie`), but not behind six earlier ties
  (`Lookup.QueryDroppedBehindSixTies`). The model claims exclusion in general
  only when the query's self-score is strictly the highest
  (`Ranking.StrictSelfMatchIsExcluded`).
* Vectorizing uses the unstemmed, lower-cased string (line 76); only the
  persisted column is stemmed (line 79). The model's movie table carries the
  stemmed string.
* A record that lacks the key the code reads fails with `KeyError`. Records
  that are never read (a fourth cast member, crew after the director) cannot
  cause an error.

## Model

| member | source | states |
|---|---|---|
| `Extract.Convert` | recommend.py:22-26 | succeeds exactly when every record has a name; then the result has one entry per record, each the record's name, in order; otherwise KeyError('name') |
| `Extract.Convert3` | recommend.py:29-38 | succeeds exactly when the first min(3, n) records have names; then it returns those names, in order; records after the third are never read |
| `Extract.Convert3IsPrefixOfConvert` | recommend.py:22-38 | whenever `convert` succeeds, `convert3` succeeds too and returns the first min(3, n) entries of `convert`'s result |
| `Extract.Convert3IgnoresTail` | recommend.py:29-38 | a fourth record without a name does not stop `convert3`, though it makes `convert` fail |
| `Extract.FetchDirector` | recommend.py:41-47 | returns at most one name. If the first record with job Director comes after records that all have another job, the result is that record's name (KeyError('name') if it has none). A missing job before it gives KeyError('job'). The result is empty exactly when every record has a job other than Director |
| `Extract.NoDirectorIsEmpty` | recommend.py:41-47 | a crew with jobs but no Director yields an empty list, not an error |
| `Extract.StripSpaces` | recommend.py:63-66 | keeps the number and order of names; each result is its name with spaces removed and contains no space |
| `Text.RemoveSpaces` | recommend.py:63 | the result has no space; every other character occurs as often as in the input; a name without spaces is unchanged |
| `Text.RemoveSpacesAppend` | recommend.py:63 | removing spaces works piece by piece, so the kept characters stay in their original order |
| `Text.Split` | recommend.py:61 | every token of `str.split()` is non-empty and contains no whitespace |
| `Text.SplitWordThen` | recommend.py:61 | a whitespace-free word followed by whitespace or by the end is one token: tokens are maximal whitespace-free runs |
| `Text.SplitSpacesThen` | recommend.py:61 | leading whitespace of any length and kind produces no token; with the two rows above and the empty string giving no tokens, this fixes `str.split()` on every input |
| `Text.SplitKeepsText` | recommend.py:61 | the tokens laid end to end are exactly the input's non-whitespace characters, in order |
| `Text.JoinLayout` | recommend.py:54 | `" ".join` lays the words out in order, each word starting where the earlier words and one space after each of them end, with one space after every word but the last and nothing else; with `Text.JoinCounts` and `Text.SplitJoin` this carries the contract of `Text.Join` (also used at line 72) |
| `Text.SpaceJoinedUnique` | recommend.py:54 | that layout determines the string: any string laid out that way is the join |
| `Text.JoinCounts` | recommend.py:54 | the join's space count is the words' own spaces plus one fewer than the number of words, and every other character occurs as often as in the words |
| `Text.SplitJoin` | recommend.py:52-54 | splitting the single-space join of single-word tokens gives the tokens back |
| `Text.LowerJoin` | recommend.py:72-73 | lower-casing a joined string is joining the lower-cased words: the separators survive `.lower()` |
| `Text.Lower` | recommend.py:73 | keeps the length and every whitespace position; each upper-case ASCII or Latin-1 letter becomes the letter 32 code points above it; every other character is unchanged |
| `Text.LowerIdempotent` | recommend.py:73 | lower-casing a lower-cased string changes nothing |
| `Text.SplitLower` | recommend.py:72-73 | the tokens of the lower-cased text are the lower-cased tokens of the text |
| `Pipeline.Decode` | recommend.py:57-66 | a row decodes exactly when all four column helpers succeed on it. Then the overview becomes whitespace-free words, genres and keywords keep one name per record, cast has min(3, n) names, crew has at most one, and no name contains a space |
| `Pipeline.TagsLayout` | recommend.py:68 | carries the contract of `Pipeline.Tags`: a decoded row's tag list is its overview tokens, then its genre names, its first three cast names and its director, each with spaces removed; keywords do not appear |
| `Pipeline.KeywordsNeverReachTags` | recommend.py:68 | two rows that differ only in their decodable keywords get the same tag string |
| `Pipeline.KeywordsCanAbort` | recommend.py:58 | a keyword record without a name still makes the row fail with KeyError('name') |
| `Pipeline.TagString` | recommend.py:72-73 | the tag string is unchanged by lower-casing it again; it is the lower-cased tags laid out in order with one space after each tag but the last, and its character counts are the tags' plus those separators |
| `Pipeline.TagStringTokens` | recommend.py:68-73 | when every tag is a single word, the tag string splits into exactly the lower-cased tags: overview tokens, then genres, cast and crew |
| `Pipeline.Stem` | recommend.py:50-54 | for any stemmer, the result is the stems of the whitespace tokens laid out in order with one space after each stem but the last, which determines it; its character counts are the stems' plus those separators; when the stemmer maps each token to a single word, the stemmed text splits into the stemmed tokens of the input, in order |
| `Pipeline.Column` | recommend.py:57-60 | a column succeeds exactly when its helper succeeds on every row, giving one result per row; otherwise it fails with the error of the first failing row |
| `Pipeline.Build` | recommend.py:57-79 | the batch succeeds exactly when every row decodes on its own; then each movie keeps its id and title and its tags are the stemmed tag string of its decoded row; a failure is always a KeyError |
| `Pipeline.ColumnOrderDecidesError` | recommend.py:57-60 | the batch reports the first failing column, not the first failing row: a genre without a name in row 2 beats a crew member without a job in row 1 |
| `Ranking.Insert` | recommend.py:91 | inserting a later index behind every index that scores at least as high keeps the list strictly ordered by (score descending, index ascending) and adds exactly that index |
| `Ranking.Rank` | recommend.py:91 | lists every index once, ordered by descending score with equal scores in ascending index order |
| `Ranking.RankedUnique` | recommend.py:91 | two such orderings of the same indices are equal, so the stable sort's output is fully determined |
| `Ranking.Slice` | recommend.py:91 | Python's `xs[lo:hi]`: both ends clamped to the length, empty when the clamped end is not past `lo`, and element i is `xs[lo + i]` |
| `Ranking.TopFive` | recommend.py:91 | returns min(5, n-1) indices (none when n <= 1) with non-increasing scores. The single index ranked first is never among them. Every other index left out ranks behind all of them |
| `Ranking.TopFiveOfAnyStableSort` | recommend.py:91 | the result equals positions 1 to 5 of any stable descending sort of the indices |
| `Ranking.PlaceIsCountAhead` | recommend.py:91 | the place of an index in the stable descending sort is the number of indices listed ahead of it |
| `Ranking.ReturnedIffOneToFiveAhead` | recommend.py:91 | an index, the queried movie's own included, is among the results exactly when one to five indices rank ahead of it |
| `Ranking.StrictSelfMatchIsExcluded` | recommend.py:91 | a row whose own score is strictly above every other is not among the results |
| `Lookup.FirstIndex` | recommend.py:89 | finds nothing exactly when the title is absent; otherwise the position holds the title and no earlier position does |
| `Lookup.TitlesAt` | recommend.py:94-95 | one title per picked position, in the order of the picks, each the title stored at that position |
| `Lookup.Recommend` | recommend.py:87-95 | an unknown title is an error; otherwise the result has min(5, n-1) titles, and they are the titles at positions 1 to 5 of the ranking of the first matching row |
| `Lookup.QueryReturnedOnTie` | recommend.py:89-91 | with two movies scoring 1.0 against each other, asking for the second returns the second itself |
| `Lookup.SevenTiesTopFive` | recommend.py:90-91 | seven equal scores rank in table order, so the slice holds indices 1 to 5 |
| `Lookup.QueryDroppedBehindSixTies` | recommend.py:89-95 | with seven movies all scoring 1.0, asking for the last returns the second to sixth titles and not the query |
| `Lookup.RecommendByLabel` | recommend.py:89-90 | as written: the first match's row label is used as the matrix row, which is out of range past the end; titles are still taken by position |
| `Lookup.LabelsAgreeWhenNoRowDropped` | recommend.py:89-90 | when labels equal positions, the lookup as written and the positional lookup agree |
| `Lookup.PositionLookupOfB` | recommend.py:89-95 | in the three-movie example, asking for "B" by position returns "A", "C" |
| `Lookup.LabelLookupOfBUsesRowOfC` | recommend.py:89-95 | in the same example, with labels 0, 2, 3, asking for "B" ranks by the row of "C" and returns "B", "A" |
| `Lookup.LabelLookupOfCFails` | recommend.py:89-90 | in the same example, asking for "C" reads row 3 of a three-row matrix |

## Findings

| source | as written | input that shows it | evidently intended | confidence | as-written member | corrected member |
|---|---|---|---|---|---|---|
| recommend.py:89-90 | `.index[0]` returns the pandas row label, which `dropna` (line 19) leaves with gaps, and `similarity[movie_index]` reads it as a row position | rows "A", "B", "C" kept with labels 0, 2, 3: asking for "B" ranks by the row of "C"; asking for "C" reads past the end of the matrix | look up the similarity row by the movie's position in the table | high (pandas label semantics); not executed | `Lookup.RecommendByLabel` (`Lookup.LabelLookupOfBUsesRowOfC`, `Lookup.LabelLookupOfCFails`) | `Lookup.Recommend` (`Lookup.PositionLookupOfB`, `Lookup.LabelsAgreeWhenNoRowDropped`) |

## Left out

- CSV loading, the title merge and `dropna` (recommend.py:14-19): file I/O and pandas. The model takes complete rows. The labels `dropna` leaves appear only as the input of `Lookup.RecommendByLabel`.
- `ast.literal_eval` (recommend.py:24, 32, 43): a foreign parser. Records arrive decoded, with only the `name` and `job` keys, both strings. A string that does not parse is not modelled.
- `CountVectorizer`, `cosine_similarity` and the vocabulary (recommend.py:75-76, 81): library code over floating point. The similarity matrix is an input, scores are `real`, and NaN is not modelled.
- Lines 82 and 84 are not modelled. Line 82 stores the matrix's `.shape` in `similarity`, and line 84 compares titles against a whole DataFrame.
- The Porter stemmer (recommend.py:78): an uninterpreted function parameter.
- `pickle.dump` (recommend.py:98-99) and `print` (recommend.py:95): `Lookup.Recommend` returns the titles instead of printing them.
- film_analysis.py: a dashboard over spreadsheet I/O and charts, with no part in the recommender.
- Text.Lower: maps only ASCII and Latin-1 upper-case letters. Other Unicode case mappings, including those that change a string's length, are not modelled.
- Pipeline.Build: its own contract states only that a failure is a KeyError. Which error is reported is pinned down by `Pipeline.Column` and the `Pipeline.ColumnOrderDecidesError` example.
