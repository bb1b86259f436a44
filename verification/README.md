# GKE MCP instructions retrieval, modelled in Dafny

The GKE MCP server ships a Markdown instructions document. Its
`get_instructions` tool answers a free-text question with the few sections of
that document that look most relevant. This project models that retrieval
engine (`pkg/tools/instructions/instructions.go`) and proves properties of it.
It has five parts:

- **Segmenter** (`parseMarkdown`). Splits the document into sections at every
  line whose trimmed form starts with `#`.
  - The heading's level is the length of the `#` run.
  - Its title is the rest of the line, trimmed.
  - Its content is the following lines, joined and trimmed.
  - Lines before the first heading belong to no section.
  - A section with an empty title or empty content is dropped.
- **Tokenizer** (`tokenize`). Returns the maximal runs of letters and numbers.
  A run is kept only if it is longer than one *byte*.
- **Scorer** (`calculateRelevanceScore`). Four matching rules per query term,
  then multiplicative boosts for high-value keywords, then normalisation by the
  square root of the section's word count.
- **Ranker** (`findRelevantSections`). Keeps the sections with a positive
  score, sorts them by descending score and keeps the first `maxSections`.
- **Handler** (`handleGetInstructions`). In order, it:
  - removes the trigger phrase that invoked the tool;
  - asks for a topic if nothing is left of the query;
  - clamps `max_sections` to between 1 and 10, with 3 as the default;
  - formats the ranked sections.

Files:

| file | module | contents |
|---|---|---|
| `unicode.dfy` | `Unicode` | `unicode.IsSpace`, UTF-8 byte length, the abstract letter/number and lower-case tables |
| `strings.dfy` | `Strings` | the Go `strings` functions the engine calls: `Contains`, `Count`, `ReplaceAll` with `""`, `TrimSpace`, `Split`, `Join` |
| `options.dfy` | `Options` | an optional value |
| `markdown.dfy` | `Markdown` | the segmenter, as written and as an independent block-by-block definition |
| `tokenizer.dfy` | `Tokenizer` | the tokenizer, as written and as "long maximal runs" |
| `scoring.dfy` | `Scoring` | the scorer's structure |
| `ranking.dfy` | `Ranking` | filtering, sorting, truncation |
| `handler.dfy` | `Handler` | trigger phrases, the clamp, the index, the response and its text |

Modelling choices:

- **Strings.** Go strings are walked rune by rune with `range`, so strings
  here are sequences of characters.
- **Byte length.** Go's `len` counts UTF-8 bytes. The model writes that count
  out as `ByteLen`, so both the tokenizer's "longer than one" test and the
  scorer's "longer than three" test are byte tests. A single non-ASCII letter
  therefore counts as a token (`Tokenizer.SingleLetter`). A plain reading of
  "single characters are filtered out" would say otherwise; the model follows
  the code.
- **Unicode tables.** `unicode.IsSpace` is written out in full.
  - `unicode.IsLetter || unicode.IsNumber` and `unicode.ToLower` are
    parameters (`CharClasses`).
  - The only assumption made about them, and only in examples, is that they
    agree with ASCII below 128 (`AsciiFaithful`).
- **Numerics.** Scores are reals.
  - `math.Log(c + 1)` and `math.Sqrt(n)` are parameters (`Numerics`): any
    functions positive on every count. The real functions are 0 at count 0,
    but the scorer applies them only to positive counts, so no contract
    depends on their value there.
  - The scorer's contract is therefore about structure: which rules fire, and
    when the score is zero or positive. It says nothing about magnitudes.

Each operation comes with a partner:

| operation | partner definition or property |
|---|---|
| one-pass segmenter | block-by-block definition, proved equal |
| buffered tokenizer | "long maximal runs" definition, proved equal |
| insertion sort | sortedness, the permutation property, and agreement with *every* descending order of the same entries |
| trigger stripping | the first-match definition `FirstTrigger`, the phrase-shadowing fact, and how much the query shrinks |
| response builder loop | recursive definition of the text |
| rendered section | parsing it gives the section back |

## Model

| member | source | states |
|---|---|---|
| Markdown.ParseMarkdown | pkg/tools/instructions/instructions.go:75-124 | every section returned has a non-empty trimmed title, non-empty trimmed content and a level of at least 1; there are never more sections than heading lines |
| Markdown.ParseMatchesSegments | pkg/tools/instructions/instructions.go:81-123 | the one-pass loop with an open section equals the block description: each heading owns the lines up to the next heading, text before the first heading is dropped, and a heading whose title or body trims to nothing yields no section |
| Markdown.IsHeadingIff | pkg/tools/instructions/instructions.go:82-85 | a line is a heading exactly when its trimmed form starts with `#`, i.e. when its first non-space character is `#` |
| Markdown.HeadingLevel | pkg/tools/instructions/instructions.go:95-102 | a heading line has level at least 1 |
| Markdown.HeadingTitle | pkg/tools/instructions/instructions.go:104-107 | a heading's title has no surrounding white space |
| Markdown.HeadingRoundTrip | pkg/tools/instructions/instructions.go:95-107 | reading back a line `###… title` (level ≥ 1, title non-empty and trimmed) gives that heading, that level and that title |
| Markdown.ExampleLevelThree | pkg/tools/instructions/instructions.go:95-107 | `### Title` is a level-3 heading titled `Title` |
| Markdown.PreambleDiscarded | pkg/tools/instructions/instructions.go:109-112 | putting heading-free lines in front of a document does not change its sections |
| Markdown.RenderSectionRoundTrip | pkg/tools/instructions/instructions.go:187-193 | segmenting the text the handler writes for one section (one-line title, no heading-like content line) gives back exactly that section |
| Markdown.ExampleEmptyBodyDropped | pkg/tools/instructions/instructions.go:87-92 | `# A` directly followed by `# B` and a body yields only section `B`: a heading with no body is dropped |
| Markdown.SegmentsWellFormed | pkg/tools/instructions/instructions.go:88-90 | the block description only produces sections with non-empty trimmed title and content |
| Tokenizer.Tokenize | pkg/tools/instructions/instructions.go:307-335 | every token is made only of letters and numbers and is longer than one byte |
| Tokenizer.TokenizeMatchesRuns | pkg/tools/instructions/instructions.go:307-335 | the buffered scan yields exactly the maximal runs of letters and numbers that are longer than one byte, in order, repetitions kept |
| Tokenizer.RunsSpec | pkg/tools/instructions/instructions.go:312-323 | every maximal run is non-empty and made only of letters and numbers |
| Tokenizer.LongSpec | pkg/tools/instructions/instructions.go:318-320 | the kept runs are runs of the input that are longer than one byte |
| Tokenizer.TokenizeSeparator | pkg/tools/instructions/instructions.go:312-323 | any character that is neither letter nor number splits the text: the tokens of `a c b` are the tokens of `a` followed by those of `b` |
| Tokenizer.NoWordNoTokens | pkg/tools/instructions/instructions.go:312-324 | text with no letter or number has no tokens |
| Tokenizer.SingleLetter | pkg/tools/instructions/instructions.go:316-320 | a lone letter is dropped when ASCII and kept when not, because the length test counts bytes |
| Tokenizer.ExampleSingleLettersDropped | pkg/tools/instructions/instructions.go:307-335 | `"a bb ccc"` tokenizes to `["bb", "ccc"]` |
| Scoring.BoostsAtLeastOneAndHalf | pkg/tools/instructions/instructions.go:275-288 | every keyword boost is at least 1.5, so boosting never shrinks a score |
| Scoring.TitleOverlapsPositive | pkg/tools/instructions/instructions.go:251-255 | the title-term loop adds something exactly when some title term contains or is contained in the query term |
| Scoring.ContentOverlapsPositive | pkg/tools/instructions/instructions.go:265-271 | the content-term loop adds something exactly when some content term overlaps the query term and both are longer than three bytes |
| Scoring.TermScore | pkg/tools/instructions/instructions.go:244-272 | a query term's contribution is never negative, and is positive exactly when one of the four rules matches: title contains it, a title term overlaps it, content contains it, a long content term overlaps it |
| Scoring.SumTermScores | pkg/tools/instructions/instructions.go:244-272 | the per-term loop's total is positive exactly when some query term matches the section |
| Scoring.ApplyBoosts | pkg/tools/instructions/instructions.go:290-296 | boosting keeps a score's sign, keeps zero at zero and never lowers a non-negative score |
| Scoring.CalculateRelevanceScore | pkg/tools/instructions/instructions.go:228-305 | the score is 0 for an empty query, never negative, and positive exactly when some query term matches the section by one of the four rules |
| Ranking.PositivesSpec | pkg/tools/instructions/instructions.go:205-214 | the filter keeps exactly the sections with a positive score, each paired with its own score |
| Ranking.InsertSpec | pkg/tools/instructions/instructions.go:216-219 | inserting into a descending list keeps it descending and adds exactly that entry |
| Ranking.SortSpec | pkg/tools/instructions/instructions.go:216-219 | the sort returns a permutation of its input in descending order of score |
| Ranking.Truncate | pkg/tools/instructions/instructions.go:220-223 | the list is cut to its first k entries when longer than k and kept whole otherwise |
| Ranking.Rank | pkg/tools/instructions/instructions.go:203-225 | the ranking has min(k, number of positive sections) entries, in descending score order, each a section of the index with its own positive score |
| Ranking.RankKeepsBest | pkg/tools/instructions/instructions.go:216-223 | the ranking is drawn from the positive sections, includes all of them when there are at most k, and no dropped one outscores any kept one |
| Ranking.RankSelectsTopK | pkg/tools/instructions/instructions.go:216-223 | a section with a positive score that is not ranked lost to a full ranking of k sections scoring at least as much |
| Ranking.FindRelevantSections | pkg/tools/instructions/instructions.go:199-226 | at most maxSections entries, descending, each a section of the index some query token matches; with room for one, nothing is returned exactly when no section is matched by any query token |
| Ranking.RankEmptyIff | pkg/tools/instructions/instructions.go:203-225 | with room for at least one entry, the ranking is empty exactly when no section scores above zero |
| Ranking.SortedPermutationsAgree | pkg/tools/instructions/instructions.go:216-218 | any two descending orders of the same entries have the same score at every position |
| Ranking.RankTieOrderIrrelevant | pkg/tools/instructions/instructions.go:216-218 | whatever order an unstable sort gives to equal scores, the truncated ranking has the same length and the same score at every position |
| Ranking.ExampleTopTwo | pkg/tools/instructions/instructions.go:203-225 | scores 5, 1, 3, 0, 8 with room for two give the sections scoring 8 and 5, in that order |
| Handler.FirstTrigger | pkg/tools/instructions/instructions.go:143-150 | the phrase chosen is the first in list order that the lower-cased query contains; there is none exactly when the query contains no phrase |
| Handler.StripTriggers | pkg/tools/instructions/instructions.go:134-150 | a query containing no trigger phrase is searched as given, case kept; otherwise the result is the lower-cased query with every occurrence of the first phrase it contains (`FirstTrigger`) removed, then trimmed, and it is at least 20 characters (the shortest phrase) shorter than the query |
| Handler.ExampleMixedCaseStripped | pkg/tools/instructions/instructions.go:134-150 | "Using the GKE MCP Instructions logging" is searched as "logging": matching ignores case, and the result is lower-cased |
| Handler.RemovalShrinks | pkg/tools/instructions/instructions.go:144-146 | removing every occurrence of a phrase the query contains shortens it by at least the phrase's length |
| Handler.ShadowedPhrases | pkg/tools/instructions/instructions.go:135-149 | "with gke mcp instructions" and "from gke mcp instructions" are never the phrase removed, because the shorter "gke mcp instructions" inside them is tried first |
| Handler.ExampleWithPhraseKeepsWith | pkg/tools/instructions/instructions.go:143-155 | the query "with gke mcp instructions" becomes "with", so the handler searches for that word instead of asking for a topic |
| Handler.ExampleNoTrigger | pkg/tools/instructions/instructions.go:143-150 | `Logging` is searched as `Logging`, case kept |
| Handler.EffectiveMaxSections | pkg/tools/instructions/instructions.go:157-170 | the section count is always between 1 and 10: 3 when absent, the given count when within range, otherwise the nearer bound |
| Handler.ClampStable | pkg/tools/instructions/instructions.go:166-170 | clamping an already clamped count changes nothing, and the clamp preserves the order of requested counts |
| Handler.ExampleClamp | pkg/tools/instructions/instructions.go:157-170 | nothing gives 3, 0 gives 1, 999 gives 10, 5 gives 5 |
| Handler.NewInstructionsRag | pkg/tools/instructions/instructions.go:64-73 | every indexed section has a non-empty trimmed title and content and a positive level, and there are at most as many as heading lines |
| Handler.HandleGetInstructions | pkg/tools/instructions/instructions.go:126-177 | missing query → error; empty stripped query → guidance; no results → no index section is matched by any token of the stripped query; found → 1 to the clamped count of entries, descending, each an index section that a token of the searched query matches |
| Handler.ExampleMissingQuery | pkg/tools/instructions/instructions.go:127-130 | without a query the handler answers with an error and does not search |
| Handler.RenderedSectionsSnoc | pkg/tools/instructions/instructions.go:182-194 | appending a section to the answer adds the separator and then that section's text |
| Handler.FormatResult | pkg/tools/instructions/instructions.go:178-196 | the builder loop produces the header followed by the sections' texts separated by `\n---\n\n`, as the recursive description says |
| Strings.ContainsIff | pkg/tools/instructions/instructions.go:144 | `strings.Contains` holds exactly when there is a position where the pattern occurs |
| Strings.ContainsTransitive | pkg/tools/instructions/instructions.go:144 | a substring of a substring is a substring |
| Strings.CountPositiveIffContains | pkg/tools/instructions/instructions.go:258-259 | `strings.Count` is positive exactly when the pattern occurs |
| Strings.RemoveAllLength | pkg/tools/instructions/instructions.go:146 | `ReplaceAll` with `""` shortens the text by the pattern's length times its `Count` |
| Strings.TrimSpaceSpec | pkg/tools/instructions/instructions.go:147 | `TrimSpace` returns the slice of its input between leading and trailing white space: an occurrence of the result in the input with only white space before and after it, itself without white space at either end; empty exactly for all-space input, and unchanged input when neither end is white space |
| Strings.SplitCount | pkg/tools/instructions/instructions.go:76 | `Split` on a text with n newlines gives n + 1 lines |
| Strings.JoinSplit | pkg/tools/instructions/instructions.go:76 | joining the lines `Split` returns gives the document back |
| Strings.SplitJoin | pkg/tools/instructions/instructions.go:88 | splitting the join of newline-free lines gives those lines back |

## Left out

- Tool registration (`Install`) and the MCP request/response plumbing. The
  model takes the query and `max_sections` already extracted. A query that is
  missing or not a string is `None`.
- `max_sections` is taken as the integer after Go's `int(float64)`
  conversion. Truncation toward zero, NaN and out-of-range floats are not
  modelled. A value that is absent or not a number is `None`.
- The embedded instructions document (`install.GeminiMarkdown`) is a
  parameter of `NewInstructionsRag`. Its contents are not part of this model.
- The exact texts of the error, guidance and "no results" messages. The model
  returns a constructor for each. The text of a successful answer is modelled
  (`FormatResult`).
- Scoring.CalculateRelevanceScore: floating point, `math.Log` and
  `math.Sqrt` are left abstract. The arithmetic is on reals, so rounding,
  overflow and the exact magnitudes are not modelled. The contract is about
  when a score is zero or positive, not its size. The order in which boosts
  are applied does not matter over the reals.
- Unicode letter, number and lower-case tables are parameters. Their contents
  are not modelled, and invalid UTF-8 is not modelled.
- Ranking.Rank: `sort.Slice` is not stable, so equal scores may come out in
  any order. The model sorts with a stable insertion sort.
  `RankTieOrderIrrelevant` proves that any other descending order gives the
  same scores at every position. The sections at tied positions are not
  determined.
- Handler.StripTriggers: the contract does not state that the phrase is
  gone from the result. That would be false: removing one occurrence can
  join two fragments into a new one, and `strings.ReplaceAll` does not
  rescan.
