# NASA Space Biology Knowledge Engine — text pipeline model

A Dafny model of the live half of `app1.py` (lines 89–181). The script is a
Streamlit page over a table of publications, each a `(Title, Link)` row. Behind
the page is a small text pipeline:

- the **keyword filter** picks the result rows (`str.contains(query, case=False, na=False)`);
- the **summariser** `make_summary` cuts long titles to 12 words plus `" ..."`;
- the **tokeniser** `re.findall(r'\b[a-z]+\b', ...)` runs over the joined, lowercased titles;
- the **stopword filter** drops a fixed set of 20 words;
- the **ranker** `Counter(...).most_common(10)` lists the most frequent tokens;
- the **risk highlighter** wraps seven risk words in `**` markers, one `re.sub` per word;
- the **audience dispatch** runs exactly one of the Scientist, Manager and
  Mission Architect views over the results, or none when nothing matched.

Modules, one per component:

- `TextUtil` (`text_util.dfy`): character classes, ASCII `lower()`, `join`, substring search.
- `SeqUtil` (`seq_util.dfy`): an order-preserving filter `Keep` (list comprehension) and subsequences.
- `Summary` (`summary.dfy`): `str.split()` and `make_summary`.
- `Search` (`search.dfy`): records, titles that may be missing, and the keyword filter.
- `Tokenize` (`tokenize.dfy`): the `\b[a-z]+\b` tokeniser, the stopword set and its filter.
- `Ranking` (`ranking.dfy`): the `Counter` loop, the `most_common` specification and a selection method meeting it.
- `Highlight` (`highlight.dfy`): one `re.sub` as `Wrap`, its inverse `Unwrap`, and the loop over the risk words.
- `Views` (`views.dfy`): the audience dispatch; each view is returned as data instead of being drawn.

Modelling decisions:

- A title is `Present(text)` or `Missing` (a NaN cell). The filter never keeps
  a missing title for a non-empty query. With an empty query every row is kept,
  and a view that then reads a missing title raises in the script: `" ".join`,
  `text.split()` and `re.sub` all fail on a float. The model returns the view
  `MissingTitle` for that case instead of excluding it by a precondition.
- `str.split()` splits on exactly the code points for which CPython's `str.isspace()` holds.
- `\w` and `\b` are taken over ASCII: letters, digits and `_`.
- The pattern `\b[a-z]+\b` does not extract maximal letter runs: a match must
  start and end at a `\w` boundary, so a letter run that touches a digit or an
  underscore yields nothing (`covid19` gives no token, not `covid`).
  `TokensOfRun` and `NoTokenNextToDigit` state this.
- `most_common(n)` sorts by count, descending, with a stable sort, so ties keep
  the `Counter`'s first-seen key order. `IsMostCommon` specifies exactly that
  list, and `MostCommonUnique` proves it leaves no choice open.
- The risk words are applied one after the other, as the code does: each
  `re.sub` runs over the output of the previous one. `WrapKeepsWrapped` states
  when a later substitution leaves an earlier `**match**` alone: its word holds
  no `*` and does not occur inside the earlier match. `RiskWordsApart` proves
  that no risk word occurs, in any case, inside a match of an earlier one, so
  `RiskWrapKept` applies this to the seven words: no match is wrapped twice.
  `Unwrap` undoes one substitution exactly, so the highlighted title always
  determines the title. The highlighter's case-insensitive occurrence is the
  keyword filter's lowercase containment (`ContainsIgnoringCaseIff`).

## Model

| member | source | states |
|---|---|---|
| `TextUtil.Lower` | app1.py:155 | `str.lower()`: same length, each ASCII capital replaced by its small letter, every other character kept |
| `TextUtil.Join` | app1.py:111 | `sep.join(parts)`: empty for no parts; otherwise starts with the first part and is as long as all parts plus one separator between each neighbouring pair |
| `SeqUtil.Keep` | app1.py:157-161 | a list comprehension with a condition: exactly the elements satisfying it, each as often as in the input, as an order-preserving subsequence |
| `Summary.Words` | app1.py:108 | `text.split()`: every field is non-empty and holds no whitespace |
| `Summary.WordsOfJoin` | app1.py:111 | splitting `" ".join(words)` (and any whitespace-led tail) gives the words back: join and split round-trip |
| `Summary.MakeSummary` | app1.py:107-111 | `make_summary(t)`: its words are all of `t`'s words when `t` has at most 15, otherwise `t`'s first 12 followed by `...` |
| `Summary.WordsOfCut` | app1.py:111 | splitting `" ".join(words) + " ..."` gives the words followed by `...` |
| `Summary.SummaryShape` | app1.py:109-111 | a title of at most 15 words comes back unchanged; a longer one becomes its first 12 words joined by single spaces plus `" ..."`, which has 13 words |
| `Summary.SummaryIsShort` | app1.py:108-111 | a summary never has more than 15 words |
| `Summary.SummaryIdempotent` | app1.py:107-111 | summarising a summary changes nothing |
| `Search.TitleMatches` | app1.py:138 | the row mask: a matching title is present (not NaN) and at least as long as the query |
| `Search.FilterRecords` | app1.py:137-140 | empty query: all records in order; otherwise exactly the records whose title contains the query ignoring case, each as often as in the input, never a missing title, as an order-preserving subsequence |
| `Search.FilterIdempotent` | app1.py:137-140 | filtering the results again with the same query returns them unchanged |
| `Search.MatchIgnoresCase` | app1.py:138 | whether a title matches does not depend on the letter case of the title or the query |
| `Tokenize.Tokens` | app1.py:156 | every token `re.findall(r'\b[a-z]+\b')` returns is a non-empty run of `a`-`z` |
| `Tokenize.TokensOfRun` | app1.py:156 | a text that is one run of `\w` characters yields itself as its only token when it is all lowercase letters, and nothing otherwise |
| `Tokenize.TokensSplit` | app1.py:156 | a non-word character is a boundary: the tokens of `a + c + b` are those of `a` followed by those of `b` |
| `Tokenize.TokensPerTitle` | app1.py:155-156 | the tokens of the lowercased, space-joined titles are each title's tokens in title order, so no token spans two titles |
| `Tokenize.NoTokenNextToDigit` | app1.py:155-156 | after lowercasing, a `\w` run that holds a digit or `_` yields no token at all |
| `Tokenize.FilterStopwords` | app1.py:157-161 | no stopword survives; every other token keeps its number of occurrences; the output is an order-preserving subsequence of the input |
| `Tokenize.ManagerTokens` | app1.py:155-161 | the tokens the Manager view counts: each a run of `a`-`z` and no stopword; every other token keeps its number of occurrences in the lowercased, space-joined titles, and the kept tokens stay in the order the pattern finds them |
| `Ranking.FirstSeen` | app1.py:162 | the `Counter` key order: distinct tokens, exactly those of the input |
| `Ranking.FirstIndex` | app1.py:162 | the position of a token's first occurrence: it holds the token and nothing before it does |
| `Ranking.CountTokens` | app1.py:162 | the `Counter` loop yields the keys in first-seen order and, for each token, its number of occurrences |
| `Ranking.FirstMax` | app1.py:162 | the scan for the highest count: every earlier count is smaller and no later count is larger |
| `Ranking.BestRanksFirst` | app1.py:162 | the first maximum of the counts, in first-seen order, ranks before every other remaining token |
| `Ranking.SelectBest` | app1.py:162 | among the keys not yet listed, picks the one with the highest count, the earliest seen on ties |
| `Ranking.MostCommon` | app1.py:162 | the result is `most_common(n)`: the first `n` distinct tokens ordered by count, descending, ties in first-seen order, each with its count |
| `Ranking.MostCommonEntries` | app1.py:162 | at most `n` entries, distinct tokens, each count at least 1 and equal to the token's occurrences |
| `Ranking.MostCommonNonIncreasing` | app1.py:162 | counts never increase along the list |
| `Ranking.MostCommonOmittedNotMore` | app1.py:162 | a token left out occurs no more often than the last one listed |
| `Ranking.MostCommonListsAll` | app1.py:162 | with at most `n` distinct tokens, every token is listed |
| `Ranking.MostCommonOfEmpty` | app1.py:162-163 | no tokens give an empty list, so no chart is drawn |
| `Ranking.RanksBeforeLater` | app1.py:162 | a listed token ranks before every other token not listed ahead of it |
| `Ranking.MostCommonUnique` | app1.py:162 | two lists meeting the specification are equal: the ranking is deterministic |
| `Highlight.Wrap` | app1.py:179 | one `re.sub(f"({rw})", r"**\1**", …, flags=re.IGNORECASE)`: the result is never shorter, and is empty exactly when the input is |
| `Highlight.HighlightWith` | app1.py:177-179 | the risk words applied one after the other: the result is never shorter than the title |
| `Highlight.HighlightRisk` | app1.py:174-179 | the highlighted title: deleting every `*` from it gives what deleting every `*` from the title gives |
| `Highlight.HighlightTitle` | app1.py:177-179 | the loop over the seven risk words returns each `re.sub` applied in list order |
| `Highlight.RiskWordsPlain` | app1.py:174 | each of the seven risk words is non-empty and holds no `*` |
| `Highlight.WrapStrip` | app1.py:179 | one `re.sub` only inserts `*` characters: deleting every `*` gives the same text as before |
| `Highlight.HighlightStripAll` | app1.py:177-179 | for every title and every list of words, the loop only inserts `*` characters |
| `Highlight.HighlightStrip` | app1.py:177-179 | deleting the markers from a highlighted title that had no `*` gives the title back exactly, casing included |
| `Highlight.WrapPlainPrefix` | app1.py:179 | text in which no case-insensitive match starts is copied unchanged |
| `Highlight.WrapAtMatch` | app1.py:179 | a match at the start of the text is wrapped as `**match**` and the scan resumes after it |
| `Highlight.WrapLeftmost` | app1.py:179 | the leftmost match is wrapped as `**match**` with its original casing, and the scan resumes right after it |
| `Highlight.UnwrapWrap` | app1.py:179 | undoing one `re.sub` with `Unwrap` gives back every text exactly, including texts that already hold `*` |
| `Highlight.UnwrapHighlight` | app1.py:177-179 | undoing the substitutions last word first gives back the title, for any list of `*`-free words |
| `Highlight.HighlightRiskInverse` | app1.py:174-179 | undoing the seven risk-word substitutions gives back every title exactly, casing and any `*` of its own included |
| `Highlight.WrapKeepsWrapped` | app1.py:177-179 | a later `re.sub` leaves an earlier `**m**` intact, and carries on after it, when its word holds no `*` and does not occur inside `m` |
| `Highlight.RiskWordsApart` | app1.py:174 | no risk word occurs, ignoring case, inside a match of a risk word that comes before it in the list |
| `Highlight.RiskWrapKept` | app1.py:174-179 | in the seven-word loop, a match of one risk word, once wrapped as `**m**`, is left intact by every later risk word |
| `Highlight.ContainsIgnoringCaseIff` | app1.py:138 | a word occurs in a text ignoring case exactly when its lowercase form is a substring of the lowercased text, the test of the keyword filter |
| `Highlight.WrapLength` | app1.py:179 | `re.sub` never shortens the text, and adds at least the two markers when the word occurs |
| `Highlight.WrapNoMatch` | app1.py:179 | a text without a case-insensitive occurrence of the word comes back unchanged |
| `Highlight.WrapUnchangedIff` | app1.py:179 | one `re.sub` leaves the text unchanged if and only if the word does not occur in it, ignoring case |
| `Highlight.HighlightNoRisk` | app1.py:174-179 | a title holding none of the risk words, in any letter case, comes back unchanged |
| `Views.Head` | app1.py:149 | `results.head(n)`: the first `n` rows, or all of them when there are fewer |
| `Views.Titles` | app1.py:155 | `results['Title']`: one title per row, in row order |
| `Views.ScientistView` | app1.py:147-151 | the summaries of the first 15 results, in order, with their links; `MissingTitle` exactly when one of those rows has no title |
| `Views.ManagerView` | app1.py:153-170 | the top-10 ranking of the non-stopword tokens of all result titles; `MissingTitle` exactly when a result has no title |
| `Views.ArchitectView` | app1.py:172-180 | the highlighted titles of the first 20 results, in order, with their links; `MissingTitle` exactly when one of those rows has no title |
| `Views.Render` | app1.py:137-180 | no view exactly when the filtered results are empty; otherwise the one view the audience selects |

## Left out

- Loading the CSV and stripping the column names (app1.py:98-102): file I/O through pandas.
- All page, sidebar, markdown and link rendering, and the bar chart with its display-only reversal `[::-1]` (app1.py:116-132, 142, 145, 148, 151, 154, 163-170, 173, 180): user interface.
- The commented-out earlier version with its year-range slider (app1.py:1-88): dead code.
- `str.contains` reads the query as a regular expression. The model searches for it as a literal string, which is the same only for queries without regex metacharacters.
- Unicode case folding in `lower()` and `re.IGNORECASE`, and the Unicode part of `\w`: only ASCII letters are folded, and only ASCII letters, digits and `_` are word characters.
- `Counter` and `heapq` internals: `most_common` is specified by its result, and `MostCommon` computes that result by repeated selection rather than by the library's sort.
- Views.ScientistView: when a row has a missing title, the script draws the rows before it and then raises. The model returns `MissingTitle` for the whole view and keeps no partial output. The same holds for Views.ArchitectView.
- Title cells of other non-string types (numbers): only text and missing titles are modelled.
