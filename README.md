# LLM consistency analyzer: sampling and aggregation core

This project models the part of the LLM Consistency Analyzer that is more than
page layout. The client wrapper's `call_llm` sends one chat-completion request
`num_calls` times with the same parameters. It strips each reply and collects
the replies in call order. `main()` then groups identical replies with
`Counter`, counts the groups and computes the consistency score. It sorts the
(response, count) table by count, largest first, cuts long chart labels to 40
characters plus `...`, and gives each group its share of the calls. The run
starts only when the button is pressed and the question is not empty.

Modules, one per concern:

- `Text` (text.dfy): Python's argument-less `str.strip()`. It uses the full
  `str.isspace()` character set, not only ASCII whitespace.
- `Client` (client.dfy): the request record, its defaults, and an endpoint
  class. The endpoint logs each request it is sent and answers the `k`-th
  request `req` with `reply(k, req)`, where `reply` is an oracle. It also has
  the wrapper class whose `CallLlm` is the imperative loop of `call_llm`.
- `Counting` (counting.dfy): `Counter(responses)` as a table of
  (response, count) entries in first-occurrence order. Strings are compared
  exactly.
- `Ranking` (ranking.dfy): the count-descending sort of that table.
- `Metrics` (metrics.dfy): the consistency score, the percentage column, and
  the chart label. Scores are exact `real`s.
- `App` (app.dfy): the empty-question gate, the whole summary of one run, and
  one button press from the inputs to what is shown.

Two points of the code shape the model:

- `sort_values('Count', ascending=False)` (app.py:144, 192) uses pandas'
  default sort, which is not stable, so no order among equal counts is
  promised. The model proves only what every count-descending order shares:
  the result is a permutation, its counts never increase, and it keeps the
  keys and the total. The sort it uses happens to fix one tie order, but
  nothing is proved about that order.
- `if submit_button and question:` (app.py:124) uses Python's truthiness of a
  string, so any non-empty question starts a run, including one that is only
  whitespace. `Dispatch` models it that way.

`Client.CallLlmUsage` has no contract and no row. It is kept as a usage
example: a caller that asserts what the contract of `CallLlm` gives it,
including the default parameters and a zero-call run.

## Model

| member | source | states |
|---|---|---|
| Text.TrimStartFacts | utils/openai_client.py:31 | left-trimming removes a prefix made only of whitespace, and all of it: the result is a suffix and does not start with whitespace |
| Text.TrimEndFacts | utils/openai_client.py:31 | right-trimming removes a suffix made only of whitespace, and all of it: the result is a prefix and does not end with whitespace |
| Text.Strip | utils/openai_client.py:31 | `strip()` never leaves whitespace at either end and never lengthens the string |
| Text.StripIsSlice | utils/openai_client.py:31 | the stripped reply is a contiguous slice of the reply, and everything cut off on both sides is whitespace |
| Text.StripTrimmed | utils/openai_client.py:31 | a reply without surrounding whitespace is returned unchanged |
| Text.StripIdempotent | utils/openai_client.py:31 | stripping a stripped reply changes nothing |
| Text.StripOfPadded | utils/openai_client.py:31 | any whitespace padding around a trimmed string strips back to that string, so `" Yes "` and `"Yes"` fall into one group |
| Client.BuildRequest | utils/openai_client.py:20-30 | definition of the request: the deployment as model, a system message then a user message, and the given temperature, max_tokens, top_p and frequency_penalty; that every call sends this same request is stated by `Client.ClientWrapper.CallLlm`, the defaults by `Client.BuildRequestDefaults` |
| Client.BuildRequestDefaults | utils/openai_client.py:16-17 | when left out, the system prompt is "You are a helpful assistant.", max_tokens 150, top_p 1.0 and frequency_penalty 0.0 |
| Client.Calls | utils/openai_client.py:19 | definition of the iteration count: `range(num_calls)` runs `num_calls` times, and not at all for a negative count; `Client.ClientWrapper.CallLlm` states that exactly this many requests are sent and replies returned |
| Client.Collected | utils/openai_client.py:18-32 | the collected list has exactly `n` elements; element `i` is the stripped reply to the `i`-th call; no element has surrounding whitespace |
| Client.CollectedStripped | utils/openai_client.py:31 | re-stripping any collected reply leaves it unchanged |
| Client.ChatCompletions.Create | utils/openai_client.py:20-31 | one request is appended to the endpoint's log, and the answer is the oracle's reply for that call's position |
| Client.ClientWrapper.CallLlm | utils/openai_client.py:16-32 | the endpoint receives exactly `num_calls` copies of one identical request, and the result is the list of stripped replies in call order |
| Counting.Tally | app.py:137-138 | definition of `Counter(responses)`: never more entries (groups, `unique_count`) than responses, and at least one for a non-empty run; what it counts is stated by `Counting.TallyLookup`, `Counting.TallyKeys`, `Counting.TallySum` and `Counting.TallyWellFormed` |
| Counting.TallyWellFormed | app.py:137 | no response has two entries in the counter, and every count is at least one |
| Counting.TallySum | app.py:137 | the counts add up to the number of responses |
| Counting.TallyKeys | app.py:137 | the counter's keys are exactly the distinct response strings |
| Counting.TallyLookup | app.py:137 | the count of every string is its number of exact occurrences (its multiplicity in the responses) |
| Counting.TallyCounts | app.py:137 | each entry's count is the number of occurrences of its response |
| Counting.UniqueCount | app.py:138 | `unique_count` is the number of distinct responses |
| Counting.AllDistinctIff | app.py:138 | `unique_count` equals the number of responses if and only if no two responses are equal |
| Counting.AllSameIff | app.py:138 | for a non-empty run, there is one group if and only if every response equals the first |
| Ranking.SortByCount | app.py:141-144 | definition of the count-descending sort: as many rows as the table; that it is a permutation with non-increasing counts is stated by `Ranking.SortPermutes` and `Ranking.SortDescending`, and no tie order is promised |
| Ranking.SortPermutes | app.py:141-144 | the sorted table is a permutation of the counter's entries |
| Ranking.SortDescending | app.py:141-144 | the sorted table lists counts in non-increasing order |
| Ranking.SortKeeps | app.py:189-192 | sorting keeps the set of responses, their uniqueness and the total count |
| Metrics.Consistency | app.py:154 | definition of the score: one call or fewer scores 100, and a single group scores 100 for any number of calls; the bounds and the other cases are stated by the lemmas below |
| Metrics.ConsistencyAllDistinct | app.py:154 | with more than one call and every response distinct, the score is `100 / num_calls` |
| Metrics.ConsistencyBounds | app.py:154 | with between 1 and `num_calls` groups, the score lies between `100 / num_calls` and 100 |
| Metrics.ConsistencyAntitone | app.py:154 | more groups never give a higher score |
| Metrics.ConsistencyAlternateForm | app.py:154 | for at least one call (and one group when there is a single call, as always happens), the score equals `100 * (1 - (unique_count - 1) / num_calls)` |
| Metrics.Percentage | app.py:195 | the share times `num_calls` is `100 * count`; it is non-negative and at most 100 when the count is at most `num_calls` |
| Metrics.Percentages | app.py:195 | definition of the percentage column: one value per row, the share of that row's count; that the column adds up to 100 is stated by `Metrics.PercentagesSumTo100` |
| Metrics.PercentagesTotal | app.py:195 | the percentage column adds up to the total count over `num_calls`, times 100 |
| Metrics.PercentagesSumTo100 | app.py:195 | when the counts add up to `num_calls`, the percentages add up to 100 |
| Metrics.Label | app.py:161 | a response of at most 40 characters is its own label; a longer one becomes its first 40 characters followed by "..." (43 characters) |
| Metrics.LabelShape | app.py:161 | a label is at most 43 characters and begins with the response's first (up to) 40 characters |
| Metrics.LabelIdempotent | app.py:161 | labelling a label changes nothing |
| Metrics.LabelFixedPoints | app.py:161 | a response is its own label if and only if it has at most 40 characters, or exactly 43 ending in "..." |
| App.Dispatch | app.py:124 | definition of the gate: sampling happens if and only if the button is pressed and the question is non-empty; a press with an empty question only warns; no press does nothing; `App.Session` states that only sampling sends requests |
| App.Labels | app.py:161 | definition of the `Display` column: one label per row of the table; the label's shape is stated by `Metrics.LabelShape` and `Metrics.LabelFixedPoints` |
| App.Ranked | app.py:137-144 | definition of the sorted table `Counter` then `sort_values`: one row per distinct response; its counts and order are stated by `App.RankedCounts` and `App.RankedShape` |
| App.RankedCounts | app.py:137-144 | every row of the sorted table counts the exact occurrences of its response, at least one |
| App.RankedShape | app.py:137-144 | the sorted table has one row per distinct response, unique keys, non-increasing counts, and counts that add up to the number of responses |
| App.Summarize | app.py:137-195 | one row per distinct response with its exact count, largest counts first; the label and percentage columns match row for row; the score follows the formula; for a full run, `1 <= unique_count <= num_calls`, the score lies between `100 / num_calls` and 100, and the percentages add up to 100 |
| App.FullRunFacts | app.py:138-195 | when there are `num_calls` responses, the group count, the score bounds and the percentage total hold |
| App.IdenticalRepliesScore100 | app.py:137-154 | a run whose replies are all the same has one group and scores 100 |
| App.DistinctRepliesScoreFloor | app.py:137-154 | a run of more than one call whose replies are pairwise distinct has `num_calls` groups and scores `100 / num_calls` |
| App.FourCallExample | app.py:137-154 | the replies Rex, Max, Rex, Buddy give three groups, Rex twice and first, Max and Buddy once each in either order, and a score of 50 |
| App.Session | app.py:124-202 | without a press nothing is sent or shown; with an empty question only a warning is shown and nothing is sent; otherwise `num_calls` identical requests are sent and the summary of the stripped replies is shown |

## Left out

- Page configuration, CSS, columns, sidebar presets, tabs, spinner, status placeholder, metric and data-frame widgets (app.py:8-122, 126-134, 147-199): presentation only. Their values (deployment, temperature, number of runs, question, system prompt) are parameters of `App.Session`.
- The Altair chart (app.py:164-182), including its `max(300, len(chart_data) * 30)` height: it is display only, in a foreign charting library.
- The `if len(chart_data) > 0` guard at app.py:159: the model always computes the `Display` column, which is empty when the table is.
- The one-decimal formatting `f"{consistency:.1f}%"` of the score (app.py:155) and `f"{x:.1f}%"` of the percentages (app.py:196), and floating-point rounding: the model computes exact reals.
- Ranking.SortByCount: promises no order among rows with equal counts, because pandas' default sort is not stable.
- Metrics.Percentage: requires `num_calls >= 1`. The number-of-runs slider (app.py:72-78) never gives less, and the model does not capture pandas' division-by-zero infinities.
- App.Session: requires `1 <= num_calls <= 50`, the slider's range (app.py:72-78).
- The wrapper's constructor (utils/openai_client.py:5-14): the environment lookups of endpoint, key and API version, and the `AzureOpenAI` client, are not modelled. The wrapper is handed a ready endpoint.
- The network request itself: it is the `reply` oracle of `Client.ChatCompletions`. Transport and authentication errors, and a reply whose content is missing, abort the run in the source; they are not modelled.
- utils/config.py loads a `.env` file, wraps two `os.getenv` lookups and defines two constants (`DEFAULT_TEMPERATURE`, `DEFAULT_CALLS`) that neither core file imports; there is nothing in it to model.
