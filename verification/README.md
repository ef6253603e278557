# SummarifyAI text shaping, in Dafny

SummarifyAI is a small text-analysis web application. The browser page posts
text to a Flask backend. The backend returns tokens, stems, a stop-word
filtered list, a word-frequency table and an optional summary. The page then
draws a word cloud and a bar chart from the frequency table.

This project models the parts of that system that are pure selection and
shaping logic, and proves their properties:

- **Ranking** (`ranking.dfy`): the browser's
  `Object.entries(frequency).filter(..).sort((a, b) => b[1] - a[1]).slice(0, n)`.
  It is modelled as a stable insertion sort by count, descending, followed by a
  prefix. Stability is stated class by class: for every count `c`, the entries
  of count `c` keep their input order. A uniqueness lemma shows that any
  sequence that is sorted and keeps every count class in order equals this sort.
- **WordCloud** (`wordcloud.dfy`): the word-cloud selection (`createWordCloud`)
  with its two placeholder outcomes. It also covers the per-word arithmetic of
  `createCustomWordCloud`: font size by linear normalisation, clamped to
  [14, 48]; the 8-colour palette cycled by rank; the spiral radius capped at a
  third of the shorter canvas side; and the clamping of each position into the
  canvas.
- **FrequencyChart** (`chart.dfy`): the bar chart's top-10 selection, split into
  parallel `labels` and `data` sequences.
- **PyStr** (`pystr.dfy`): Python's `str.split` with a one-character separator,
  `str.join` and `str.strip()`, with both split/join round trips proved.
- **Backend** (`backend.dfy`): the parts of `process_text` that do not depend on
  the natural-language toolkit. These are the empty-text guard, the stemmer
  dispatch, the stop-word filter, the `Counter` frequency table and the fallback
  `summarize`.
- **Seqs**, **Wrappers**: an order-preserving `Filter` with its subsequence and
  multiset contract, `Map`, and `Option`.

Numbers. JavaScript numbers are modelled as exact reals (font size, radius,
coordinates) and counts as unbounded integers. This is an exact-rational
abstraction of IEEE doubles: it does not reproduce IEEE rounding of quotients,
products and sums. The one non-finite value the code can reach is `0 / 0 = NaN` in the
normalisation, when the largest and smallest kept counts are equal. It is
modelled as `None`, meaning "font size undefined". The code would also turn
`±Infinity` into 48 or 14 through the clamp. `FontSize` reproduces that, but a
ranked list never reaches it.

Collaborators. Text measurement (`ctx.measureText`), `Math.cos` and `Math.sin`
are opaque fields of a `Surface` value. The word tokenizer, the stop-word set,
`str.lower` and the three stemmers are opaque fields of a `Toolkit` value.

Two consequences of the code as written:

- When all kept counts are equal, including a one-word cloud,
  `(f - min) / (max - min)` is `0 / 0 = NaN`. `FontSize` and `Layout` report
  this case as undefined.
- `Math.max(10, ..)` is applied last, so `x <= width - textWidth - 10` holds
  only when `width - textWidth >= 20`. `Place` states exactly that.

## Model

| member | source | states |
|---|---|---|
| Ranking.SortDesc | static/script.js:213 | the result is sorted by count, descending, has the input's length and multiset, and lists each count class in input order (the sort is stable) |
| Ranking.StableSortUnique | static/script.js:213 | two sequences that are both sorted descending and agree on every count class are equal, so the stable sort's result is determined by its input |
| Ranking.SortDescIdempotent | static/script.js:213 | sorting a sequence that is already in stable descending order returns it unchanged |
| Ranking.TopN | static/script.js:211-214 | the top `n` has length `min(n, #input)`, is sorted descending, is drawn from the input, keeps each count class as a prefix of the input's class, and no entry left out has a larger count than one kept |
| WordCloud.SelectWords | static/script.js:205-219 | a missing or key-less table gives "no frequency data"; a table in which no word is longer than 2 with count above 1 gives "not enough data"; otherwise the cloud holds `min(40, #qualifying)` qualifying table entries in stable descending order, and none left out beats one kept |
| WordCloud.FontSize | static/script.js:237-243 | the size is undefined (NaN) exactly when count, min and max are all equal; otherwise it lies in [14, 48]; inside the range it is `14 + 34*(f-min)/(max-min)` without clamping; the maximum count gets 48 and the minimum 14 |
| WordCloud.FontSizeMonotone | static/script.js:242-243 | a larger count never gets a smaller font size |
| WordCloud.RankedFontSizes | static/script.js:237-243 | over a ranked list, equal first and last counts make every size undefined; otherwise rank 0 gets 48, the last rank 14, and sizes never grow with rank |
| WordCloud.Clamp | static/script.js:271-272 | `Math.max(lo, Math.min(hi, v))` is at least `lo`, at most `hi` when `lo <= hi`, returns `v` inside the window, `lo` below it or when the window is empty, and `hi` above it |
| WordCloud.ColourAt | static/script.js:236-244 | the colour at each rank is a palette entry, and each of the first eight ranks gets a colour no other palette slot has |
| WordCloud.ColourCycle | static/script.js:236-244 | two ranks share a colour exactly when they are congruent modulo 8 |
| WordCloud.Radius | static/script.js:265 | the radius is never above a third of the shorter canvas side nor above `30 + 8*rank`, equals one of the two, and is non-negative |
| WordCloud.RadiusMonotone | static/script.js:265 | the radius never decreases as the rank grows |
| WordCloud.Place | static/script.js:264-272 | the placed point has `x >= 10` and `y >= fontSize` always; `x <= width - textWidth - 10` when `width - textWidth >= 20`; `y <= height - 10` when `height - 10 >= fontSize`; a spiral point already inside the box is kept |
| WordCloud.Layout | static/script.js:237-272 | the layout is undefined exactly when the first and last counts are equal; otherwise every word keeps its text, gets its normalised size in [14, 48], the palette colour of its rank, and the clamped spiral point at angle `rank * 0.5` and radius `Radius(rank)`, which lies within the clamp bounds |
| FrequencyChart.BuildChart | static/script.js:300-312 | no chart for a missing or key-less table; otherwise `labels` and `data` have equal length `min(10, #words longer than 2)`, `labels[i]`/`data[i]` form one table entry with a long word, values descend, no long word left out beats a bar, and bar `i` is exactly entry `i` of the stable top 10 (`Ranking.TopN`) of the long words |
| PyStr.Split | app.py:14 | `split('.')` yields one more piece than there are separators, and no piece contains the separator |
| PyStr.JoinSplit | app.py:14 | rejoining the pieces of a split with the separator gives back the original string |
| PyStr.SplitJoin | app.py:14 | splitting a join of separator-free pieces gives back the pieces |
| PyStr.Strip | app.py:79 | `strip()` is empty exactly when every character is whitespace, and a nonempty result starts and ends with a non-whitespace character |
| Backend.Summarize | app.py:13-15 | text with at most two '.' is returned unchanged; otherwise the summary ends with '.', contains exactly three '.', and its sentences are the text's first three, each after the first preceded by the joining space |
| Backend.SummaryComesFromPrefix | app.py:14-15 | when the text has at least three '.', its first three sentences, each with its '.', form a prefix of the text |
| Backend.Frequency | app.py:173 | the table's keys are exactly the distinct tokens, each value is that token's number of occurrences (so at least 1), and the values sum to the number of tokens |
| Backend.RemoveStopWords | app.py:125-130 | when disabled the result is empty; when enabled it is an order-preserving subsequence of the tokens that keeps every occurrence of a token whose lower-cased form is not a stop word and none of the others |
| Backend.Stem | app.py:97-108 | "Porter", "Lancaster" and "Snowball" apply that stemmer to every token, in order; every other choice, "None" included, yields no stems |
| Backend.IsBlank | app.py:79 | the guard fires exactly when the text is missing or consists only of whitespace characters (the empty text included) |
| Backend.Process | app.py:70-199 | the reply is the 400 "Please provide text to analyze" error exactly when the text is blank; otherwise the frequency table counts the tokens, the stems are the chosen stemmer's (`Stem`, empty for an unknown choice), the filtered list is `RemoveStopWords` of the tokens (empty when disabled), and the summary is `Summarize` of the text when requested and empty otherwise |

## Left out

- DOM construction, tab switching, event binding, the loading indicator and `alert` calls (static/script.js:9-68, 117-200): user-interface plumbing with no logic to prove.
- The `fetch` request and its error branches (static/script.js:70-115): network I/O.
- Canvas drawing, shadows and fonts (static/script.js:226-234, 276-295): rendering only. `measureText`, `Math.cos` and `Math.sin` enter as opaque functions of a `Surface`.
- The placeholder HTML messages of `createWordCloud`: modelled as the `NoFrequencyData` and `NotEnoughData` outcomes, without their text.
- Chart.js configuration and chart destruction (static/script.js:314-378): a foreign library.
- `escapeHtml`: depends on the browser's HTML serialisation.
- Tokenization by `token_type`, lemmatization, n-grams, part-of-speech tags, named entities and chunking (app.py:83-94, 113-169): these are calls into the natural-language toolkit, not logic of this repository. Their reply fields are absent from `Response`.
- Resource downloads, the gensim `summarize` import and Flask routing (app.py:9-12, 18-65): the model uses the fallback summariser defined at app.py:13-15.
- Every `except` branch and the general 500 reply (app.py:92-94, 109-111, 120-122, 131-133, 174-176, 184-186, 201-203): these exceptions can only come from the toolkit, from a request body that is not a JSON object, or from one whose `text` is not a string (`{"text": 5}` passes `not text` and then fails in `text.strip()`, while `{"text": 0}` gets the 400 reply). `Request` admits only a missing or string `text`, so none of these cases is modelled.
- JSON encoding and key order: the browser receives the table as an explicit entry sequence, and no claim is made about the order in which the backend's map reaches it.
- Word length: JavaScript's `word.length` counts UTF-16 code units. The model counts Dafny characters (code points), so the two differ for characters outside the Basic Multilingual Plane.
- Layout: when some font size is `NaN`, the model reports the whole layout as undefined. The source instead draws with `NaN` coordinates, which has no visible effect. This happens exactly when the first and last counts are equal.
- PyStr.Strip: states emptiness and the non-whitespace ends of the result, not that it is exactly the middle slice of the input.
