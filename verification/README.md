# YouTube trending-videos ETL: transformer and readiness check

This project models, in Dafny, the two pieces of logic in the daily
trending-videos pipeline (`youtube_trending_etl.py`). The rest of the file
wires up orchestration and library calls.

- **The transformer** (`_process_videos`). It reads `response['items']` from
  the parsed API response. It flattens each item into a five-field row
  `title, channel, publish_time, views, likes`. It raises a Python exception
  when the response does not have the shape it expects.
- **The readiness check** (the sensor's `response_check`). It accepts a
  response when the body text contains `items`.

Files:

- `wrappers.dfy`: `Result`, used with `:-` so that an exception propagates
  the way it does in Python.
- `json.dfy`: `Json.Value`, the document `json.loads` produces. `PyError` holds
  the three exceptions the transformer can raise: `KeyError(key)`,
  `TypeError` and `AttributeError("get")`. `Subscript` models `v[key]` and
  `Get` models `v.get(key, default)`.
- `traversal.dfy`: `MapResult`, the shape of the `for` loop. It applies a
  fallible step to each element in order. It produces either all results or
  the first error.
- `text.dfy`: Python's `pat in text` on strings.
- `trending_etl.dfy`: the transformer (`ProcessVideo`, `ProcessVideoList`,
  `ProcessVideos`) and the readiness check (`ResponseCheck`).
- `trending_etl_properties.dfy`: lemmas relating the transformer and the
  check to independent descriptions of their behaviour.

Rows hold `Json.Value`s because the source copies every field without
converting it. The API sends counts as strings such as `"100"`, and these
stay strings in the row. Only the default for a missing counter is the
integer `0`. A row has exactly the five fields of `TrendingEtl.Row`.

Three consequences of the code are worth stating plainly:

- The readiness check only looks for the text `items` in the body. So
  `{"items": []}` passes although its list is empty, and so does any error
  body that mentions the word (`EmptyItemsPassesCheck`, `MarkerAnywherePasses`).
- The counters are passed through unconverted, so the API's string `"100"`
  stays a string in the row (`CountersDefaultToZero`, `ExampleItem`). Any
  conversion to `BIGINT` happens later, when the database loads the rows.
- An item fails not only when `title`, `channelTitle` or `publishedAt` is
  missing, but also when it has no `snippet` or `statistics` key, or when a
  value it subscripts is not a dict (`MissingKeyReportsFirst`, `ShapeErrors`).

## Model

| member | source | states |
|---|---|---|
| `TrendingEtl.ProcessVideo` | youtube_trending_etl.py:19-28 | An item gives a row exactly when it is a dict whose `snippet` is a dict holding `title`, `channelTitle` and `publishedAt` and whose `statistics` is a dict. The row then copies those three values unchanged, and each counter is `statistics[key]` if present and `0` otherwise. |
| `TrendingEtl.ProcessVideoList` | youtube_trending_etl.py:18-28 | The loop succeeds exactly when every item is well formed. It then gives one row per item, in input order, with row i the flattening of item i. On failure the error is that of the first failing item. |
| `TrendingEtl.ProcessVideos` | youtube_trending_etl.py:15-31 | A non-dict response raises TypeError, and a dict without `items` raises `KeyError('items')`. A list of items gives exactly the loop's result. An empty dict or empty string gives no rows, and any other non-list `items` value raises TypeError. |
| `TrendingEtl.ResponseCheck` | youtube_trending_etl.py:71 | The check accepts a body exactly when `items` occurs in it at some position. |
| `Text.Contains` | youtube_trending_etl.py:71 | Python's `pat in text` is true exactly when `pat` occurs at some index of `text`. |
| `Traversal.MapResult` | youtube_trending_etl.py:18-28 | Applying a step to each element in order succeeds exactly when it succeeds on every element. It then gives one result per element, in order. On failure it gives the error of the first failing element. |
| `Traversal.MapResultFromElements` | youtube_trending_etl.py:18-28 | When each element yields its own result, the loop yields exactly that list. |
| `Traversal.AppendFailsInPrefix` | youtube_trending_etl.py:18-31 | A failure among the earlier items decides the error, whatever follows. |
| `Traversal.AppendFailsInSuffix` | youtube_trending_etl.py:18-31 | When the earlier items all succeed, a failure among the later items is the error of the whole loop. |
| `Traversal.AppendSucceeds` | youtube_trending_etl.py:18-31 | The rows of a concatenated item list are the rows of the first part followed by the rows of the second. |
| `TrendingEtlProperties.MissingKeyReportsFirst` | youtube_trending_etl.py:20-25 | For a dict item (whose snippet is a dict when a snippet field is the missing key), the KeyError names the first missing key in the order snippet, statistics, title, channelTitle, publishedAt, whatever the statistics value is. |
| `TrendingEtlProperties.MissingKeyExamples` | youtube_trending_etl.py:20-23 | `{"statistics": null}` raises `KeyError('snippet')`, `{"snippet": "x"}` raises `KeyError('statistics')`, and `{"snippet": {}, "statistics": 5}` raises `KeyError('title')`. |
| `TrendingEtlProperties.AllKeysPresentSucceeds` | youtube_trending_etl.py:20-25 | An item whose containers are dicts and that holds all five required keys gives a row. |
| `TrendingEtlProperties.ShapeErrors` | youtube_trending_etl.py:19-27 | A non-dict item raises TypeError. A non-dict snippet raises TypeError once both top-level keys are found. A non-dict statistics value raises AttributeError on `get` once the three snippet fields are read. |
| `TrendingEtlProperties.CountersDefaultToZero` | youtube_trending_etl.py:26-27 | A missing `viewCount` or `likeCount` becomes `0`. A present one is passed on as the same JSON value. |
| `TrendingEtlProperties.ExampleItem` | youtube_trending_etl.py:17-28 | A typical API item gives the row ("A", "C1", "2023-01-01T00:00:00Z", "100", 0), with the view count still the string "100". |
| `TrendingEtlProperties.OtherKeysIgnored` | youtube_trending_etl.py:22-28 | Removing every key the code does not read leaves the outcome unchanged, both the row and the error. |
| `TrendingEtlProperties.AnyFailureMeansNoRows` | youtube_trending_etl.py:18-31 | One failing item anywhere means no rows at all. The error raised belongs to that item or to an earlier one. |
| `TrendingEtlProperties.RowsFollowItems` | youtube_trending_etl.py:17-28 | On success there are as many rows as items, and row i is the flattening of item i. |
| `TrendingEtlProperties.MarkerAnywherePasses` | youtube_trending_etl.py:71 | Every body that contains `items` anywhere passes the check. |
| `TrendingEtlProperties.EmptyItemsPassesCheck` | youtube_trending_etl.py:71 | The body `{"items": []}` passes the check. The transformer turns its parsed form into zero rows. |
| `TrendingEtlProperties.NoMarkerFails` | youtube_trending_etl.py:71 | A body without `items`, such as `{}`, fails the check. |

## Left out

- DAG construction, task ordering and the daily schedule (lines 40-45, 102): orchestration, with no logic of their own.
- The sensor's polling (`poke_interval`, `timeout`) and the HTTP GET of both HTTP tasks (lines 61-90): network I/O and timing. Only the check predicate is modelled.
- `json.loads` (line 88): a library parser. The model takes the parsed `Json.Value` as input, and `ResponseCheck` takes the raw body text.
- `Variable.get` and `ti.xcom_pull` (lines 13, 16): external configuration and task state. The pulled response is the transformer's parameter.
- `pd.DataFrame(rows).to_csv(...)` (lines 30-31): the CSV quoting and escaping belong to pandas. The model stops at the row sequence that would be written.
- The Postgres `CREATE TABLE IF NOT EXISTS` and `COPY` (lines 33-38, 47-59): database I/O.
- `Json.Value` numbers are integers. JSON floats are not modelled, and no field of the transformer interprets a number.
- Walking the keys of a non-empty `items` dict: the model raises TypeError directly instead. That matches Python's result, because the first key is a `str` and subscripting a `str` with `'snippet'` raises TypeError whatever the key is.
