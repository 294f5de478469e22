# Prometheus counter converter, modelled in Dafny

The Prometheus component of the pip-services toolkit publishes performance
counters in the Prometheus text exposition format. At its heart is the
`PrometheusCounterConverter` helper. It takes a list of typed counters, plus a
`source` (context name) and an `instance` (host name). Each counter becomes zero
or more gauges (none for a Timestamp counter). A gauge is two lines: `# TYPE <metric> gauge`, then
`<metric><labels> <value>`. This project models that converter and proves what
its output is.

The model follows the source's own structure:

- `Counters` (counters.dfy) holds the counter record and its five kinds.
- `Text` (text.dfy) holds the JavaScript string operations the converter uses:
  `split`, ASCII `toLowerCase` and the replacement of `.`, `+` and `/` by `_`.
  `Join` is proved to be the inverse of `Split`.
- `CounterName` (counter_name.dfy) models `parseCounterName`. It is a pure
  function with the source's first-match-wins precedence.
- `LabelSet` (label_set.dfy) models the JavaScript object used as an
  insertion-ordered dictionary.
  - The class `LabelMap` holds the key order and the values, and its `Set`
    method is assignment to a key.
  - Its abstract value is an association list, and `Put` is the reference
    definition of assignment: an existing key keeps its position, a new key
    goes to the end.
- `LabelGeneration` (labels.dfy) models `generateCounterLabel`.
  - The method `GenerateCounterLabel` fills a `LabelMap` rule by rule.
  - `RenderLabelMap` is the rendering loop, with its `builder.length > 1`
    comma guard.
  - Both are proved equal to a pure description: `CounterLabels`, then
    `FormatLabels`.
  - A reader for the rendered suffix (`ParseLabels`) is a reference
    definition. With it we prove that the suffix is unambiguous.
- `PrometheusCounterConverter` (converter.dfy) models `toString`.
  - The method `ToString` is the loop over the counters, and `AppendCounter`
    is the `switch` on the kind.
  - `ToString` is proved equal to `Encode`. `Encode` maps each counter to its
    gauges (`CounterSamples`), concatenates them, and prints each gauge as its
    two lines.
  - The properties of the output are proved about `Encode`: it is a
    homomorphism over list concatenation, Timestamp counters are skipped,
    each kind has its own line count and text, and the text splits back into
    its lines.

The model follows the code exactly, including where a reader might expect
otherwise:

- Name conventions are matched by exact, case-sensitive equality on the
  segments of `split('.')` (PrometheusCounterConverter.ts lines 76-98 and
  123-135). They are not matched case-insensitively.
- A name with only two segments matches no convention, because every rule
  needs at least three segments (`TwoSegmentName`). So `myservice.exec_count`
  is published under the metric name `myservice_exec_count`, with no
  `service` or `command` label. And `myqueue.sent_messages` gets no `queue`
  label.
- The guard at line 117 can never fire. An empty counter name still yields the
  empty metric name, through the fallback branch.

## Model

| member | source | states |
|---|---|---|
| `PrometheusCounterConverter.ToString` | src/count/PrometheusCounterConverter.ts:19-65 | The text the loop builds is exactly `Encode` of the counters: the empty list gives "", and otherwise the counters' gauges follow in input order |
| `PrometheusCounterConverter.AppendCounter` | src/count/PrometheusCounterConverter.ts:28-61 | The switch appends exactly the text of the counter's gauges: one for Increment (`count`) and LastValue (`last`), four for Interval and Statistics, none for Timestamp |
| `PrometheusCounterConverter.AppendStats` | src/count/PrometheusCounterConverter.ts:33-42 | The eight appends of an Interval or Statistics counter are the `_max`, `_min`, `_average`, `_count` gauges, in that order |
| `PrometheusCounterConverter.EncodeAppend` | src/count/PrometheusCounterConverter.ts:22-64 | The text of `a + b` is the text of `a` followed by the text of `b`: no sorting, merging or deduplication |
| `PrometheusCounterConverter.EncodeSkipsTimestamps` | src/count/PrometheusCounterConverter.ts:57-60 | The text of a list equals the text of the list with its Timestamp counters removed |
| `PrometheusCounterConverter.TimestampsSilent` | src/count/PrometheusCounterConverter.ts:28-61 | A counter produces no gauge if and only if it is a Timestamp counter |
| `PrometheusCounterConverter.CounterLineCount` | src/count/PrometheusCounterConverter.ts:28-61 | A counter contributes 2 lines (Increment, LastValue), 8 lines (Interval, Statistics) or none (Timestamp) |
| `PrometheusCounterConverter.SingleValueText` | src/count/PrometheusCounterConverter.ts:29-46 | The text of one Increment or LastValue counter is `# TYPE n gauge\n` then `n<labels> <v>\n`, where `v` is `count` or `last` respectively |
| `PrometheusCounterConverter.IntervalAsStatistics` | src/count/PrometheusCounterConverter.ts:33-56 | With equal fields, Interval and Statistics counters publish the same four gauges |
| `PrometheusCounterConverter.GaugeNames` | src/count/PrometheusCounterConverter.ts:30-55 | Each gauge's metric name is well formed and starts with the derived counter name, and each gauge carries the counter's generated label suffix |
| `PrometheusCounterConverter.LinesAt` | src/count/PrometheusCounterConverter.ts:30-31 | Line `2i` of the text is the type line of gauge `i`, and line `2i+1` is its value line |
| `PrometheusCounterConverter.EncodeLines` | src/count/PrometheusCounterConverter.ts:19-65 | If no input holds a newline, splitting the text at newlines gives exactly two lines per gauge and an empty remainder |
| `PrometheusCounterConverter.ExpositionAppend` | src/count/PrometheusCounterConverter.ts:24-62 | The text of consecutive gauges is the concatenation of their texts, which is what appending to the builder relies on |
| `LabelGeneration.GenerateCounterLabel` | src/count/PrometheusCounterConverter.ts:67-110 | The rendered label suffix is `FormatLabels(CounterLabels(name, source, instance))` |
| `LabelGeneration.RenderLabelMap` | src/count/PrometheusCounterConverter.ts:100-109 | An empty dictionary renders as "". Otherwise the result is `{`, then the entries in key order as `key="value"` separated by commas, then `}` |
| `LabelGeneration.RenderStep` | src/count/PrometheusCounterConverter.ts:103-106 | The `builder.length > 1` guard puts a comma before every entry but the first |
| `LabelGeneration.JoinLabelsSnoc` | src/count/PrometheusCounterConverter.ts:104-105 | Appending an entry to a non-empty rendering appends a comma and the entry |
| `LabelGeneration.CounterLabelKeys` | src/count/PrometheusCounterConverter.ts:68-98 | Label order: `source`, `instance` (each only if non-empty), then `service`,`command` when the exec or call rule applies, then `target` for the call rule, then `queue` for the queue rule. A key assigned twice keeps its first position |
| `LabelGeneration.CounterLabelValue` | src/count/PrometheusCounterConverter.ts:68-98 | The value of each key. When both rules apply, the call rule's later `service`/`command` assignments win over the exec rule's |
| `LabelGeneration.CounterLabelsDistinct` | src/count/PrometheusCounterConverter.ts:68-98 | No key appears twice in the labels |
| `LabelGeneration.ContextKeys` | src/count/PrometheusCounterConverter.ts:70-71 | `source`, then `instance`, each present only when non-empty |
| `LabelGeneration.ExecKeys` | src/count/PrometheusCounterConverter.ts:76-82 | The exec rule appends `service` and `command` to labels that lack them |
| `LabelGeneration.CallKeys` | src/count/PrometheusCounterConverter.ts:84-91 | The call rule overwrites `service` and `command` in place when present, appends them otherwise, and appends `target` |
| `LabelGeneration.QueueKeys` | src/count/PrometheusCounterConverter.ts:93-98 | The queue rule appends `queue` |
| `LabelGeneration.TwoSegmentName` | src/count/PrometheusCounterConverter.ts:76-98 | A two-segment name matches no convention: its metric name is the sanitized whole name, and it gets only the context labels |
| `LabelGeneration.ParseFormatLabels` | src/count/PrometheusCounterConverter.ts:100-109 | If no value holds a double quote, the rendered suffix reads back as exactly the labels it renders |
| `LabelGeneration.CounterLabelsRoundTrip` | src/count/PrometheusCounterConverter.ts:67-110 | A counter's label suffix reads back as its labels whenever neither the name nor the context values hold a double quote |
| `LabelGeneration.FormatLabelsAvoids` | src/count/PrometheusCounterConverter.ts:102-107 | A character outside the label syntax appears in the suffix only if some label value holds it |
| `LabelGeneration.UnusedLabelsAgree` | src/count/PrometheusCounterConverter.ts:146-161 | The unused `parseCounterLabels` gives the same labels as the published rules when neither the call nor the queue rule applies and any exec suffix is `exec_time` |
| `LabelGeneration.UnusedLabelsMissExecCount` | src/count/PrometheusCounterConverter.ts:155-158 | For `exec_count` and `exec_errors` names, `parseCounterLabels` has no `service` label while the published labels have one |
| `LabelSet.LabelMap.constructor` | src/count/PrometheusCounterConverter.ts:68 | A new dictionary is valid and empty |
| `LabelSet.LabelMap.Set` | src/count/PrometheusCounterConverter.ts:70-97 | Assigning a key keeps the dictionary valid, and its entries become `Put(old entries, k, v)` |
| `LabelSet.PutKeys` | src/count/PrometheusCounterConverter.ts:70-97 | Assignment keeps the key order when the key exists and appends the key otherwise |
| `LabelSet.PutLookup` | src/count/PrometheusCounterConverter.ts:70-97 | After assignment, the key reads back the new value and every other key reads its old value |
| `LabelSet.PutDistinct` | src/count/PrometheusCounterConverter.ts:70-97 | Assignment never duplicates a key |
| `CounterName.ParseCounterName` | src/count/PrometheusCounterConverter.ts:112-144 | Every derived metric name is well formed: no `.`, `+`, `/` and no upper-case letter |
| `CounterName.ExecNameWins` | src/count/PrometheusCounterConverter.ts:123-125 | If segment 2 is an exec suffix, the name is that segment, whatever the other segments are |
| `CounterName.CallNameSecond` | src/count/PrometheusCounterConverter.ts:128-130 | Otherwise, if segment 3 is a call suffix, the name is that segment |
| `CounterName.QueueName` | src/count/PrometheusCounterConverter.ts:133-139 | Otherwise, for a messages suffix in segment 2, the name is sanitized segment 0, then `_`, then segment 2. The queue segment is dropped |
| `CounterName.FallbackName` | src/count/PrometheusCounterConverter.ts:143 | Otherwise the name is the whole sanitized counter name, of the same length |
| `CounterName.ParseCounterNameIdempotent` | src/count/PrometheusCounterConverter.ts:112-144 | Deriving the name of a derived name changes nothing |
| `CounterName.ParseCounterNameChars` | src/count/PrometheusCounterConverter.ts:112-144 | A character that is not a letter, `_` or a separator appears in the metric name only if it appears in the counter name |
| `CounterName.Sanitize` | src/count/PrometheusCounterConverter.ts:113-115 | Sanitizing works character by character, keeps the length, and gives a well-formed name |
| `CounterName.SanitizeIdempotent` | src/count/PrometheusCounterConverter.ts:113-115 | Sanitizing twice is the same as sanitizing once |
| `CounterName.SanitizeFixes` | src/count/PrometheusCounterConverter.ts:138 | Sanitizing leaves a well-formed name unchanged |
| `CounterName.SanitizeDotted` | src/count/PrometheusCounterConverter.ts:137-138 | Sanitizing `a.b` for a well-formed `b` gives sanitized `a`, then `_`, then `b` |
| `Text.Split` | src/count/PrometheusCounterConverter.ts:119 | `split` returns at least one part, and no part holds the separator |
| `Text.JoinSplit` | src/count/PrometheusCounterConverter.ts:119 | Joining the parts with the separator gives back the split text |
| `Text.SplitJoin` | src/count/PrometheusCounterConverter.ts:73 | Splitting the join of separator-free parts gives the parts back |
| `Text.LowerChar` | src/count/PrometheusCounterConverter.ts:138 | Lower-casing moves an ASCII capital to its small letter and leaves every other character alone |

## Left out

- `src/services/PrometheusMetricsService.ts` and the factory under `src/build/` are not part of this model. They are an HTTP route and dependency registration around the converter.
- Numbers are not rendered. `StringConverter.toString` belongs to a foreign library and works on JavaScript floating point, so it is the parameter `show: real -> string`. Counter values are reals.
- `toLowerCase` is modelled for ASCII letters only. Full Unicode case mapping is not modelled.
- Null values are not modelled. The counter list, counter names, `source` and `instance` are plain strings and sequences, never null or undefined. A falsy `source` or `instance` is the empty string. The guard at line 117, which can never fire, is not reproduced.
- Counter fields the converter does not read are not modelled, including the Timestamp counter's `time`, whose output lines are commented out in the source.
- JavaScript orders integer-like object keys before the others. The six label keys are fixed words, so insertion order is the enumeration order. `LabelMap` keeps insertion order and nothing else.
- `LabelGeneration.ParseLabels`, `ParseEntry` and `ParseEntries` have no counterpart in the source. They are a reference reader used only to state that the label suffix is unambiguous.
