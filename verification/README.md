# lading, modelled in Dafny

lading is a synthetic load generator. It produces payload streams for a
target daemon, such as a metrics agent, and records its own counters while
it runs. This project models five sequential pieces of it and proves
properties of each piece:

- **The byte-budgeted DogStatsD serialiser** (`DogStatsD`). Members of three
  kinds (metric, event, service check) are picked by weighted index. Each is
  written as its text and a newline while the line still fits in what remains
  of `max_bytes`. The string-pool helpers `random_strings` and
  `random_strings_with_length` are included.
- **The DogStatsD event datagram** (`DogStatsDEvent`). The line has the form
  `_e{<title length>,<text length>}:<title>|<text>|d:…|h:…|p:…|t:…|k:…|s:…|#tags`.
  - `Render` states the text field by field.
  - `Fmt` writes it step by step, as the `Display` implementation does, and
    is proved equal to `Render`.
  - `DecodeEvent` reads a datagram back, and the round trip is proved.
  - The priority and alert sampling and text are included.
- **The value helpers** (`DogStatsDCommon`):
  - integer and float values and their text;
  - the value generator built from a constant or an inclusive range;
  - the sample rate `ZeroToOne`.
- **The file generator** (`FileGen`):
  - `path_from_template` (`%NNN%` becomes the zero-padded file index);
  - the default block sizes and the file-size limit;
  - the 32-bit index counter that all duplicates share;
  - each duplicate's writer (`Child`), whose byte count rotates the file once
    it is strictly over the soft limit.
- **The command line** (`LadingCli`):
  - the `KEY=VAL,KEY2=VAL` label parser `CliKeyValues::from_str` and its
    printer `Display`;
  - the part of `get_config` that lets the command line override the loaded
    configuration's target and telemetry.

Shared text helpers live in `Strings` (`str::split`, joining, prefixes) and
`Numerals` (base-ten text, `{:04}` zero padding). `Wrappers` holds `Option`
and `Result`.

Random draws are inputs throughout. A draw from a range is a raw number
folded into that range. A weighted-index draw is a number below the total
weight. The stream of members is a function from position to member. The
blocks the throttle admits are a sequence of sizes.

The telemetry precedence follows the code, not its documentation. The doc
comments at `lading/src/bin/lading.rs:115-122` say that `--capture-path`
overrides `--prometheus-addr`. The code at lines 213-222 tests
`prometheus_addr` first, so the Prometheus address wins. The model, and
`LadingCli.TelemetryFlagsReplace`, follow the code.

Other choices:

- A byte unit `MB` is 10^6 bytes, so the default block sizes are 1 000 000
  to 32 000 000 bytes.
- The file-size limit is soft. A file is rotated after the first block that
  takes it strictly over the limit. A closed file therefore exceeds the limit
  by at most that block; equality holds when the file was exactly at the
  limit before the block.
- `AtomicU32::fetch_add` wraps at 2^32. The counter keeps a ghost count of
  the tickets it has handed out, and an index is `ticket % 2^32`.

## Model

| member | source | states |
|---|---|---|
| Numerals.ZeroPadShape | lading/src/generator/file_gen.rs:319 | `{index:04}` is all digits, at least four wide, and ends with the full decimal text of the index: it pads and never truncates |
| Numerals.ZeroPadRoundTrip | lading/src/generator/file_gen.rs:319 | the zero-padded text reads back as the index |
| Numerals.ParseDecimalRoundTrip | lading_payload/src/dogstatsd/event.rs:79-88 | the `{}` text of an unsigned number (header lengths, timestamp) reads back as that number |
| Numerals.IntTextRoundTrip | lading_payload/src/dogstatsd/common.rs:91 | the `{}` text of a signed integer, with a minus sign for negatives, reads back as the integer |
| Strings.Split | lading/src/bin/lading.rs:60 | like `str::split`, the pieces number at least one and none holds the separator |
| Strings.SplitAppend | lading/src/bin/lading.rs:60 | cutting `a`, separator, `b` gives the pieces of `a` followed by the pieces of `b` |
| Strings.SplitJoin | lading_payload/src/dogstatsd/event.rs:108-115 | splitting the comma-joined tags gives back the tags when none contains a comma |
| Strings.JoinSeparatorCount | lading_payload/src/dogstatsd/event.rs:108-115 | joining n separator-free pieces writes exactly n - 1 separators |
| DogStatsDCommon.NumValueText | lading_payload/src/dogstatsd/common.rs:88-94 | an integer value is written as digits that read back as that integer; a float as the float text of its value |
| DogStatsDCommon.SampleZeroToOne | lading_payload/src/dogstatsd/common.rs:103-113 | draw 0 gives `One` and draw 1 gives `Frac` of the 32-bit draw, both ways round |
| DogStatsDCommon.ZeroToOneText | lading_payload/src/dogstatsd/common.rs:116-129 | `One` is written `1`, `Frac(0)` is written `0` with no division, any other fraction is float text of a number in (0, 1]; the text denotes the rate |
| DogStatsDCommon.RateInUnitInterval | lading_payload/src/dogstatsd/common.rs:116-129 | every `ZeroToOne` denotes a rate in [0, 1] |
| DogStatsDCommon.NewGenerator | lading_payload/src/dogstatsd/common.rs:37-50 | a constant gives the constant generator holding `c` and `c` as a float; an inclusive range gives the uniform generator over [min, max]; the float probability is kept |
| DogStatsDCommon.UniformInt | lading_payload/src/dogstatsd/common.rs:81 | the integer draw lies in [min, max] |
| DogStatsDCommon.UniformFloat | lading_payload/src/dogstatsd/common.rs:79 | the float draw lies in [min, max] |
| DogStatsDCommon.Generate | lading_payload/src/dogstatsd/common.rs:56-85 | a float is produced exactly when the (0, 1] draw is below the float probability; a constant generator yields its integer or its float; a uniform one stays in its ranges |
| DogStatsDCommon.NonPositiveProbabilityYieldsInt | lading_payload/src/dogstatsd/common.rs:60-71 | a float probability of zero or less always yields an integer |
| DogStatsDCommon.ProbabilityAboveOneYieldsFloat | lading_payload/src/dogstatsd/common.rs:60-68 | a float probability above one always yields a float |
| DogStatsDCommon.GeneratedValueInConfiguredRange | lading_payload/src/dogstatsd/common.rs:37-85 | a value generated from a configuration is its constant, or lies in its inclusive range |
| DogStatsDEvent.PriorityRoundTrip | lading_payload/src/dogstatsd/event.rs:141-148 | `normal` and `low` read back as their priority |
| DogStatsDEvent.SamplePriority | lading_payload/src/dogstatsd/event.rs:128-139 | draw 0 is `Low`, draw 1 is `Normal`, both ways round |
| DogStatsDEvent.AlertRoundTrip | lading_payload/src/dogstatsd/event.rs:173-182 | `error`, `warning`, `info` and `success` read back as their alert type |
| DogStatsDEvent.SampleAlert | lading_payload/src/dogstatsd/event.rs:158-171 | draws 0 to 3 are error, warning, info and success, both ways round |
| DogStatsDEvent.SamplingHitsEveryVariant | lading_payload/src/dogstatsd/event.rs:133-169 | every alert type and every priority is sampled by some in-range draw, and distinct alert draws give distinct alerts |
| DogStatsDEvent.GenerateEvent | lading_payload/src/dogstatsd/event.rs:21-57 | the header lengths are the lengths of the drawn title and text; every drawn field is carried into the event; a drawn priority is the sampled priority and a drawn alert the sampled alert type |
| DogStatsDEvent.Fmt | lading_payload/src/dogstatsd/event.rs:76-119 | writing the header, each present field and the tags step by step yields exactly `Render(e)` |
| DogStatsDEvent.WriteField | lading_payload/src/dogstatsd/event.rs:87-104 | one `if let` write appends a bar, the key and the value when the value is present, nothing otherwise |
| DogStatsDEvent.WriteFieldAt | lading_payload/src/dogstatsd/event.rs:87-104 | after the first k sections, one more write covers k + 1 of them |
| DogStatsDEvent.WriteScalarFields | lading_payload/src/dogstatsd/event.rs:87-104 | the six writes after the header produce the first six sections |
| DogStatsDEvent.WriteLaterFields | lading_payload/src/dogstatsd/event.rs:96-104 | the alert, aggregation-key and source-type writes extend three sections to six |
| DogStatsDEvent.WriteTags | lading_payload/src/dogstatsd/event.rs:105-117 | the tag loop with `commas_remaining` writes a bar, `#` and the tags joined by commas, with no trailing comma, only for a present non-empty tagset |
| DogStatsDEvent.TagsWrittenStep | lading_payload/src/dogstatsd/event.rs:109-115 | one tag written: the tag, then a comma unless it was the last |
| DogStatsDEvent.WroteSection | lading_payload/src/dogstatsd/event.rs:87-104 | a section written after the first k gives the text of k + 1 sections |
| DogStatsDEvent.RenderBeginsWithHeader | lading_payload/src/dogstatsd/event.rs:79-86 | the datagram starts with `_e{<title length>,<text length>}:`, the title, a bar and the text |
| DogStatsDEvent.SectionPresentIffSome | lading_payload/src/dogstatsd/event.rs:87-104 | each optional field is written exactly when present, as a bar, its key and its value, in the order d, h, p, t, k, s, # |
| DogStatsDEvent.TagSectionCommas | lading_payload/src/dogstatsd/event.rs:105-116 | n comma-free tags are written as `#` and the tags with exactly n - 1 commas |
| DogStatsDEvent.OptionalFieldsOf | lading_payload/src/dogstatsd/event.rs:87-116 | the optional fields, keyed, in their fixed order |
| DogStatsDEvent.TagsValueRoundTrip | lading_payload/src/dogstatsd/event.rs:105-116 | the tag text splits back into the tags; an empty tagset writes nothing and reads back as none |
| DogStatsDEvent.DecodeHeaderOf | lading_payload/src/dogstatsd/event.rs:79-86 | the header reads back as the two lengths, the title and the text |
| DogStatsDEvent.DecodeFieldsOfEvent | lading_payload/src/dogstatsd/event.rs:87-116 | the written fields of a well-formed event read back as its optional part |
| DogStatsDEvent.DecodeRender | lading_payload/src/dogstatsd/event.rs:76-119 | reading back the datagram of a well-formed event gives the event, with an empty tagset read as none |
| DogStatsDEvent.GeneratedEventRoundTrip | lading_payload/src/dogstatsd/event.rs:35-56 | every generated event whose strings hold no bar (and whose tags avoid `,`) reads back from its datagram as itself, an empty tagset read as none |
| DogStatsD.GenerateMember | lading/src/payload/dogstatsd.rs:287-321 | kind index 0 is a metric, 1 an event, 2 a service check; the member's text is exactly its variant's text |
| DogStatsD.WeightedPick | lading/src/payload/dogstatsd.rs:279 | the weighted index drawn is the one whose cumulative-weight interval holds the draw |
| DogStatsD.KindFollowsChoiceOrder | lading/src/payload/dogstatsd.rs:273-297 | kinds follow the `member_choices` order: the first `metric` draws are metrics, the next `event` draws events, the rest service checks |
| DogStatsD.ZeroWeightNeverDrawn | lading/src/payload/dogstatsd.rs:279 | a kind of weight zero is never drawn |
| DogStatsD.DefaultKindSplit | lading/src/payload/dogstatsd.rs:61-68 | with the default 80/10/10 weights, draws 0-79 give metrics, 80-89 events and 90-99 service checks |
| DogStatsD.Line | lading/src/payload/dogstatsd.rs:396-399 | a record is the encoding and a newline, one byte longer than the encoding |
| DogStatsD.FitCountFits | lading/src/payload/dogstatsd.rs:392-404 | the lines counted fit in the remaining bytes and one more line would not |
| DogStatsD.PayloadWithinBudget | lading/src/payload/dogstatsd.rs:425-447 | the block never exceeds `max_bytes` and consists of whole lines |
| DogStatsD.StopsAtFirstMisfit | lading/src/payload/dogstatsd.rs:397-403 | the number of lines written is exactly the n for which n lines fit and n + 1 do not: no partial line, no skipping to a shorter member |
| DogStatsD.LineCountBounded | lading/src/payload/dogstatsd.rs:392-404 | at most `max_bytes` lines are written, and a zero budget writes nothing |
| DogStatsD.PayloadRecords | lading/src/payload/dogstatsd.rs:394-400 | splitting the block at newlines gives the written member texts in order, each followed by exactly one newline |
| DogStatsD.Writer.WriteLine | lading/src/payload/dogstatsd.rs:399 | `writeln!` appends the text and a newline |
| DogStatsD.ToBytes | lading/src/payload/dogstatsd.rs:387-405 | the loop over `bytes_remaining` appends to the writer exactly the budgeted block of whole lines (see `Payload`) and nothing else |
| DogStatsD.RandomStrings | lading/src/payload/dogstatsd.rs:181-190 | exactly `total` strings, the i-th being the i-th drawn, each no longer than the 16-bit `max_length` |
| DogStatsD.CountInRange | lading/src/payload/dogstatsd.rs:172 | the count drawn lies in the half-open range [start, end) |
| DogStatsD.RandomStringsWithLength | lading/src/payload/dogstatsd.rs:167-176 | the number of strings lies in [start, end) and is the drawn count; the i-th string is the i-th drawn, no longer than the 16-bit `max_length` |
| FileGen.ReplaceAbsent | lading/src/generator/file_gen.rs:320 | a text without the pattern is returned unchanged by `replace` |
| FileGen.ReplaceAfterPlainPrefix | lading/src/generator/file_gen.rs:320 | `replace` copies the text before an occurrence in which no earlier occurrence starts, substitutes it, and carries on after it |
| FileGen.ReplaceJoined | lading/src/generator/file_gen.rs:320 | pieces joined by the pattern, no occurrence starting inside a piece, come back from `replace` joined by the replacement |
| FileGen.SplitOnRejoins | lading/src/generator/file_gen.rs:320 | the left-to-right scan for the pattern cuts the text into pieces that rejoin to it |
| FileGen.SplitOnLast | lading/src/generator/file_gen.rs:320 | the piece after the last occurrence holds no occurrence |
| FileGen.SplitOnPlain | lading/src/generator/file_gen.rs:320 | no occurrence starts inside any piece, and there are several pieces exactly when the text holds the pattern |
| FileGen.ReplaceSplit | lading/src/generator/file_gen.rs:320 | `replace` puts the replacement at every non-overlapping occurrence, scanning left to right, for any number of occurrences and any text around them |
| FileGen.TemplateWithoutPattern | lading/src/generator/file_gen.rs:318-322 | a template without `%NNN%` is the path of every file |
| FileGen.TemplateIndex | lading/src/generator/file_gen.rs:318-321 | every `%NNN%` of the template, however many and wherever, is replaced by the index zero-padded to at least four digits, never cut, and reading back as the index; the rest of the template is kept |
| FileGen.DistinctIndicesDistinctPaths | lading/src/generator/file_gen.rs:318-321 | different indices give different paths for any template holding `%NNN%`, whatever text surrounds it |
| FileGen.NonZeroSizes | lading/src/generator/file_gen.rs:145-147 | sizes are cast to 64 bits and accepted exactly when none comes out zero, else "bytes must be non-zero" |
| FileGen.DefaultBlockSizesUsed | lading/src/generator/file_gen.rs:133-147 | with no sizes configured the sizes are 1, 2, 4, 8, 16 and 32 MB, all accepted |
| FileGen.MaximumBytesPerFile | lading/src/generator/file_gen.rs:163-164 | the limit is the configured bytes cast to 32 bits, refused when that is zero |
| FileGen.IndexOf | lading/src/generator/file_gen.rs:247 | an index handed out by the counter is below 2^32 |
| FileGen.FileIndex.constructor | lading/src/generator/file_gen.rs:167 | the shared counter starts at zero |
| FileGen.FileIndex.FetchAdd | lading/src/generator/file_gen.rs:247 | `fetch_add(1)` returns the current value, the index of the next ticket, and advances the counter by one with 32-bit wrap-around |
| FileGen.WrapStep | lading/src/generator/file_gen.rs:247 | adding one with wrap-around to the index of ticket n gives the index of ticket n + 1 |
| FileGen.AscendingIncreasing | lading/src/generator/file_gen.rs:291 | the tickets of a writer's files strictly increase between any two positions |
| FileGen.CutAt | lading/src/generator/file_gen.rs:277-289 | every file closed by the rotation rule is not empty, ends with its closing block, was within the limit before that block and holds more than the limit, by at most that block, after it |
| FileGen.GoodOpened | lading/src/generator/file_gen.rs:247-258 | opening the first file starts a good log |
| FileGen.GoodAppended | lading/src/generator/file_gen.rs:274-281 | a block that keeps the count within the limit keeps the log good, with the block counted in the current file |
| FileGen.GoodRotated | lading/src/generator/file_gen.rs:283-305 | a block that takes the count strictly over the limit, followed by rotation to the next ticket, keeps the log good |
| FileGen.SoftLimit | lading/src/generator/file_gen.rs:277-289 | in files cut by the rotation rule, each closed file received blocks up to and including the first that took it strictly over the limit, and no more; it holds more than the limit and no more than the limit plus its closing block |
| FileGen.PartitionedOpened | lading/src/generator/file_gen.rs:250-258 | a writer that has just opened its first file has one empty file and no blocks |
| FileGen.PartitionedAppended | lading/src/generator/file_gen.rs:274-281 | a block that keeps the current file within the limit goes at its end, and the files still hold exactly the blocks written |
| FileGen.CutClose | lading/src/generator/file_gen.rs:277-289 | closing the current file at the block that took it over the limit keeps every closed file cut by the rotation rule |
| FileGen.PartitionedRotated | lading/src/generator/file_gen.rs:277-305 | a block that takes the current file strictly over the limit ends that file, and a new empty file becomes the current one |
| FileGen.PartitionedAdmit | lading/src/generator/file_gen.rs:272-306 | admitting one block, by either branch of `spin`, keeps the files cut by the rotation rule and adds the block to the blocks written |
| FileGen.AdmitAllSnoc | lading/src/generator/file_gen.rs:268-306 | admitting one more block continues the run from where the earlier blocks left it |
| FileGen.RotationRule | lading/src/generator/file_gen.rs:268-306 | for every run of admitted blocks: the files, one after another, hold exactly those blocks; each closed file ends at the first block that took it strictly over the limit; the current file is within the limit |
| FileGen.PathsAt | lading/src/generator/file_gen.rs:247-248 | the i-th path is the template filled with the i-th ticket's index |
| FileGen.OpensOfAt | lading/src/generator/file_gen.rs:250-258 | the i-th file opened is the i-th ticket's, with truncation only for the first |
| FileGen.MatchOpen | lading/src/generator/file_gen.rs:291-303 | opening the next ticket's file adds one empty file to what the file system saw, in ticket order |
| FileGen.MatchWrite | lading/src/generator/file_gen.rs:278-280 | a written block is recorded and counted in the current file |
| FileGen.MatchFlush | lading/src/generator/file_gen.rs:284 | a flush changes no file |
| FileGen.MatchClose | lading/src/generator/file_gen.rs:285-289 | closing the current file removes its path only when rotating |
| FileGen.MatchStarted | lading/src/generator/file_gen.rs:247-258 | the first operation, opening the first ticket's file with truncation, matches the opened log |
| FileGen.MatchRotated | lading/src/generator/file_gen.rs:277-305 | write, flush, remove when rotating and open of the next ticket's file together match the rotated log |
| FileGen.MatchFinished | lading/src/generator/file_gen.rs:242-314 | operations matching a good log of a run that admitted the given blocks wrote every block in order, counted through each open handle exactly the bytes the log counts, opened the files in ascending ticket order, removed exactly the closed files when rotating; the files hold the blocks by the rotation rule: each closed file ends at the first block that took it strictly over the limit, and the current file is within the limit |
| FileGen.Child.constructor | lading/src/generator/file_gen.rs:187-196 | a writer holds its template, limit, rotation flag and the shared counter, with nothing written |
| FileGen.Child.Start | lading/src/generator/file_gen.rs:244-258 | `spin` begins by taking the next index and creating or truncating the file the template names for it, with the count at zero; the operations match the log |
| FileGen.Child.OpenFile | lading/src/generator/file_gen.rs:291-303 | the next index is taken and its file opened; nothing else changes |
| FileGen.Child.WriteBlock | lading/src/generator/file_gen.rs:272-306 | the block is written and counted; at most the limit keeps the file; strictly over it flushes, removes the old path only when rotating, takes the next index, opens its file without truncation and resets the count; the new state is one step of the rotation rule from the old; the operations keep matching the log |
| FileGen.Child.Append | lading/src/generator/file_gen.rs:274-281 | the block is written and `total_bytes_written` grows by exactly its size |
| FileGen.Child.Close | lading/src/generator/file_gen.rs:283-289 | the file is flushed and removed only when `rotate` is set; the count is reset |
| FileGen.Child.Shutdown | lading/src/generator/file_gen.rs:307-311 | on shutdown the current file is flushed and nothing else changes; the operations keep matching the log |
| FileGen.Child.WriteAll | lading/src/generator/file_gen.rs:268-306 | every admitted block is written in turn: the writes the file system saw grow by exactly the admitted blocks, the new state is the rotation rule run over them from the old, and the operations keep matching the log |
| FileGen.Child.Run | lading/src/generator/file_gen.rs:242-314 | the first file, every admitted block and the final flush, with the log good, the state that of the rotation rule run over the admitted blocks from the first ticket, and the operations matching the log |
| FileGen.Child.Spin | lading/src/generator/file_gen.rs:242-314 | a run opens the file of the first index with truncation; the file system sees every admitted block in order, each opened handle receiving the bytes the log counts and the counts adding up to the admitted total; files are opened in ascending ticket order and, when rotating, exactly the closed ones removed; the state is the rotation rule run over the admitted blocks: each closed file ends at the first block that took it strictly over the limit and the current file is within the limit; the run ends with a flush |
| FileGen.NewFileGen | lading/src/generator/file_gen.rs:166-199 | one fresh writer per duplicate, all sharing one counter that starts at zero |
| LadingCli.FromStr | lading/src/bin/lading.rs:54-71 | the loop over comma-separated segments computes exactly `ParseLabels(input)` |
| LadingCli.ParseEmpty | lading/src/bin/lading.rs:502-507 | the empty value parses to the empty map |
| LadingCli.PairFields | lading/src/bin/lading.rs:64-67 | a segment is accepted exactly when it holds `=`; the key is the text before the first `=` and the value runs to the next `=` or the end; the only error is "pairs must be separated by '='" |
| LadingCli.PairDropsRest | lading/src/bin/lading.rs:64-67 | whatever follows a second `=` is dropped |
| LadingCli.EmptySegmentSkipped | lading/src/bin/lading.rs:60-63 | an empty segment anywhere is skipped |
| LadingCli.TrailingCommaSkipped | lading/src/bin/lading.rs:520-525 | a trailing comma does not change the parse |
| LadingCli.ParseFailsIff | lading/src/bin/lading.rs:58-66 | the value is refused exactly when some non-empty segment has no `=`, and then with "pairs must be separated by '='" |
| LadingCli.ErrSticks | lading/src/bin/lading.rs:65-66 | once a segment is refused, the rest of the input changes nothing |
| LadingCli.LaterPairOverrides | lading/src/bin/lading.rs:67 | a later `key=value` overrides an earlier value for the same key |
| LadingCli.Fmt | lading/src/bin/lading.rs:45-52 | each pair is written as `k=v,` in an iteration order that lists every key exactly once |
| LadingCli.RenderEmptyIff | lading/src/bin/lading.rs:47-50 | the printed text is empty exactly when the map is |
| LadingCli.ParseRender | lading/src/bin/lading.rs:45-71 | whatever order `Display` picks, parsing its text gives back the map, when keys and values hold no `,` or `=` |
| LadingCli.RenderJoinsEntries | lading/src/bin/lading.rs:47-50 | the printed text is the comma-joined `k=v` entries with a trailing comma |
| LadingCli.PrintParsedPairs | lading/src/bin/lading.rs:510-518 | distinct `k=v` pairs joined by commas parse to their map, and printing it in input order gives the input with a trailing comma |
| LadingCli.MergeLabels | lading/src/bin/lading.rs:229-239 | inserting the command-line labels gives the union of keys, the command line winning on shared keys, whatever the iteration order |
| LadingCli.GetConfig | lading/src/bin/lading.rs:188-243 | the target and the telemetry become those the command line selects |
| LadingCli.TargetPrecedence | lading/src/bin/lading.rs:188-209 | `--no-target` gives none, else `--target-pid` gives a PID target, else `--target-path` gives a binary target running that path with the command-line environment, none meaning empty |
| LadingCli.TelemetryFlagsReplace | lading/src/bin/lading.rs:212-222 | `--prometheus-addr` wins over `--capture-path`; either replaces the telemetry, keeping only the command-line labels |
| LadingCli.TelemetryLabelsMerged | lading/src/bin/lading.rs:223-241 | with neither flag, the loaded telemetry stays and the command-line labels are merged over its labels |

## Left out

- Byte and text encoding: a `char` stands for one byte, so a string's length is its UTF-8 byte length only for ASCII text.
- Floating point: `NumValue::Float` text, `ZeroToOne::Frac(n)` text for n ≠ 0, `multivalue_pack_probability` and the `Byte::from_unit` conversions. Floats are exact reals; only which number a float text denotes is kept.
- DogStatsDCommon.Generate: the `f32` float probability and `f64` draws are reals, and the `i64` range is unbounded.
- Metric and service-check rendering are not part of this model: those members carry their rendered text.
- The string pool, tag generation and `choose_or_not` are random draws given as inputs.
- `rand` distributions (`WeightedIndex`, `Uniform`, `OpenClosed01`, `gen_range`) are inputs with their range postconditions, not their sampling algorithms.
- `Throttle::wait_for` and `block::Cache` are outside the model: a run of `Child::spin` is driven by the sequence of admitted block sizes, and the shutdown branch is taken after them.
- File I/O (open, write, flush, remove) is recorded as `FileOp` values; buffering, I/O errors and the peekable block channel are not modelled.
- FileGen.Step: re-opening a path that already exists without truncation (a template without `%NNN%`, or a file left from an earlier run) keeps the bytes it held; the trace counts the bytes written through each opened handle, not the contents of the file on disk.
- Concurrent duplicates: the model has one writer at a time over the shared counter. Interleavings of several writers' `fetch_add` calls are not modelled; each ticket is handed out once because every `FetchAdd` advances the ticket count.
- The `bytes_written` counter and logging are side channels and are not modelled.
- `get_config`'s file and `LADING_CONFIG` reading, YAML decoding, the RSS limit, and the parsing of the Prometheus address and capture path are not modelled: the decoded configuration and the address and path text are inputs. The configuration keeps only its target and telemetry.
- The `Behavior` type of the target's output is not part of this model beyond `Quiet` and a log path; the telemetry variant `Telemetry::Log` is named `CaptureLog`.
- clap's argument checking is the precondition `TargetChosen`: at least one of `--target-path`, `--target-pid`, `--no-target` is given, as the `unreachable!` branch demands.
- DogStatsDCommon.NewGenerator: an inclusive range with `min > max` makes `Uniform::new_inclusive` panic; the model requires `min <= max` instead of modelling the panic.
- DogStatsD.WeightedPick: `WeightedIndex::new(member_choices).unwrap()` panics when every weight is zero; the model requires a draw below a positive total weight instead of modelling the panic. The weights are `u8` and `WeightedIndex<u8>` adds them up in `u8`, so weights totalling more than 255 overflow (a panic in a debug build, a wrapped total in a release build); the model takes the exact total.
- DogStatsD.ToBytes: the error `writeln!` can return is not modelled; a write into the in-memory buffer is taken to succeed.
- DogStatsD.GenerateMember: `Member::Event` in `lading/src/payload/dogstatsd.rs` wraps that module's own `event::Event` (its `mod event`), whose source is not part of this model; the event text is rendered by `DogStatsDEvent.Render`, which models the `lading_payload` event format.
- `inner_main`, `main` and `run_process_tree` are runtime setup and are not modelled.
