/**
 * The `lading` binary's command line: the `KEY=VAL,KEY2=VAL` label lists
 * (`CliKeyValues`, its parser and its printer) and the step of `get_config`
 * that lets the command line override the loaded configuration's target and
 * telemetry settings.
 *
 * Reading the configuration file or the `LADING_CONFIG` variable and decoding
 * its YAML are not modelled: the decoded configuration is an input.
 */
module LadingCli {
  import opened Wrappers
  import opened Strings

  /** The label map; its iteration order is the hash map's and is not fixed. */
  type Labels = map<string, string>

  const PairError: string := "pairs must be separated by '='"

  // ---------------------------------------------------------------------
  // Parsing `KEY=VAL,KEY2=VAL`
  // ---------------------------------------------------------------------

  /**
   * One non-empty segment: the text before the first `=` is the key, the text
   * up to the next `=` (or the end) is the value; without any `=` there is no
   * value and the segment is refused.
   */
  function ParsePair(kv: string): Result<(string, string), string>
  {
    var pair := Split(kv, '=');
    if |pair| < 2 then Err(PairError) else Ok((pair[0], pair[1]))
  }

  /** One segment applied to the labels read so far: empty segments are skipped, a refused one ends the parse. */
  function Insert(r: Result<Labels, string>, kv: string): Result<Labels, string>
  {
    if r.Err? || kv == "" then r
    else match ParsePair(kv)
      case Err(e) => Err(e)
      case Ok((key, value)) => Ok(r.value[key := value])
  }

  /** The segments applied left to right. */
  function ParseFrom(r: Result<Labels, string>, segments: seq<string>): Result<Labels, string>
  {
    if |segments| == 0 then r else Insert(ParseFrom(r, segments[..|segments| - 1]), segments[|segments| - 1])
  }

  /** The parse of a whole command-line value, cut at every comma. */
  function ParseLabels(input: string): Result<Labels, string>
  {
    ParseFrom(Ok(map[]), Split(input, ','))
  }

  /** `CliKeyValues::from_str`: a loop over the comma-separated segments inserting into a map. */
  method FromStr(input: string) returns (r: Result<Labels, string>)
    ensures r == ParseLabels(input)
  {
    var segments := Split(input, ',');
    var labels: Labels := map[];
    for i := 0 to |segments|
      invariant ParseFrom(Ok(map[]), segments[..i]) == Ok(labels)
    {
      assert segments[..i + 1][..i] == segments[..i];
      var kv := segments[i];
      if kv == "" {
        continue;
      }
      var pair := Split(kv, '=');
      var key := pair[0];
      if |pair| < 2 {
        ParseFromErr(segments[..i + 1], segments[i + 1..], PairError);
        assert segments[..i + 1] + segments[i + 1..] == segments;
        return Err(PairError);
      }
      var value := pair[1];
      labels := labels[key := value];
    }
    assert segments[..|segments|] == segments;
    return Ok(labels);
  }

  /** Parsing a concatenation of segment lists is parsing the second list after the first. */
  lemma {:induction false} ParseFromAppend(r: Result<Labels, string>, xs: seq<string>, ys: seq<string>)
    ensures ParseFrom(r, xs + ys) == ParseFrom(ParseFrom(r, xs), ys)
    decreases |ys|
  {
    if |ys| == 0 {
      assert xs + ys == xs;
    } else {
      var n := |ys| - 1;
      assert (xs + ys)[..|xs + ys| - 1] == xs + ys[..n];
      ParseFromAppend(r, xs, ys[..n]);
    }
  }

  /** Once a segment is refused, the rest of the input changes nothing. */
  lemma {:induction false} ErrSticks(e: string, ys: seq<string>)
    ensures ParseFrom(Err(e), ys) == Err(e)
    decreases |ys|
  {
    if |ys| > 0 {
      ErrSticks(e, ys[..|ys| - 1]);
    }
  }

  /** A prefix that fails makes the whole input fail with the same error. */
  lemma ParseFromErr(xs: seq<string>, ys: seq<string>, e: string)
    requires ParseFrom(Ok(map[]), xs) == Err(e)
    ensures ParseFrom(Ok(map[]), xs + ys) == Err(e)
  {
    ParseFromAppend(Ok(map[]), xs, ys);
    ErrSticks(e, ys);
  }

  /** The empty command-line value is the empty label set. */
  lemma ParseEmpty()
    ensures ParseLabels("") == Ok(map[])
  {
    assert Split("", ',') == [""];
    assert [""][..0] == [];
  }

  /** A segment is accepted exactly when it holds an `=`; the key ends at the first `=`, the value at the second. */
  lemma PairFields(kv: string)
    ensures ParsePair(kv).Ok? <==> '=' in kv
    ensures '=' in kv ==>
      var (key, rest) := SpanUntil(kv, '=').value;
      ParsePair(kv) == Ok((key, if '=' in rest then SpanUntil(rest, '=').value.0 else rest))
    ensures ParsePair(kv).Err? ==> ParsePair(kv).error == PairError
  {
    if '=' in kv {
      var (key, rest) := SpanUntil(kv, '=').value;
      SplitCons(key, '=', rest);
      if '=' in rest {
        var (a, b) := SpanUntil(rest, '=').value;
        SplitCons(a, '=', b);
      } else {
        SplitNoSep(rest, '=');
      }
    } else {
      SplitNoSep(kv, '=');
    }
  }

  /** Whatever follows a second `=` is dropped. */
  lemma PairDropsRest(key: string, value: string, rest: string)
    requires '=' !in key && '=' !in value
    ensures ParsePair(key + "=" + value + "=" + rest) == Ok((key, value))
  {
    SplitCons(key, '=', value + "=" + rest);
    SplitCons(value, '=', rest);
    assert key + "=" + value + "=" + rest == key + ['='] + (value + ['='] + rest);
  }

  /** Empty segments, wherever they are (a trailing comma, two commas in a row), are skipped. */
  lemma EmptySegmentSkipped(xs: seq<string>, ys: seq<string>)
    ensures ParseFrom(Ok(map[]), xs + [""] + ys) == ParseFrom(Ok(map[]), xs + ys)
  {
    ParseFromAppend(Ok(map[]), xs + [""], ys);
    ParseFromAppend(Ok(map[]), xs, ys);
    assert (xs + [""])[..|xs|] == xs;
  }

  /** A trailing comma does not change the parse. */
  lemma TrailingCommaSkipped(s: string)
    ensures ParseLabels(s + ",") == ParseLabels(s)
  {
    SplitAppend(s, ',', "");
    assert s + [','] + "" == s + ",";
    var segments := Split(s, ',');
    assert (segments + [""])[..|segments|] == segments;
  }

  /**
   * A segment is refused, and the whole value with it, exactly when some
   * non-empty segment has no `=`; the only error is the pair error.
   */
  lemma {:induction false} ParseFailsIff(segments: seq<string>)
    ensures ParseFrom(Ok(map[]), segments).Err? <==>
      exists i :: 0 <= i < |segments| && segments[i] != "" && '=' !in segments[i]
    ensures ParseFrom(Ok(map[]), segments).Err? ==> ParseFrom(Ok(map[]), segments).error == PairError
    decreases |segments|
  {
    if |segments| > 0 {
      var n := |segments| - 1;
      var init := segments[..n];
      ParseFailsIff(init);
      PairFields(segments[n]);
      if exists i :: 0 <= i < n && init[i] != "" && '=' !in init[i] {
        var i :| 0 <= i < n && init[i] != "" && '=' !in init[i];
        assert segments[i] == init[i];
      }
      if exists i :: 0 <= i < |segments| && segments[i] != "" && '=' !in segments[i] {
        var i :| 0 <= i < |segments| && segments[i] != "" && '=' !in segments[i];
        if i < n {
          assert init[i] == segments[i];
        }
      }
    }
  }

  /** A later `key=value` overrides whatever an earlier segment gave the same key. */
  lemma LaterPairOverrides(s: string, labels: Labels, key: string, value: string)
    requires ParseLabels(s) == Ok(labels)
    requires ',' !in key && '=' !in key && ',' !in value && '=' !in value
    ensures ParseLabels(s + "," + key + "=" + value) == Ok(labels[key := value])
  {
    var kv := key + "=" + value;
    assert ',' !in kv;
    SplitAppend(s, ',', kv);
    assert s + "," + key + "=" + value == s + [','] + kv;
    SplitNoSep(kv, ',');
    var segments := Split(s, ',');
    assert (segments + [kv])[..|segments|] == segments;
    SplitCons(key, '=', value);
    SplitNoSep(value, '=');
  }

  // ---------------------------------------------------------------------
  // Printing `k=v,` per pair
  // ---------------------------------------------------------------------

  /** One label as `key=value`. */
  function Pair(labels: Labels, key: string): string
    requires key in labels
  {
    key + "=" + labels[key]
  }

  /** The labels written in the given key order, each as `key=value,`. */
  function RenderPairs(labels: Labels, order: seq<string>): string
    requires forall k :: k in order ==> k in labels
  {
    if |order| == 0 then "" else RenderPairs(labels, order[..|order| - 1]) + Pair(labels, order[|order| - 1]) + ","
  }

  /** The key order lists every key of the map exactly once: one possible hash-map iteration order. */
  ghost predicate IsOrderOf(order: seq<string>, labels: Labels)
  {
    (forall k :: k in order <==> k in labels)
    && forall i, j :: 0 <= i < j < |order| ==> order[i] != order[j]
  }

  /**
   * `Display for CliKeyValues`: each pair written as `k=v,` in the map's
   * iteration order, which the returned ghost `order` records.
   */
  method Fmt(labels: Labels) returns (f: string, ghost order: seq<string>)
    ensures IsOrderOf(order, labels)
    ensures f == RenderPairs(labels, order)
  {
    f := "";
    order := [];
    var remaining := labels.Keys;
    while remaining != {}
      invariant remaining <= labels.Keys
      invariant forall k :: k in order <==> k in labels && k !in remaining
      invariant forall i, j :: 0 <= i < j < |order| ==> order[i] != order[j]
      invariant f == RenderPairs(labels, order)
      decreases remaining
    {
      var k :| k in remaining;
      f := f + k + "=" + labels[k] + ",";
      order := order + [k];
      assert order[..|order| - 1] + [k] == order;
      remaining := remaining - {k};
    }
  }

  /** Keys and values that can be printed and read back: no comma and no `=` in them. */
  ghost predicate Printable(labels: Labels)
  {
    forall k :: k in labels ==> ',' !in k && '=' !in k && ',' !in labels[k] && '=' !in labels[k]
  }

  /** The `key=value` entries of the printed text, in order. */
  function Entries(labels: Labels, order: seq<string>): (es: seq<string>)
    requires forall k :: k in order ==> k in labels
    ensures |es| == |order|
    ensures forall i :: 0 <= i < |order| ==> es[i] == Pair(labels, order[i])
  {
    if |order| == 0 then [] else Entries(labels, order[..|order| - 1]) + [Pair(labels, order[|order| - 1])]
  }

  /** A printable entry reads back as its own key and value. */
  lemma PairParses(labels: Labels, key: string)
    requires Printable(labels) && key in labels
    ensures ParsePair(Pair(labels, key)) == Ok((key, labels[key]))
    ensures ',' !in Pair(labels, key)
  {
    SplitCons(key, '=', labels[key]);
    SplitNoSep(labels[key], '=');
  }

  /** Cutting the printed text (and whatever follows it) at commas gives back its entries. */
  lemma {:induction false} SplitRendered(labels: Labels, order: seq<string>, e: string)
    requires Printable(labels) && forall k :: k in order ==> k in labels
    requires ',' !in e
    ensures Split(RenderPairs(labels, order) + e, ',') == Entries(labels, order) + [e]
    decreases |order|
  {
    if |order| == 0 {
      assert RenderPairs(labels, order) + e == e;
      SplitNoSep(e, ',');
    } else {
      var n := |order| - 1;
      var p := Pair(labels, order[n]);
      PairParses(labels, order[n]);
      SplitRendered(labels, order[..n], p);
      SplitAppend(RenderPairs(labels, order[..n]) + p, ',', e);
      SplitNoSep(e, ',');
      assert RenderPairs(labels, order) + e == RenderPairs(labels, order[..n]) + p + [','] + e;
    }
  }

  /** The map holding the listed keys with their values. */
  function Listed(labels: Labels, order: seq<string>): Labels
    requires forall k :: k in order ==> k in labels
  {
    if |order| == 0 then map[] else Listed(labels, order[..|order| - 1])[order[|order| - 1] := labels[order[|order| - 1]]]
  }

  /** The listed map has exactly the listed keys, each with its value in the full map. */
  lemma {:induction false} ListedContents(labels: Labels, order: seq<string>)
    requires forall k :: k in order ==> k in labels
    ensures forall k :: k in Listed(labels, order) <==> k in order
    ensures forall k :: k in Listed(labels, order) ==> Listed(labels, order)[k] == labels[k]
    decreases |order|
  {
    if |order| > 0 {
      var n := |order| - 1;
      ListedContents(labels, order[..n]);
      assert order == order[..n] + [order[n]];
    }
  }

  /** Listing every key of the map rebuilds the map. */
  lemma ListedAll(labels: Labels, order: seq<string>)
    requires IsOrderOf(order, labels)
    ensures Listed(labels, order) == labels
  {
    ListedContents(labels, order);
  }

  /** The printed text is empty exactly when the map is. */
  lemma RenderEmptyIff(labels: Labels, order: seq<string>)
    requires IsOrderOf(order, labels)
    ensures RenderPairs(labels, order) == "" <==> labels == map[]
  {
    ListedAll(labels, order);
  }

  /** Parsing the entries gives every listed key its value. */
  lemma {:induction false} ParseEntries(labels: Labels, order: seq<string>)
    requires Printable(labels) && forall k :: k in order ==> k in labels
    ensures ParseFrom(Ok(map[]), Entries(labels, order)) == Ok(Listed(labels, order))
    decreases |order|
  {
    if |order| > 0 {
      var n := |order| - 1;
      var es := Entries(labels, order);
      assert es[..n] == Entries(labels, order[..n]);
      ParseEntries(labels, order[..n]);
      PairParses(labels, order[n]);
    }
  }

  /** Whatever order `Display` picks, parsing the printed text gives back the same labels. */
  lemma ParseRender(labels: Labels, order: seq<string>)
    requires Printable(labels) && IsOrderOf(order, labels)
    ensures ParseLabels(RenderPairs(labels, order)) == Ok(labels)
  {
    var es := Entries(labels, order);
    SplitRendered(labels, order, "");
    assert RenderPairs(labels, order) + "" == RenderPairs(labels, order);
    assert (es + [""])[..|es|] == es;
    ParseEntries(labels, order);
    ListedAll(labels, order);
  }

  /** The printed text is the comma-joined entries with a trailing comma; the empty map prints nothing. */
  lemma {:induction false} RenderJoinsEntries(labels: Labels, order: seq<string>)
    requires forall k :: k in order ==> k in labels
    ensures RenderPairs(labels, order) == if |order| == 0 then "" else Join(Entries(labels, order), ',') + ","
    decreases |order|
  {
    if |order| > 1 {
      var n := |order| - 1;
      RenderJoinsEntries(labels, order[..n]);
      JoinSnoc(Entries(labels, order[..n]), Pair(labels, order[n]), ',');
    } else if |order| == 1 {
      assert order[..0] == [];
    }
  }

  /**
   * A list of distinct printable `key=value` pairs parses to their map, and
   * printing that map in the input's order gives the input back with a
   * trailing comma.
   */
  lemma PrintParsedPairs(labels: Labels, order: seq<string>)
    requires Printable(labels) && IsOrderOf(order, labels)
    ensures ParseLabels(Join(Entries(labels, order), ',')) == Ok(labels)
    ensures |order| > 0 ==> RenderPairs(labels, order) == Join(Entries(labels, order), ',') + ","
    ensures |order| == 0 ==> RenderPairs(labels, order) == ""
  {
    RenderJoinsEntries(labels, order);
    var es := Entries(labels, order);
    if |order| == 0 {
      ListedAll(labels, order);
      ParseEmpty();
    } else {
      forall i | 0 <= i < |es| ensures ',' !in es[i] {
        PairParses(labels, order[i]);
      }
      SplitJoin(es, ',');
      ParseEntries(labels, order);
      ListedAll(labels, order);
    }
  }

  // ---------------------------------------------------------------------
  // Command-line overrides in `get_config`
  // ---------------------------------------------------------------------

  const U32: nat := 0x1_0000_0000

  /** `NonZeroU32`, the type of `--target-pid`. */
  type NonZeroU32 = n: nat | 0 < n < U32 witness 1

  /** Where the target's standard output or error goes. */
  datatype Behavior = Quiet | Log(path: string)

  datatype Output = Output(stderr: Behavior, stdout: Behavior)

  datatype BinaryConfig = BinaryConfig(
    command: string,
    arguments: seq<string>,
    inheritEnvironment: bool,
    environmentVariables: Labels,
    output: Output)

  /** The process to measure: one watched by PID, or one lading launches. */
  datatype TargetConfig = Pid(pid: NonZeroU32) | Binary(binary: BinaryConfig)

  /** Where lading's own telemetry goes, with the labels added to every sample. */
  datatype Telemetry =
    | Prometheus(prometheusAddr: string, globalLabels: Labels)
    | CaptureLog(path: string, globalLabels: Labels)

  /** The parts of the configuration that the command line can override. */
  datatype Config = Config(target: Option<TargetConfig>, telemetry: Telemetry)

  /** The command-line options `get_config` reads. */
  datatype Opts = Opts(
    globalLabels: Option<Labels>,
    targetPid: Option<NonZeroU32>,
    noTarget: bool,
    targetPath: Option<string>,
    targetInheritEnvironment: bool,
    targetEnvironmentVariables: Option<Labels>,
    targetArguments: seq<string>,
    targetStdoutPath: Behavior,
    targetStderrPath: Behavior,
    capturePath: Option<string>,
    prometheusAddr: Option<string>)

  /** The argument group every invocation satisfies: one of `--target-path`, `--target-pid`, `--no-target` is given. */
  predicate TargetChosen(ops: Opts)
  {
    ops.noTarget || ops.targetPid.Some? || ops.targetPath.Some?
  }

  function OrEmpty(labels: Option<Labels>): Labels
  {
    if labels.Some? then labels.value else map[]
  }

  /** The target the command line selects: no target, else the PID, else the binary. */
  function SelectTarget(ops: Opts): Option<TargetConfig>
    requires TargetChosen(ops)
  {
    if ops.noTarget then None
    else if ops.targetPid.Some? then Some(Pid(ops.targetPid.value))
    else Some(Binary(BinaryConfig(
      ops.targetPath.value,
      ops.targetArguments,
      ops.targetInheritEnvironment,
      OrEmpty(ops.targetEnvironmentVariables),
      Output(ops.targetStderrPath, ops.targetStdoutPath))))
  }

  /**
   * The telemetry after the command line: a Prometheus address replaces it,
   * else a capture path replaces it, each carrying only the command-line
   * labels; with neither, the loaded settings stay and the command-line labels
   * are merged over theirs.
   */
  function SelectTelemetry(ops: Opts, loaded: Telemetry): Telemetry
  {
    var cli := OrEmpty(ops.globalLabels);
    if ops.prometheusAddr.Some? then Prometheus(ops.prometheusAddr.value, cli)
    else if ops.capturePath.Some? then CaptureLog(ops.capturePath.value, cli)
    else loaded.(globalLabels := loaded.globalLabels + cli)
  }

  /**
   * The label-merge loop: every command-line label is inserted into the loaded
   * ones, in the map's iteration order, whatever that order is.
   */
  method MergeLabels(base: Labels, cli: Labels) returns (labels: Labels)
    ensures forall k :: k in labels <==> k in base || k in cli
    ensures forall k :: k in cli ==> labels[k] == cli[k]
    ensures forall k :: k in base && k !in cli ==> labels[k] == base[k]
  {
    labels := base;
    var remaining := cli.Keys;
    while remaining != {}
      invariant remaining <= cli.Keys
      invariant forall k :: k in labels <==> k in base || (k in cli && k !in remaining)
      invariant forall k :: k in cli && k !in remaining ==> labels[k] == cli[k]
      invariant forall k :: k in base && (k !in cli || k in remaining) ==> labels[k] == base[k]
      decreases remaining
    {
      var k :| k in remaining;
      labels := labels[k := cli[k]];
      remaining := remaining - {k};
    }
  }

  /** Keys and values are the same: the maps are equal. */
  lemma SameMap(a: Labels, b: Labels)
    requires forall k :: k in a <==> k in b
    requires forall k :: k in a ==> a[k] == b[k]
    ensures a == b
  {
  }

  /** `get_config` after the file is read and decoded: the command line overrides the target and the telemetry. */
  method GetConfig(ops: Opts, loaded: Config) returns (config: Config)
    requires TargetChosen(ops)
    ensures config == Config(SelectTarget(ops), SelectTelemetry(ops, loaded.telemetry))
  {
    config := loaded;
    var target: Option<TargetConfig>;
    if ops.noTarget {
      target := None;
    } else if ops.targetPid.Some? {
      target := Some(Pid(ops.targetPid.value));
    } else if ops.targetPath.Some? {
      var variables := if ops.targetEnvironmentVariables.Some? then ops.targetEnvironmentVariables.value else map[];
      target := Some(Binary(BinaryConfig(
        ops.targetPath.value, ops.targetArguments, ops.targetInheritEnvironment, variables,
        Output(ops.targetStderrPath, ops.targetStdoutPath))));
    } else {
      assert false;
    }
    config := config.(target := target);

    var optionsGlobalLabels := if ops.globalLabels.Some? then ops.globalLabels.value else map[];
    if ops.prometheusAddr.Some? {
      config := config.(telemetry := Prometheus(ops.prometheusAddr.value, optionsGlobalLabels));
    } else if ops.capturePath.Some? {
      config := config.(telemetry := CaptureLog(ops.capturePath.value, optionsGlobalLabels));
    } else {
      var merged := MergeLabels(config.telemetry.globalLabels, optionsGlobalLabels);
      SameMap(merged, config.telemetry.globalLabels + optionsGlobalLabels);
      config := config.(telemetry := config.telemetry.(globalLabels := merged));
    }
  }

  /** Target precedence: `--no-target` wins, then `--target-pid`, then `--target-path`. */
  lemma TargetPrecedence(ops: Opts)
    requires TargetChosen(ops)
    ensures SelectTarget(ops).None? <==> ops.noTarget
    ensures SelectTarget(ops).Some? && SelectTarget(ops).value.Pid? <==> !ops.noTarget && ops.targetPid.Some?
    ensures SelectTarget(ops).Some? && SelectTarget(ops).value.Binary? <==>
      !ops.noTarget && ops.targetPid.None? && ops.targetPath.Some?
    ensures SelectTarget(ops).Some? && SelectTarget(ops).value.Pid? ==> SelectTarget(ops).value.pid == ops.targetPid.value
    ensures SelectTarget(ops).Some? && SelectTarget(ops).value.Binary? ==>
      SelectTarget(ops).value.binary.command == ops.targetPath.value
      && SelectTarget(ops).value.binary.environmentVariables == OrEmpty(ops.targetEnvironmentVariables)
  {
  }

  /**
   * `--prometheus-addr` wins over `--capture-path`, and either one replaces
   * the loaded telemetry together with its labels: only the command-line
   * labels remain.
   */
  lemma TelemetryFlagsReplace(ops: Opts, loaded: Telemetry)
    requires ops.prometheusAddr.Some? || ops.capturePath.Some?
    ensures SelectTelemetry(ops, loaded).Prometheus? <==> ops.prometheusAddr.Some?
    ensures ops.prometheusAddr.Some? ==> SelectTelemetry(ops, loaded).prometheusAddr == ops.prometheusAddr.value
    ensures ops.prometheusAddr.None? ==> SelectTelemetry(ops, loaded).path == ops.capturePath.value
    ensures SelectTelemetry(ops, loaded).globalLabels == OrEmpty(ops.globalLabels)
  {
  }

  /**
   * With neither telemetry flag, the loaded settings stay and the labels are
   * the union of both sets, a command-line label overriding a loaded one with
   * the same key.
   */
  lemma TelemetryLabelsMerged(ops: Opts, loaded: Telemetry)
    requires ops.prometheusAddr.None? && ops.capturePath.None?
    ensures var t, cli := SelectTelemetry(ops, loaded), OrEmpty(ops.globalLabels);
      t.Prometheus? == loaded.Prometheus?
      && (t.Prometheus? ==> t.prometheusAddr == loaded.prometheusAddr)
      && (t.CaptureLog? ==> t.path == loaded.path)
      && (forall k :: k in t.globalLabels <==> k in loaded.globalLabels || k in cli)
      && (forall k :: k in cli ==> t.globalLabels[k] == cli[k])
      && (forall k :: k in loaded.globalLabels && k !in cli ==> t.globalLabels[k] == loaded.globalLabels[k])
  {
  }
}
