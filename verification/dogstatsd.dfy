/**
 * The DogStatsD payload: members of three kinds (metric, event, service
 * check) picked by weight, and the byte-budgeted serialiser that writes
 * whole newline-terminated members into a block while they fit.
 *
 * Metric and service-check rendering are not part of this model: those
 * members carry their already-rendered text. An event carries the event
 * itself and renders through `DogStatsDEvent.Render`.
 */
module DogStatsD {
  import opened Strings
  import DogStatsDEvent

  // ---------------------------------------------------------------- members and kinds

  datatype Member =
    | Metric(metricText: string)
    | Event(event: DogStatsDEvent.Event)
    | ServiceCheck(serviceCheckText: string)

  /** The Display of a member is exactly the Display of the value it wraps. */
  function MemberText(m: Member): string
  {
    match m
    case Metric(t) => t
    case Event(e) => DogStatsDEvent.Render(e)
    case ServiceCheck(t) => t
  }

  /** A `u8` weight. */
  type Weight = w: nat | w < 0x100

  /** Relative weights of the three kinds, each a `u8`. */
  datatype KindWeights = KindWeights(metric: Weight, event: Weight, serviceCheck: Weight)

  const DefaultKindWeights := KindWeights(80, 10, 10)

  /** The weights in the order the kind index refers to: metric, event, service check. */
  function MemberChoices(w: KindWeights): (choices: seq<nat>)
    ensures |choices| == 3
  {
    [w.metric, w.event, w.serviceCheck]
  }

  function Sum(ws: seq<nat>): nat
  {
    if |ws| == 0 then 0 else Sum(ws[..|ws| - 1]) + ws[|ws| - 1]
  }

  /**
   * A weighted-index draw: `r`, uniform below the total weight, selects the
   * index whose cumulative-weight interval holds it.
   */
  function WeightedPick(ws: seq<nat>, r: nat): (i: nat)
    requires r < Sum(ws)
    ensures i < |ws|
    ensures Sum(ws[..i]) <= r < Sum(ws[..i + 1])
    decreases |ws|
  {
    var last := |ws| - 1;
    assert ws[..last + 1] == ws;
    if r < Sum(ws[..last]) then
      var i := WeightedPick(ws[..last], r);
      assert ws[..last][..i] == ws[..i] && ws[..last][..i + 1] == ws[..i + 1];
      i
    else last
  }

  /** The member for a kind index, taking the member the chosen generator produced. */
  function GenerateMember(index: nat, metric: string, event: DogStatsDEvent.Event, serviceCheck: string): (m: Member)
    requires index < 3
    ensures index == 0 <==> m.Metric?
    ensures index == 1 <==> m.Event?
    ensures index == 2 <==> m.ServiceCheck?
    ensures MemberText(m) == if index == 0 then metric else if index == 1 then DogStatsDEvent.Render(event) else serviceCheck
  {
    match index
    case 0 => Metric(metric)
    case 1 => Event(event)
    case 2 => ServiceCheck(serviceCheck)
  }

  lemma SumThree(a: nat, b: nat, c: nat)
    ensures Sum([a, b, c][..0]) == 0
    ensures Sum([a, b, c][..1]) == a
    ensures Sum([a, b, c][..2]) == a + b
    ensures Sum([a, b, c][..3]) == a + b + c
  {
    assert [a, b, c][..1] == [a];
    assert [a, b, c][..2] == [a, b];
    assert [a, b, c][..3] == [a, b, c];
  }

  /**
   * The kind drawn follows the order of `member_choices`: the first `metric`
   * draws give a metric, the next `event` draws an event, the rest a service
   * check.
   */
  lemma KindFollowsChoiceOrder(w: KindWeights, r: nat, metric: string, event: DogStatsDEvent.Event, serviceCheck: string)
    requires r < w.metric + w.event + w.serviceCheck
    ensures Sum(MemberChoices(w)) == w.metric + w.event + w.serviceCheck
    ensures var m := GenerateMember(WeightedPick(MemberChoices(w), r), metric, event, serviceCheck);
      (m.Metric? <==> r < w.metric)
      && (m.Event? <==> w.metric <= r < w.metric + w.event)
      && (m.ServiceCheck? <==> w.metric + w.event <= r)
  {
    SumThree(w.metric, w.event, w.serviceCheck);
    var i := WeightedPick(MemberChoices(w), r);
    assert i == 0 || i == 1 || i == 2;
  }

  /** A kind of weight zero is never drawn. */
  lemma ZeroWeightNeverDrawn(ws: seq<nat>, r: nat)
    requires r < Sum(ws)
    ensures ws[WeightedPick(ws, r)] > 0
  {
    var i := WeightedPick(ws, r);
    assert ws[..i + 1] == ws[..i] + [ws[i]];
  }

  /** With the default weights 80/10/10, draws 0..79 are metrics, 80..89 events, 90..99 service checks. */
  lemma DefaultKindSplit(r: nat, metric: string, event: DogStatsDEvent.Event, serviceCheck: string)
    requires r < 100
    ensures var m := GenerateMember(WeightedPick(MemberChoices(DefaultKindWeights), r), metric, event, serviceCheck);
      (m.Metric? <==> r < 80) && (m.Event? <==> 80 <= r < 90) && (m.ServiceCheck? <==> 90 <= r)
  {
    KindFollowsChoiceOrder(DefaultKindWeights, r, metric, event, serviceCheck);
  }

  // ---------------------------------------------------------------- the byte-budgeted block

  /**
   * The block is stated over `enc`, the encodings of the members in the
   * order they are drawn: `enc(i)` is the text of the i-th member.
   */
  function Encodings(members: nat -> Member): nat -> string
  {
    (i: nat) => MemberText(members(i))
  }

  /** One written record: an encoding and a newline. */
  function Line(encoding: string): (line: string)
    ensures |line| == |encoding| + 1
    ensures line[|line| - 1] == '\n'
  {
    encoding + "\n"
  }

  /** The first `n` encodings, each written as a line. */
  function Lines(enc: nat -> string, n: nat): string
  {
    if n == 0 then "" else Lines(enc, n - 1) + Line(enc(n - 1))
  }

  /**
   * How many lines fit, drawing from encoding `start` on with `remaining`
   * bytes left: a line is written when its length is at most what remains,
   * and the first line that does not fit ends the block.
   */
  function FitCount(enc: nat -> string, start: nat, remaining: nat): nat
    decreases remaining
  {
    var len := |enc(start)| + 1;
    if len <= remaining then 1 + FitCount(enc, start + 1, remaining - len) else 0
  }

  /** The block for a budget of `maxBytes`. */
  function Payload(enc: nat -> string, maxBytes: nat): string
  {
    Lines(enc, FitCount(enc, 0, maxBytes))
  }

  /** The bytes the first `n` lines take. */
  function Cost(enc: nat -> string, n: nat): nat
  {
    if n == 0 then 0 else Cost(enc, n - 1) + |enc(n - 1)| + 1
  }

  lemma {:induction false} CostIsLength(enc: nat -> string, n: nat)
    ensures |Lines(enc, n)| == Cost(enc, n)
  {
    if n > 0 {
      CostIsLength(enc, n - 1);
    }
  }

  /** Every line costs at least one byte, so more lines cost more. */
  lemma {:induction false} CostGrows(enc: nat -> string, i: nat, j: nat)
    requires i <= j
    ensures Cost(enc, i) + (j - i) <= Cost(enc, j)
    decreases j
  {
    if j > i {
      CostGrows(enc, i, j - 1);
    }
  }

  /**
   * What `FitCount` promises: after the first `start` lines, the lines it
   * counts fit in `remaining` bytes, and one more line would not.
   */
  lemma {:induction false} FitCountFits(enc: nat -> string, start: nat, remaining: nat)
    ensures Cost(enc, start + FitCount(enc, start, remaining)) <= Cost(enc, start) + remaining
    ensures Cost(enc, start) + remaining < Cost(enc, start + FitCount(enc, start, remaining) + 1)
    decreases remaining
  {
    var len := |enc(start)| + 1;
    if len <= remaining {
      FitCountFits(enc, start + 1, remaining - len);
    }
  }

  /** One line written: the count from the first encoding is unchanged, split differently. */
  lemma FitCountStep(enc: nat -> string, start: nat, remaining: nat)
    requires |enc(start)| + 1 <= remaining
    ensures FitCount(enc, start, remaining) == 1 + FitCount(enc, start + 1, remaining - |enc(start)| - 1)
  {
  }

  /** The block never exceeds its budget, and is made of whole lines only. */
  lemma PayloadWithinBudget(enc: nat -> string, maxBytes: nat)
    ensures |Payload(enc, maxBytes)| <= maxBytes
    ensures Payload(enc, maxBytes) == Lines(enc, FitCount(enc, 0, maxBytes))
  {
    FitCountFits(enc, 0, maxBytes);
    CostIsLength(enc, FitCount(enc, 0, maxBytes));
  }

  /**
   * The block stops at the first encoding whose line does not fit: `n` lines
   * fit and `n + 1` do not exactly when `n` is the count written. So no
   * partial line is written and no later, shorter member is skipped to.
   */
  lemma StopsAtFirstMisfit(enc: nat -> string, maxBytes: nat, n: nat)
    ensures n == FitCount(enc, 0, maxBytes)
      <==> |Lines(enc, n)| <= maxBytes < |Lines(enc, n + 1)|
  {
    var k := FitCount(enc, 0, maxBytes);
    FitCountFits(enc, 0, maxBytes);
    CostIsLength(enc, n);
    CostIsLength(enc, n + 1);
    CostIsLength(enc, k);
    CostIsLength(enc, k + 1);
    if n < k {
      CostGrows(enc, n + 1, k);
    } else if k < n {
      CostGrows(enc, k + 1, n);
    }
  }

  /** At most `maxBytes` lines are written, and a zero budget writes nothing. */
  lemma LineCountBounded(enc: nat -> string, maxBytes: nat)
    ensures FitCount(enc, 0, maxBytes) <= maxBytes
    ensures maxBytes == 0 ==> Payload(enc, maxBytes) == ""
  {
    FitCountFits(enc, 0, maxBytes);
    CostGrows(enc, 0, FitCount(enc, 0, maxBytes));
  }

  /** The texts of the first `n` members. */
  function Texts(enc: nat -> string, n: nat): (ts: seq<string>)
    ensures |ts| == n
  {
    seq(n, i requires 0 <= i => enc(i))
  }

  lemma {:induction false} LinesAsJoin(enc: nat -> string, n: nat)
    requires n >= 1
    ensures Lines(enc, n) == Join(Texts(enc, n), '\n') + "\n"
  {
    if n > 1 {
      LinesAsJoin(enc, n - 1);
      assert Texts(enc, n) == Texts(enc, n - 1) + [enc(n - 1)];
      JoinSnoc(Texts(enc, n - 1), enc(n - 1), '\n');
    } else {
      assert Texts(enc, 1) == [enc(0)];
    }
  }

  /**
   * Every record is a full member text followed by exactly one newline:
   * when member texts hold no newline, splitting the block at newlines gives
   * the written texts, in order, and an empty remainder after the last newline.
   */
  lemma PayloadRecords(enc: nat -> string, maxBytes: nat)
    requires forall i :: '\n' !in enc(i)
    ensures var n := FitCount(enc, 0, maxBytes);
      Split(Payload(enc, maxBytes), '\n') == Texts(enc, n) + [""]
  {
    var n := FitCount(enc, 0, maxBytes);
    var parts := Texts(enc, n) + [""];
    if n == 0 {
      assert Split("", '\n') == [""];
    } else {
      LinesAsJoin(enc, n);
      JoinSnoc(Texts(enc, n), "", '\n');
      assert Join(parts, '\n') == Join(Texts(enc, n), '\n') + "\n";
      SplitJoin(parts, '\n');
    }
  }

  /** The caller's byte sink: writes append to it. */
  class Writer {
    var bytes: string

    constructor (initial: string)
      ensures bytes == initial
    {
      bytes := initial;
    }

    /** `writeln!`: the text and a newline. */
    method WriteLine(text: string)
      modifies this
      ensures bytes == old(bytes) + text + "\n"
    {
      bytes := bytes + text + "\n";
    }
  }

  /**
   * Serialises members into `writer` while each line still fits in what
   * remains of `maxBytes`; `members(i)` is the i-th member the generator
   * would draw.
   */
  method ToBytes(members: nat -> Member, maxBytes: nat, writer: Writer)
    modifies writer
    ensures writer.bytes == old(writer.bytes) + Payload(Encodings(members), maxBytes)
  {
    ghost var enc := Encodings(members);
    var bytesRemaining: nat := maxBytes;
    var drawn: nat := 0;
    while true
      invariant |Lines(enc, drawn)| + bytesRemaining == maxBytes
      invariant writer.bytes == old(writer.bytes) + Lines(enc, drawn)
      invariant FitCount(enc, 0, maxBytes) == drawn + FitCount(enc, drawn, bytesRemaining)
      decreases bytesRemaining
    {
      var member := members(drawn);
      var encoding := MemberText(member);
      assert encoding == enc(drawn);
      var lineLength := |encoding| + 1;
      if lineLength <= bytesRemaining {
        FitCountStep(enc, drawn, bytesRemaining);
        assert Lines(enc, drawn + 1) == Lines(enc, drawn) + (encoding + "\n");
        writer.WriteLine(encoding);
        bytesRemaining := bytesRemaining - lineLength;
        drawn := drawn + 1;
      } else {
        break;
      }
    }
  }

  // ---------------------------------------------------------------- string pools

  /**
   * `total` strings, the i-th being the i-th string drawn; the string
   * generator draws strings no longer than `maxLength`.
   */
  method RandomStrings(total: nat, maxLength: nat, draw: nat -> string) returns (buf: seq<string>)
    requires maxLength < 0x1_0000
    requires forall i :: |draw(i)| <= maxLength
    ensures |buf| == total
    ensures forall i :: 0 <= i < total ==> buf[i] == draw(i)
    ensures forall i :: 0 <= i < |buf| ==> |buf[i]| <= maxLength
  {
    buf := [];
    for i := 0 to total
      invariant |buf| == i
      invariant forall j :: 0 <= j < i ==> buf[j] == draw(j)
    {
      buf := buf + [draw(i)];
    }
  }

  /** The count a uniform draw picks in the half-open range `start..end`. */
  function CountInRange(start: nat, end: nat, countDraw: nat): (n: nat)
    requires start < end
    ensures start <= n < end
  {
    start + countDraw % (end - start)
  }

  /** Every count of the range is picked by some draw. */
  lemma EveryCountReachable(start: nat, end: nat, n: nat)
    requires start <= n < end
    ensures CountInRange(start, end, n - start) == n
  {
  }

  /**
   * A number of strings drawn from `start..end`, then that many strings no
   * longer than `maxLength`; an empty range is refused, as the range draw
   * refuses it.
   */
  method RandomStringsWithLength(start: nat, end: nat, maxLength: nat, countDraw: nat, draw: nat -> string)
    returns (buf: seq<string>)
    requires start < end && maxLength < 0x1_0000
    requires forall i :: |draw(i)| <= maxLength
    ensures start <= |buf| < end
    ensures |buf| == CountInRange(start, end, countDraw)
    ensures forall i :: 0 <= i < |buf| ==> buf[i] == draw(i)
    ensures forall i :: 0 <= i < |buf| ==> |buf[i]| <= maxLength
  {
    var count := CountInRange(start, end, countDraw);
    buf := [];
    for i := 0 to count
      invariant |buf| == i
      invariant forall j :: 0 <= j < i ==> buf[j] == draw(j)
    {
      buf := buf + [draw(i)];
    }
  }
}
