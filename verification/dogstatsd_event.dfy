/**
 * The DogStatsD event datagram
 *
 *   _e{<title length>,<text length>}:<title>|<text>|d:<timestamp>|h:<hostname>
 *   |p:<priority>|t:<alert type>|k:<aggregation key>|s:<source type>|#<tag>,<tag>
 *
 * `Render` states the text field by field; `Fmt` writes it step by step as the
 * Display implementation does; `DecodeEvent` reads a datagram back, and the
 * round trip `DecodeEvent(Render(e))` recovers the event.
 *
 * Text is a sequence of characters of one byte each, so a string's length is
 * its UTF-8 byte length.
 */
module DogStatsDEvent {
  import opened Wrappers
  import opened Strings
  import opened Numerals

  const U32: nat := 0x1_0000_0000

  datatype Priority = Normal | Low

  datatype Alert = Error | Warning | Info | Success

  /** A tagset: its tags in order, each already in `key:value` text form. */
  type Tagset = seq<string>

  datatype Event = Event(
    title: string,
    text: string,
    titleUtf8Length: nat,
    textUtf8Length: nat,
    timestampSecond: Option<nat>,
    hostname: Option<string>,
    aggregationKey: Option<string>,
    priority: Option<Priority>,
    sourceTypeName: Option<string>,
    alertType: Option<Alert>,
    tags: Option<Tagset>)

  // ---------------------------------------------------------------- priority and alert

  function PriorityText(p: Priority): string
  {
    match p
    case Normal => "normal"
    case Low => "low"
  }

  function ParsePriority(s: string): Option<Priority>
  {
    if s == "normal" then Some(Normal) else if s == "low" then Some(Low) else None
  }

  /** Priority text reads back as the same priority. */
  lemma PriorityRoundTrip(p: Priority)
    ensures ParsePriority(PriorityText(p)) == Some(p)
  {
  }

  /** Sampling: a draw from `0..2`; 0 is low, 1 is normal. */
  function SamplePriority(draw: nat): (p: Priority)
    requires draw < 2
    ensures draw == 0 <==> p == Low
    ensures draw == 1 <==> p == Normal
  {
    if draw == 0 then Low else Normal
  }

  function AlertText(a: Alert): string
  {
    match a
    case Error => "error"
    case Warning => "warning"
    case Info => "info"
    case Success => "success"
  }

  function ParseAlert(s: string): Option<Alert>
  {
    if s == "error" then Some(Error)
    else if s == "warning" then Some(Warning)
    else if s == "info" then Some(Info)
    else if s == "success" then Some(Success)
    else None
  }

  /** Alert text reads back as the same alert type. */
  lemma AlertRoundTrip(a: Alert)
    ensures ParseAlert(AlertText(a)) == Some(a)
  {
  }

  /** Sampling: a draw from `0..4` picks error, warning, info, success in that order. */
  function SampleAlert(draw: nat): (a: Alert)
    requires draw < 4
    ensures draw == 0 <==> a == Error
    ensures draw == 1 <==> a == Warning
    ensures draw == 2 <==> a == Info
    ensures draw == 3 <==> a == Success
  {
    if draw == 0 then Error else if draw == 1 then Warning else if draw == 2 then Info else Success
  }

  /** Every alert type is sampled by exactly one draw, and every priority by exactly one. */
  lemma SamplingHitsEveryVariant(a: Alert, p: Priority)
    ensures exists d :: 0 <= d < 4 && SampleAlert(d) == a
    ensures exists d :: 0 <= d < 2 && SamplePriority(d) == p
    ensures forall d1, d2 :: 0 <= d1 < 4 && 0 <= d2 < 4 && SampleAlert(d1) == SampleAlert(d2) ==> d1 == d2
  {
    var da := match a case Error => 0 case Warning => 1 case Info => 2 case Success => 3;
    assert SampleAlert(da) == a;
    var dp := if p == Low then 0 else 1;
    assert SamplePriority(dp) == p;
  }

  // ---------------------------------------------------------------- the datagram text

  /** `_e{<title length>,<text length>}:<title>|<text>` */
  function Header(e: Event): string
  {
    "_e{" + Decimal(e.titleUtf8Length) + "," + Decimal(e.textUtf8Length) + "}:" + e.title + "|" + e.text
  }

  /** The key each optional field starts with, in the fixed order they are written. */
  const FieldKeys: seq<string> := ["d:", "h:", "p:", "t:", "k:", "s:", "#"]

  function TimestampValue(e: Event): Option<string>
  {
    if e.timestampSecond.Some? then Some(Decimal(e.timestampSecond.value)) else None
  }

  function PriorityValue(e: Event): Option<string>
  {
    if e.priority.Some? then Some(PriorityText(e.priority.value)) else None
  }

  function AlertValue(e: Event): Option<string>
  {
    if e.alertType.Some? then Some(AlertText(e.alertType.value)) else None
  }

  /** Tags are written only for a present, non-empty tagset: in order, comma separated. */
  function TagsValue(tags: Option<Tagset>): Option<string>
  {
    if tags.Some? && |tags.value| > 0 then Some(Join(tags.value, ',')) else None
  }

  /** What follows each key, one entry per key of `FieldKeys`; `None` when the field is not written. */
  function FieldValues(e: Event): (vs: seq<Option<string>>)
    ensures |vs| == |FieldKeys|
  {
    [TimestampValue(e), e.hostname, PriorityValue(e), AlertValue(e),
     e.aggregationKey, e.sourceTypeName, TagsValue(e.tags)]
  }

  /** A field: its key and value, when the value is present. */
  function KeyedField(key: string, value: Option<string>): Option<string>
  {
    if value.Some? then Some(key + value.value) else None
  }

  function Keyed(keys: seq<string>, vs: seq<Option<string>>): (fs: seq<Option<string>>)
    requires |keys| == |vs|
    ensures |fs| == |vs|
    ensures forall i :: 0 <= i < |vs| ==> fs[i] == KeyedField(keys[i], vs[i])
  {
    if |vs| == 0 then [] else [KeyedField(keys[0], vs[0])] + Keyed(keys[1..], vs[1..])
  }

  /** The optional fields in the fixed order they are written: d, h, p, t, k, s, #. */
  function OptionalFields(e: Event): seq<Option<string>>
  {
    Keyed(FieldKeys, FieldValues(e))
  }

  /** An optional section: `|` and the field when present, nothing when absent. */
  function Section(field: Option<string>): string
  {
    match field
    case None => ""
    case Some(f) => "|" + f
  }

  function Sections(fields: seq<Option<string>>): string
  {
    if |fields| == 0 then "" else Section(fields[0]) + Sections(fields[1..])
  }

  /** The optional fields one by one. */
  lemma OptionalFieldsOf(e: Event)
    ensures OptionalFields(e) == [
      KeyedField("d:", TimestampValue(e)), KeyedField("h:", e.hostname), KeyedField("p:", PriorityValue(e)),
      KeyedField("t:", AlertValue(e)), KeyedField("k:", e.aggregationKey), KeyedField("s:", e.sourceTypeName),
      KeyedField("#", TagsValue(e.tags))]
  {
    var fs, vs := OptionalFields(e), FieldValues(e);
    assert |fs| == 7;
    assert fs[0] == KeyedField(FieldKeys[0], vs[0]);
    assert fs[1] == KeyedField(FieldKeys[1], vs[1]);
    assert fs[2] == KeyedField(FieldKeys[2], vs[2]);
    assert fs[3] == KeyedField(FieldKeys[3], vs[3]);
    assert fs[4] == KeyedField(FieldKeys[4], vs[4]);
    assert fs[5] == KeyedField(FieldKeys[5], vs[5]);
    assert fs[6] == KeyedField(FieldKeys[6], vs[6]);
  }

  /** The whole datagram: the header, then the optional sections in their fixed order. */
  function Render(e: Event): string
  {
    Header(e) + Sections(OptionalFields(e))
  }

  lemma {:induction false} SectionsSnoc(fields: seq<Option<string>>, o: Option<string>)
    ensures Sections(fields + [o]) == Sections(fields) + Section(o)
  {
    if |fields| == 0 {
      assert fields + [o] == [o];
    } else {
      assert (fields + [o])[1..] == fields[1..] + [o];
      SectionsSnoc(fields[1..], o);
    }
  }

  /** One more section written after the first k: the text then covers k + 1 of them. */
  lemma WroteSection(header: string, fs: seq<Option<string>>, k: nat, f: string, g: string)
    requires k < |fs|
    requires f == header + Sections(fs[..k])
    requires g == f + Section(fs[k])
    ensures g == header + Sections(fs[..k + 1])
  {
    var before, one := Sections(fs[..k]), Section(fs[k]);
    assert fs[..k + 1] == fs[..k] + [fs[k]];
    SectionsSnoc(fs[..k], fs[k]);
    assert Sections(fs[..k + 1]) == before + one;
    assert header + before + one == header + (before + one);
  }

  /** The tag text after the first `i` tags are written: a comma follows each of them but the last tag. */
  function TagsWritten(tags: Tagset, i: nat): string
    requires i <= |tags|
  {
    Join(tags[..i], ',') + (if 0 < i < |tags| then "," else "")
  }

  lemma TagsWrittenStep(tags: Tagset, i: nat)
    requires i < |tags|
    ensures TagsWritten(tags, i + 1) == TagsWritten(tags, i) + tags[i] + (if i + 1 < |tags| then "," else "")
  {
    if i > 0 {
      JoinSnoc(tags[..i], tags[i], ',');
      assert tags[..i + 1] == tags[..i] + [tags[i]];
    } else {
      assert tags[..1] == [tags[0]];
    }
  }

  /** Writes `|#` and the tags, a comma after every tag but the last; nothing for an absent or empty tagset. */
  method WriteTags(f0: string, tagset: Option<Tagset>) returns (f: string)
    ensures f == f0 + Section(KeyedField("#", TagsValue(tagset)))
  {
    f := f0;
    if tagset.Some? && |tagset.value| != 0 {
      var tags := tagset.value;
      f := f + "|#";
      ghost var start := f;
      var commasRemaining := |tags| - 1;
      for i := 0 to |tags|
        invariant commasRemaining == if i < |tags| then |tags| - 1 - i else 0
        invariant f == start + TagsWritten(tags, i)
      {
        TagsWrittenStep(tags, i);
        f := f + tags[i];
        if commasRemaining != 0 {
          f := f + ",";
          commasRemaining := commasRemaining - 1;
        }
      }
      assert tags[..|tags|] == tags;
    }
  }

  /** One `write!` of an optional field: `|`, the key and the value when present, nothing otherwise. */
  method WriteField(f0: string, key: string, value: Option<string>) returns (f: string)
    ensures f == f0 + Section(KeyedField(key, value))
  {
    f := f0;
    if value.Some? {
      f := f + ("|" + (key + value.value));
    }
  }

  /** Writes the field at position k after the first k sections: the text then covers k + 1 of them. */
  method WriteFieldAt(ghost header: string, ghost fs: seq<Option<string>>, k: nat, f0: string, key: string, value: Option<string>)
    returns (f: string)
    requires k < |fs| && fs[k] == KeyedField(key, value)
    requires f0 == header + Sections(fs[..k])
    ensures f == header + Sections(fs[..k + 1])
  {
    f := WriteField(f0, key, value);
    WroteSection(header, fs, k, f0, f);
  }

  /**
   * The Display implementation: writes the header, then each present field
   * in the fixed order, then the tags one by one with a comma after every
   * tag but the last.
   */
  method Fmt(e: Event) returns (f: string)
    ensures f == Render(e)
  {
    ghost var fs := OptionalFields(e);
    ghost var header := Header(e);
    f := "_e{" + Decimal(e.titleUtf8Length) + "," + Decimal(e.textUtf8Length) + "}:" + e.title + "|" + e.text;
    f := WriteScalarFields(header, e, f);
    ghost var before := f;
    f := WriteTags(f, e.tags);
    OptionalFieldsOf(e);
    WroteSection(header, fs, 6, before, f);
    assert fs[..7] == fs;
  }

  /** The six fields before the tags, each written when present: the text then covers the first six sections. */
  method WriteScalarFields(ghost header: string, e: Event, f0: string) returns (f: string)
    requires f0 == header
    ensures f == header + Sections(OptionalFields(e)[..6])
  {
    ghost var fs := OptionalFields(e);
    OptionalFieldsOf(e);
    assert f0 == header + Sections(fs[..0]);
    f := WriteFieldAt(header, fs, 0, f0, "d:", TimestampValue(e));
    f := WriteFieldAt(header, fs, 1, f, "h:", e.hostname);
    f := WriteFieldAt(header, fs, 2, f, "p:", PriorityValue(e));
    f := WriteLaterFields(header, e, f);
  }

  /** The aggregation key, source type and the fields before them: the text then covers the first six sections. */
  method WriteLaterFields(ghost header: string, e: Event, f0: string) returns (f: string)
    requires f0 == header + Sections(OptionalFields(e)[..3])
    ensures f == header + Sections(OptionalFields(e)[..6])
  {
    ghost var fs := OptionalFields(e);
    OptionalFieldsOf(e);
    f := WriteFieldAt(header, fs, 3, f0, "t:", AlertValue(e));
    f := WriteFieldAt(header, fs, 4, f, "k:", e.aggregationKey);
    f := WriteFieldAt(header, fs, 5, f, "s:", e.sourceTypeName);
  }

  /** The datagram begins with the header, whatever the optional fields. */
  lemma RenderBeginsWithHeader(e: Event)
    ensures HasPrefix(Render(e), "_e{" + Decimal(e.titleUtf8Length) + "," + Decimal(e.textUtf8Length) + "}:" + e.title + "|" + e.text)
  {
    var h := Header(e);
    assert Render(e)[..|h|] == h;
  }

  /** Each optional field is written exactly when its value is present, as `|`, its key and the value. */
  lemma SectionPresentIffSome(e: Event, k: nat)
    requires k < 7
    ensures Section(OptionalFields(e)[k]) != "" <==> FieldValues(e)[k].Some?
    ensures FieldValues(e)[k].Some? ==> Section(OptionalFields(e)[k]) == "|" + FieldKeys[k] + FieldValues(e)[k].value
  {
    var key, v := FieldKeys[k], FieldValues(e)[k];
    assert OptionalFields(e)[k] == KeyedField(key, v);
    if v.Some? {
      assert "|" + key + v.value == "|" + (key + v.value);
    }
  }

  /** A present tagset of n tags, none containing a comma, is written with exactly n - 1 commas. */
  lemma TagSectionCommas(e: Event)
    requires e.tags.Some? && |e.tags.value| > 0
    requires forall i :: 0 <= i < |e.tags.value| ==> ',' !in e.tags.value[i]
    ensures OptionalFields(e)[6] == Some("#" + Join(e.tags.value, ','))
    ensures Count(OptionalFields(e)[6].value, ',') == |e.tags.value| - 1
  {
    JoinSeparatorCount(e.tags.value, ',');
    CountAppend("#", Join(e.tags.value, ','), ',');
  }

  // ---------------------------------------------------------------- generation

  /** The random draws one event is made from, in the order the generator takes them. */
  datatype EventDraws = EventDraws(
    title: string,
    text: string,
    tags: Option<Tagset>,
    timestamp: Option<nat>,
    hostname: Option<string>,
    aggregationKey: Option<string>,
    priorityDraw: Option<nat>,
    sourceTypeName: Option<string>,
    alertDraw: Option<nat>)
  {
    /** Each draw lies in the range its distribution produces. */
    predicate InRange()
    {
      (timestamp.Some? ==> timestamp.value < U32)
      && (priorityDraw.Some? ==> priorityDraw.value < 2)
      && (alertDraw.Some? ==> alertDraw.value < 4)
    }
  }

  /** An event from its draws; the header lengths are those of the drawn title and text. */
  function GenerateEvent(d: EventDraws): (e: Event)
    requires d.InRange()
    ensures e.titleUtf8Length == |e.title| && e.textUtf8Length == |e.text|
    ensures e.title == d.title && e.text == d.text && e.tags == d.tags
    ensures e.timestampSecond == d.timestamp && e.hostname == d.hostname
    ensures e.aggregationKey == d.aggregationKey && e.sourceTypeName == d.sourceTypeName
    ensures e.priority.Some? <==> d.priorityDraw.Some?
    ensures d.priorityDraw.Some? ==> e.priority == Some(SamplePriority(d.priorityDraw.value))
    ensures e.alertType.Some? <==> d.alertDraw.Some?
    ensures d.alertDraw.Some? ==> e.alertType == Some(SampleAlert(d.alertDraw.value))
  {
    Event(
      d.title, d.text, |d.title|, |d.text|, d.timestamp, d.hostname, d.aggregationKey,
      if d.priorityDraw.Some? then Some(SamplePriority(d.priorityDraw.value)) else None,
      d.sourceTypeName,
      if d.alertDraw.Some? then Some(SampleAlert(d.alertDraw.value)) else None,
      d.tags)
  }

  // ---------------------------------------------------------------- reading a datagram back

  /** The optional part of an event, as decoded. */
  datatype OptionalPart = OptionalPart(
    timestampSecond: Option<nat>,
    hostname: Option<string>,
    priority: Option<Priority>,
    alertType: Option<Alert>,
    aggregationKey: Option<string>,
    sourceTypeName: Option<string>,
    tags: Option<Tagset>)

  /** The first field, with `key` removed, if it starts with `key`; and the fields left. */
  function Take(fs: seq<string>, key: string): (Option<string>, seq<string>)
  {
    if |fs| > 0 && HasPrefix(fs[0], key) then (Some(fs[0][|key|..]), fs[1..]) else (None, fs)
  }

  /** Takes at most one field per key, keys in order; returns what each key got and the fields left. */
  function TakeAll(fs: seq<string>, keys: seq<string>): (r: (seq<Option<string>>, seq<string>))
    ensures |r.0| == |keys|
  {
    if |keys| == 0 then ([], fs)
    else
      var (v, rest) := Take(fs, keys[0]);
      var (vs, left) := TakeAll(rest, keys[1..]);
      ([v] + vs, left)
  }

  /** The `|`-separated fields after the text: each at most once, in the fixed order, nothing else. */
  function DecodeFields(fs: seq<string>): Option<OptionalPart>
  {
    var (vs, left) := TakeAll(fs, FieldKeys);
    if left != [] then None else DecodeValues(vs)
  }

  /** The seven field values, keys removed, read as the typed optional part. */
  function DecodeValues(vs: seq<Option<string>>): Option<OptionalPart>
    requires |vs| == 7
  {
    if vs[0].Some? && ParseDecimal(vs[0].value).None? then None
    else if vs[2].Some? && ParsePriority(vs[2].value).None? then None
    else if vs[3].Some? && ParseAlert(vs[3].value).None? then None
    else Some(OptionalPart(
      if vs[0].Some? then ParseDecimal(vs[0].value) else None,
      vs[1],
      if vs[2].Some? then ParsePriority(vs[2].value) else None,
      if vs[3].Some? then ParseAlert(vs[3].value) else None,
      vs[4],
      vs[5],
      if vs[6].Some? then Some(Split(vs[6].value, ',')) else None))
  }

  /** Nothing, or `|` and the `|`-separated fields. */
  function DecodeSections(rest: string): Option<OptionalPart>
  {
    if rest == "" then DecodeFields([])
    else if rest[0] != '|' then None
    else DecodeFields(Split(rest[1..], '|'))
  }

  /** `<title length>,<text length>}` and what follows it. */
  function DecodeLengths(s: string): Option<(nat, nat, string)>
  {
    match SpanUntil(s, ',')
    case None => None
    case Some((a, r1)) =>
      match SpanUntil(r1, '}')
      case None => None
      case Some((b, r2)) =>
        match ParseDecimal(a)
        case None => None
        case Some(tl) =>
          match ParseDecimal(b)
          case None => None
          case Some(xl) => Some((tl, xl, r2))
  }

  /** `:`, exactly `tl` characters of title, `|`, exactly `xl` characters of text, and what follows. */
  function DecodeBodies(tl: nat, xl: nat, r: string): Option<(nat, nat, string, string, string)>
  {
    if |r| >= tl + xl + 2 && r[0] == ':' && r[1 + tl] == '|' then
      Some((tl, xl, r[1..1 + tl], r[2 + tl..2 + tl + xl], r[2 + tl + xl..]))
    else None
  }

  /** The header's two lengths, then the title and the text of those lengths, and what follows. */
  function DecodeHeader(s: string): Option<(nat, nat, string, string, string)>
  {
    if !HasPrefix(s, "_e{") then None
    else match DecodeLengths(s[3..])
      case None => None
      case Some((tl, xl, r)) => DecodeBodies(tl, xl, r)
  }

  /** Reads a datagram back into an event. */
  function DecodeEvent(s: string): Option<Event>
  {
    match DecodeHeader(s)
    case None => None
    case Some((tl, xl, title, text, rest)) =>
      match DecodeSections(rest)
      case None => None
      case Some(x) =>
        Some(Event(title, text, tl, xl, x.timestampSecond, x.hostname, x.aggregationKey,
                   x.priority, x.sourceTypeName, x.alertType, x.tags))
  }

  /**
   * An event the generator can produce: header lengths match, and the
   * separator characters do not occur inside the fields that are not
   * length-prefixed.
   */
  predicate WellFormed(e: Event)
  {
    e.titleUtf8Length == |e.title| && e.textUtf8Length == |e.text|
    && (e.hostname.Some? ==> '|' !in e.hostname.value)
    && (e.aggregationKey.Some? ==> '|' !in e.aggregationKey.value)
    && (e.sourceTypeName.Some? ==> '|' !in e.sourceTypeName.value)
    && (e.tags.Some? ==> forall i :: 0 <= i < |e.tags.value| ==> '|' !in e.tags.value[i] && ',' !in e.tags.value[i])
  }

  /** What the datagram can say: an empty tagset is written exactly as no tagset. */
  function Canonical(e: Event): Event
  {
    if e.tags == Some([]) then e.(tags := None) else e
  }

  /** The present fields, in order. */
  function PresentAll(os: seq<Option<string>>): seq<string>
  {
    if |os| == 0 then [] else (if os[0].Some? then [os[0].value] else []) + PresentAll(os[1..])
  }

  /** Each field written with a `|` in front of it. */
  function Bars(fs: seq<string>): string
  {
    if |fs| == 0 then "" else "|" + fs[0] + Bars(fs[1..])
  }

  lemma {:induction false} BarsAppend(a: seq<string>, b: seq<string>)
    ensures Bars(a + b) == Bars(a) + Bars(b)
  {
    if |a| == 0 {
      assert a + b == b;
    } else {
      assert (a + b)[1..] == a[1..] + b;
      BarsAppend(a[1..], b);
    }
  }

  /** The sections are the present fields, each behind a `|`. */
  lemma {:induction false} SectionsAsBars(os: seq<Option<string>>)
    ensures Sections(os) == Bars(PresentAll(os))
  {
    if |os| > 0 {
      SectionsAsBars(os[1..]);
      var head := if os[0].Some? then [os[0].value] else [];
      BarsAppend(head, PresentAll(os[1..]));
      if os[0].Some? {
        assert Bars(head) == "|" + os[0].value;
      }
    }
  }

  lemma {:induction false} BarsJoin(fs: seq<string>)
    requires |fs| >= 1
    ensures Bars(fs) == "|" + Join(fs, '|')
  {
    if |fs| > 1 {
      BarsJoin(fs[1..]);
    }
  }

  /** Keys are non-empty and no two start with the same character. */
  predicate DistinctKeys(keys: seq<string>)
  {
    (forall i :: 0 <= i < |keys| ==> |keys[i]| > 0)
    && (forall i, j :: 0 <= i < j < |keys| ==> keys[i][0] != keys[j][0])
  }

  /** The first present field starts with its own key's first character, never with `c`. */
  lemma {:induction false} FirstPresentKey(keys: seq<string>, vs: seq<Option<string>>, c: char)
    requires |keys| == |vs| && DistinctKeys(keys)
    requires forall j :: 0 <= j < |keys| ==> keys[j][0] != c
    ensures |PresentAll(Keyed(keys, vs))| > 0 ==> |PresentAll(Keyed(keys, vs))[0]| > 0 && PresentAll(Keyed(keys, vs))[0][0] != c
  {
    var os := Keyed(keys, vs);
    if |vs| > 0 {
      if vs[0].Some? {
        assert PresentAll(os)[0] == keys[0] + vs[0].value;
      } else {
        assert os[1..] == Keyed(keys[1..], vs[1..]);
        assert PresentAll(os) == PresentAll(os[1..]);
        FirstPresentKey(keys[1..], vs[1..], c);
      }
    }
  }

  /** Taking fields key by key recovers every value, and leaves nothing over. */
  lemma {:induction false} TakeAllPresent(keys: seq<string>, vs: seq<Option<string>>)
    requires |keys| == |vs| && DistinctKeys(keys)
    ensures TakeAll(PresentAll(Keyed(keys, vs)), keys) == (vs, [])
  {
    if |vs| > 0 {
      var os := Keyed(keys, vs);
      assert os[1..] == Keyed(keys[1..], vs[1..]);
      var tail := PresentAll(os[1..]);
      TakeAllPresent(keys[1..], vs[1..]);
      FirstPresentKey(keys[1..], vs[1..], keys[0][0]);
      if vs[0].Some? {
        assert PresentAll(os) == [keys[0] + vs[0].value] + tail;
        assert (keys[0] + vs[0].value)[|keys[0]|..] == vs[0].value;
        assert Take(PresentAll(os), keys[0]) == (vs[0], tail);
      } else {
        assert PresentAll(os) == tail;
        assert Take(tail, keys[0]) == (None, tail);
      }
      assert vs == [vs[0]] + vs[1..];
    }
  }

  /** Join keeps out any character that is neither the separator nor in a piece. */
  lemma {:induction false} JoinAvoids(parts: seq<string>, sep: char, c: char)
    requires c != sep
    requires forall i :: 0 <= i < |parts| ==> c !in parts[i]
    ensures c !in Join(parts, sep)
  {
    if |parts| > 1 {
      JoinAvoids(parts[1..], sep, c);
    }
  }

  lemma DecimalAvoids(n: nat, c: char)
    requires !IsDigit(c)
    ensures c !in Decimal(n)
  {
  }

  lemma {:induction false} PresentAllAvoids(os: seq<Option<string>>, c: char)
    requires forall i :: 0 <= i < |os| && os[i].Some? ==> c !in os[i].value
    ensures forall i :: 0 <= i < |PresentAll(os)| ==> c !in PresentAll(os)[i]
  {
    if |os| > 0 {
      PresentAllAvoids(os[1..], c);
    }
  }

  /** Fields built from keys and values that avoid `c` avoid `c`. */
  lemma {:induction false} KeyedAvoids(keys: seq<string>, vs: seq<Option<string>>, c: char)
    requires |keys| == |vs|
    requires forall i :: 0 <= i < |keys| ==> c !in keys[i]
    requires forall i :: 0 <= i < |vs| && vs[i].Some? ==> c !in vs[i].value
    ensures forall i :: 0 <= i < |PresentAll(Keyed(keys, vs))| ==> c !in PresentAll(Keyed(keys, vs))[i]
  {
    var os := Keyed(keys, vs);
    forall i | 0 <= i < |os| && os[i].Some?
      ensures c !in os[i].value
    {
      assert os[i].value == keys[i] + vs[i].value;
    }
    PresentAllAvoids(os, c);
  }

  /** No field of a well-formed event contains `|`. */
  lemma FieldsAvoidBar(e: Event)
    requires WellFormed(e)
    ensures forall i :: 0 <= i < |PresentAll(OptionalFields(e))| ==> '|' !in PresentAll(OptionalFields(e))[i]
  {
    var vs := FieldValues(e);
    if e.timestampSecond.Some? {
      DecimalAvoids(e.timestampSecond.value, '|');
    }
    if e.tags.Some? && |e.tags.value| > 0 {
      JoinAvoids(e.tags.value, ',', '|');
    }
    KeyedAvoids(FieldKeys, vs, '|');
  }

  /** The values written for a well-formed event read back as its optional part. */
  lemma DecodeFieldValues(e: Event)
    requires WellFormed(e)
    ensures DecodeValues(FieldValues(e)) == Some(OptionalPart(
      e.timestampSecond, e.hostname, e.priority, e.alertType, e.aggregationKey, e.sourceTypeName,
      Canonical(e).tags))
  {
    var vs := FieldValues(e);
    assert vs[1] == e.hostname && vs[4] == e.aggregationKey && vs[5] == e.sourceTypeName;
    if e.timestampSecond.Some? {
      ParseDecimalRoundTrip(e.timestampSecond.value);
    }
    if e.priority.Some? {
      PriorityRoundTrip(e.priority.value);
    }
    if e.alertType.Some? {
      AlertRoundTrip(e.alertType.value);
    }
    TagsValueRoundTrip(e.tags);
  }

  /** The tag text splits back into the tags; an empty tagset reads back as none. */
  lemma TagsValueRoundTrip(tags: Option<Tagset>)
    requires tags.Some? ==> forall i :: 0 <= i < |tags.value| ==> ',' !in tags.value[i]
    ensures (if TagsValue(tags).Some? then Some(Split(TagsValue(tags).value, ',')) else None)
            == (if tags == Some([]) then None else tags)
  {
    if tags.Some? && |tags.value| > 0 {
      SplitJoin(tags.value, ',');
    }
  }

  /** The fields of a well-formed event decode to its optional part. */
  lemma DecodeFieldsOfEvent(e: Event)
    requires WellFormed(e)
    ensures DecodeFields(PresentAll(OptionalFields(e))) == Some(OptionalPart(
      e.timestampSecond, e.hostname, e.priority, e.alertType, e.aggregationKey, e.sourceTypeName,
      Canonical(e).tags))
  {
    assert DistinctKeys(FieldKeys);
    TakeAllPresent(FieldKeys, FieldValues(e));
    DecodeFieldValues(e);
  }

  /** The sections of a well-formed event decode to its optional part. */
  lemma DecodeSectionsOfEvent(e: Event)
    requires WellFormed(e)
    ensures DecodeSections(Sections(OptionalFields(e))) == Some(OptionalPart(
      e.timestampSecond, e.hostname, e.priority, e.alertType, e.aggregationKey, e.sourceTypeName,
      Canonical(e).tags))
  {
    var fs := PresentAll(OptionalFields(e));
    SectionsAsBars(OptionalFields(e));
    DecodeFieldsOfEvent(e);
    if |fs| > 0 {
      BarsJoin(fs);
      FieldsAvoidBar(e);
      SplitJoin(fs, '|');
      assert Bars(fs)[1..] == Join(fs, '|');
    }
  }

  /** The title and text are cut back out by their lengths. */
  lemma DecodeBodiesOf(title: string, text: string, rest: string)
    ensures DecodeBodies(|title|, |text|, ":" + title + "|" + text + rest) == Some((|title|, |text|, title, text, rest))
  {
    var r := ":" + title + "|" + text + rest;
    var n, m := |title|, |text|;
    assert r[1..1 + n] == title;
    assert r[2 + n..2 + n + m] == text;
    assert r[2 + n + m..] == rest;
  }

  /** The two lengths read back, and what follows the `}` is left. */
  lemma DecodeLengthsOf(tl: nat, xl: nat, r: string)
    ensures DecodeLengths(Decimal(tl) + "," + Decimal(xl) + "}" + r) == Some((tl, xl, r))
  {
    var a, b := Decimal(tl), Decimal(xl);
    var r1 := b + "}" + r;
    assert a + "," + b + "}" + r == a + [','] + r1;
    DecimalAvoids(tl, ',');
    SpanUntilFirst(a, ',', r1);
    assert r1 == b + ['}'] + r;
    DecimalAvoids(xl, '}');
    SpanUntilFirst(b, '}', r);
    ParseDecimalRoundTrip(tl);
    ParseDecimalRoundTrip(xl);
  }

  /** The header reads back as the two lengths, the title, the text and what follows. */
  lemma DecodeHeaderOf(e: Event, rest: string)
    requires e.titleUtf8Length == |e.title| && e.textUtf8Length == |e.text|
    ensures DecodeHeader(Header(e) + rest) == Some((|e.title|, |e.text|, e.title, e.text, rest))
  {
    var r := ":" + e.title + "|" + e.text + rest;
    var lengths := Decimal(e.titleUtf8Length) + "," + Decimal(e.textUtf8Length) + "}" + r;
    assert Header(e) + rest == "_e{" + lengths;
    assert (Header(e) + rest)[3..] == lengths;
    DecodeLengthsOf(e.titleUtf8Length, e.textUtf8Length, r);
    DecodeBodiesOf(e.title, e.text, rest);
  }

  /**
   * Round trip: reading back the datagram of a well-formed event gives the
   * event (an empty tagset reads back as none).
   */
  lemma DecodeRender(e: Event)
    requires WellFormed(e)
    ensures DecodeEvent(Render(e)) == Some(Canonical(e))
  {
    DecodeHeaderOf(e, Sections(OptionalFields(e)));
    DecodeSectionsOfEvent(e);
  }

  /** Every generated event whose drawn strings avoid the separators round-trips through its datagram. */
  lemma GeneratedEventRoundTrip(d: EventDraws)
    requires d.InRange()
    requires d.hostname.Some? ==> '|' !in d.hostname.value
    requires d.aggregationKey.Some? ==> '|' !in d.aggregationKey.value
    requires d.sourceTypeName.Some? ==> '|' !in d.sourceTypeName.value
    requires d.tags.Some? ==> forall i :: 0 <= i < |d.tags.value| ==> '|' !in d.tags.value[i] && ',' !in d.tags.value[i]
    ensures DecodeEvent(Render(GenerateEvent(d))) == Some(Canonical(GenerateEvent(d)))
  {
    DecodeRender(GenerateEvent(d));
  }
}
