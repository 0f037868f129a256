/** The stream entry format: what the ingest endpoints write and the two consumers read back. */
module Wire {
  import opened Text
  import opened Calendar

  datatype Field =
    | Id | DeviceId | SiteId | RecordedAt
    | Voltage | Current | PowerKw | EnergyKwh | Temperature | Pressure | Frequency | PowerFactor
    | RuntimeSeconds | Metadata

  type Fields = map<Field, string>

  /** The columns that hold an optional floating-point measurement. */
  const METRICS: set<Field> :=
    {Voltage, Current, PowerKw, EnergyKwh, Temperature, Pressure, Frequency, PowerFactor}

  /** The measurements that the evaluator looks at. */
  const EVALUATED: set<Field> := METRICS - {EnergyKwh}

  /** A validated payload; a measurement that is None is simply absent from the map. */
  datatype Reading = Reading(
    recordedAt: Timestamp, metrics: map<Field, Decimal>, runtimeSeconds: Option<int>, metadata: string)
  {
    predicate Valid() { recordedAt.Valid() && metrics.Keys <= METRICS }
  }

  /** What the persister extracts from an entry. */
  datatype Record = Record(
    recordedAt: int, id: nat, deviceId: nat,
    metrics: map<Field, real>, runtimeSeconds: Option<int>, metadata: string)

  /** The outcome of an optional field: a raised ValueError, or a value that may be missing. */
  datatype Parsed<+T> = ValueError | Ok(value: Option<T>)

  // ----- Identifiers

  predicate IsUuid(n: nat) { n < Pow(16, 32) }

  function UuidText(n: nat): string {
    var h := Padded(n, 16, 32);
    h[..8] + "-" + h[8..12] + "-" + h[12..16] + "-" + h[16..20] + "-" + h[20..]
  }

  function WithoutHyphens(s: string): string {
    if s == "" then ""
    else (if s[0] == '-' then "" else [s[0]]) + WithoutHyphens(s[1..])
  }

  /** `uuid.UUID(text)`. */
  function ParseUuid(s: string): Option<nat> {
    var h := WithoutHyphens(s);
    if |h| == 32 then DigitsValue(h, 16) else None
  }

  predicate NoHyphen(s: string) { forall k :: 0 <= k < |s| ==> s[k] != '-' }

  lemma {:induction false} WithoutHyphensConcat(a: string, b: string)
    ensures WithoutHyphens(a + b) == WithoutHyphens(a) + WithoutHyphens(b)
  {
    if a == "" {
      assert a + b == b;
    } else {
      WithoutHyphensConcat(a[1..], b);
      var first := if a[0] == '-' then "" else [a[0]];
      assert (a + b)[1..] == a[1..] + b;
      assert WithoutHyphens(a + b) == first + WithoutHyphens(a[1..] + b);
      assert first + (WithoutHyphens(a[1..]) + WithoutHyphens(b)) == first + WithoutHyphens(a[1..]) + WithoutHyphens(b);
    }
  }

  lemma {:induction false} WithoutHyphensPlain(a: string)
    requires NoHyphen(a)
    ensures WithoutHyphens(a) == a
  {
    if a != "" { WithoutHyphensPlain(a[1..]); }
  }

  lemma HyphenAndPart(s: string, part: string)
    requires NoHyphen(part)
    ensures WithoutHyphens(s + "-" + part) == WithoutHyphens(s) + part
  {
    WithoutHyphensConcat(s + "-", part);
    WithoutHyphensConcat(s, "-");
    WithoutHyphensPlain(part);
    assert WithoutHyphens("-") == "";
    hide WithoutHyphens;
    assert WithoutHyphens(s) + "" == WithoutHyphens(s);
  }

  lemma FiveParts(a: string, b: string, c: string, d: string, e: string)
    requires NoHyphen(a) && NoHyphen(b) && NoHyphen(c) && NoHyphen(d) && NoHyphen(e)
    ensures WithoutHyphens(a + "-" + b + "-" + c + "-" + d + "-" + e) == a + b + c + d + e
  {
    WithoutHyphensPlain(a);
    HyphenAndPart(a, b);
    HyphenAndPart(a + "-" + b, c);
    HyphenAndPart(a + "-" + b + "-" + c, d);
    HyphenAndPart(a + "-" + b + "-" + c + "-" + d, e);
  }

  lemma UuidReadsBack(n: nat)
    requires IsUuid(n)
    ensures ParseUuid(UuidText(n)) == Some(n)
  {
    hide Pow, Padded, DigitsValue;
    var h := Padded(n, 16, 32);
    PaddedReadsBack(n, 16, 32);
    forall k | 0 <= k < |h| ensures h[k] != '-' { assert h[k] in h; }
    FiveParts(h[..8], h[8..12], h[12..16], h[16..20], h[20..]);
    assert h[..8] + h[8..12] + h[12..16] + h[16..20] + h[20..] == h;
  }

  // ----- Encoding

  function MetricFields(r: Reading): Fields {
    map f | f in METRICS :: if f in r.metrics then FloatText(r.metrics[f]) else ""
  }

  function Assemble(metrics: Fields, id: string, device: string, site: string,
                    recordedAt: string, runtime: string, metadata: string): Fields {
    metrics
    + map[Id := id, DeviceId := device, SiteId := site, RecordedAt := recordedAt, RuntimeSeconds := runtime,
        Metadata := metadata]
  }

  /** The field dictionary queued for XADD. */
  function Encode(r: Reading, id: nat, device: nat, site: nat): Fields
    requires r.Valid()
  {
    Assemble(MetricFields(r), UuidText(id), UuidText(device), UuidText(site), r.recordedAt.IsoText(),
             if r.runtimeSeconds.Some? then IntText(r.runtimeSeconds.value) else "", r.metadata)
  }

  // ----- Decoding

  function Get(fields: Fields, f: Field): Option<string> {
    if f in fields then Some(fields[f]) else None
  }

  function ParseFloatOrNone(text: Option<string>): Parsed<real> {
    if text.None? || Blank(text.value) then Ok(None)
    else match ParseFloat(text.value) case None => ValueError case Some(v) => Ok(Some(v))
  }

  function ParseIntOrNone(text: Option<string>): Parsed<int> {
    if text.None? || Blank(text.value) then Ok(None)
    else match ParseInt(text.value) case None => ValueError case Some(v) => Ok(Some(v))
  }

  predicate MetricsParse(fields: Fields) {
    forall f :: f in METRICS ==> ParseFloatOrNone(Get(fields, f)).Ok?
  }

  function MetricValues(fields: Fields): map<Field, real>
    requires MetricsParse(fields)
  {
    map f | f in METRICS && ParseFloatOrNone(Get(fields, f)).value.Some? :: ParseFloatOrNone(Get(fields, f)).value.value
  }

  /** The record the persister builds from an entry; None stands for the exception that rejects it. */
  function Decode(fields: Fields): Option<Record> {
    if RecordedAt !in fields || Id !in fields || DeviceId !in fields then None
    else
      match (ParseIso(fields[RecordedAt]), ParseUuid(fields[Id]), ParseUuid(fields[DeviceId]))
      case (Some(t), Some(id), Some(device)) =>
        var runtime := ParseIntOrNone(Get(fields, RuntimeSeconds));
        if MetricsParse(fields) && runtime.Ok? then
          Some(Record(t.Instant(), id, device, MetricValues(fields), runtime.value,
                      if Metadata in fields then fields[Metadata] else "{}"))
        else None
      case _ => None
  }

  /** The numbers the evaluator extracts from an entry; None stands for a ValueError. */
  function EvaluationData(fields: Fields): Option<map<Field, real>> {
    if forall f :: f in EVALUATED ==> ParseFloatOrNone(Get(fields, f)).Ok? then
      Some(map f | f in EVALUATED && ParseFloatOrNone(Get(fields, f)).value.Some?
           :: ParseFloatOrNone(Get(fields, f)).value.value)
    else None
  }

  // ----- Round trips

  /** The record a reading should become: same instant, same identifiers, each measurement present exactly
      when it was given and with the same value. */
  function RecordOf(r: Reading, id: nat, device: nat): Record
    requires r.Valid()
  {
    Record(r.recordedAt.Instant(), id, device,
           map f | f in r.metrics :: ToReal(r.metrics[f]), r.runtimeSeconds, r.metadata)
  }

  lemma AssembledMetric(metrics: Fields, id: string, device: string, site: string,
                        recordedAt: string, runtime: string, metadata: string, f: Field)
    requires f in METRICS && f in metrics
    ensures Get(Assemble(metrics, id, device, site, recordedAt, runtime, metadata), f) == Some(metrics[f])
  {
  }

  lemma EncodedMetric(r: Reading, id: nat, device: nat, site: nat, f: Field)
    requires r.Valid() && f in METRICS
    ensures Get(Encode(r, id, device, site), f) == Some(if f in r.metrics then FloatText(r.metrics[f]) else "")
  {
    hide FloatText, UuidText, Timestamp.IsoText, IntText, Assemble, Get;
    AssembledMetric(MetricFields(r), UuidText(id), UuidText(device), UuidText(site), r.recordedAt.IsoText(),
                    if r.runtimeSeconds.Some? then IntText(r.runtimeSeconds.value) else "", r.metadata, f);
  }

  lemma PresentReadsBack(v: Decimal)
    ensures ParseFloatOrNone(Some(FloatText(v))) == Ok(Some(ToReal(v)))
  {
    FloatTextReadsBack(v);
  }

  lemma MetricReadsBack(r: Reading, id: nat, device: nat, site: nat, f: Field)
    requires r.Valid() && f in METRICS
    ensures ParseFloatOrNone(Get(Encode(r, id, device, site), f))
         == Ok(if f in r.metrics then Some(ToReal(r.metrics[f])) else None)
  {
    EncodedMetric(r, id, device, site, f);
    if f in r.metrics { PresentReadsBack(r.metrics[f]); }
  }

  lemma MetricsReadBack(r: Reading, id: nat, device: nat, site: nat)
    requires r.Valid()
    ensures MetricsParse(Encode(r, id, device, site))
    ensures MetricValues(Encode(r, id, device, site)) == map f | f in r.metrics :: ToReal(r.metrics[f])
  {
    var fields := Encode(r, id, device, site);
    var expected := map f | f in r.metrics :: ToReal(r.metrics[f]);
    forall f | f in METRICS
      ensures ParseFloatOrNone(Get(fields, f)) == Ok(if f in expected then Some(expected[f]) else None)
    {
      MetricReadsBack(r, id, device, site, f);
    }
    ValuesAre(fields, expected);
  }

  lemma ValuesAre(fields: Fields, expected: map<Field, real>)
    requires expected.Keys <= METRICS
    requires forall f :: f in METRICS ==>
      ParseFloatOrNone(Get(fields, f)) == Ok(if f in expected then Some(expected[f]) else None)
    ensures MetricsParse(fields) && MetricValues(fields) == expected
  {
    hide ParseFloatOrNone;
    assert forall f :: f in expected ==> f in METRICS;
  }

  lemma EmptyIsBlank()
    ensures Blank("")
  {
  }

  lemma RuntimeReadsBack(r: Reading, id: nat, device: nat, site: nat)
    requires r.Valid()
    ensures ParseIntOrNone(Get(Encode(r, id, device, site), RuntimeSeconds)) == Ok(r.runtimeSeconds)
  {
    hide UuidText, Timestamp.IsoText, MetricFields, IntText, ParseInt, Blank;
    if r.runtimeSeconds.Some? { IntTextReadsBack(r.runtimeSeconds.value); }
    EmptyIsBlank();
  }

  lemma DecodeAssembles(fields: Fields, t: Timestamp, id: nat, device: nat, runtime: Option<int>)
    requires RecordedAt in fields && Id in fields && DeviceId in fields && Metadata in fields
    requires t.Valid() && ParseIso(fields[RecordedAt]) == Some(t)
    requires ParseUuid(fields[Id]) == Some(id) && ParseUuid(fields[DeviceId]) == Some(device)
    requires ParseIntOrNone(Get(fields, RuntimeSeconds)) == Ok(runtime)
    requires MetricsParse(fields)
    ensures Decode(fields) == Some(Record(t.Instant(), id, device, MetricValues(fields), runtime, fields[Metadata]))
  {
  }

  /** Decoding what was encoded restores the reading: None stays None, zero stays zero. */
  lemma DecodeInvertsEncode(r: Reading, id: nat, device: nat, site: nat)
    requires r.Valid() && IsUuid(id) && IsUuid(device)
    ensures Decode(Encode(r, id, device, site)) == Some(RecordOf(r, id, device))
  {
    hide ParseIso, ParseUuid, UuidText, Timestamp.IsoText, Timestamp.Instant, IntText, ParseIntOrNone;
    hide ParseFloatOrNone, FloatText, MetricValues, MetricsParse, Decode;
    UuidReadsBack(id);
    UuidReadsBack(device);
    IsoReadsBack(r.recordedAt);
    RuntimeReadsBack(r, id, device, site);
    MetricsReadBack(r, id, device, site);
    DecodeAssembles(Encode(r, id, device, site), r.recordedAt, id, device, r.runtimeSeconds);
  }

  /** Whatever entry the persister accepts, the evaluator reads the same numbers from it. */
  lemma ConsumersAgree(fields: Fields)
    requires Decode(fields).Some?
    ensures EvaluationData(fields).Some?
    ensures EvaluationData(fields).value == Decode(fields).value.metrics - {EnergyKwh}
  {
  }

  // ----- What the entry format is

  /** Every number column but the runtime is a measurement, so no reading is too rich to be valid. */
  lemma MetricsAreAllNumbers(f: Field)
    ensures f in METRICS <==> f !in {Id, DeviceId, SiteId, RecordedAt, RuntimeSeconds, Metadata}
    ensures f in EVALUATED <==> f in METRICS && f != EnergyKwh
  {
  }

  /** Each identifier is read back from its own field, the site included, and the metadata text is passed on as it
      is. */
  lemma IdentifiersReadBack(r: Reading, id: nat, device: nat, site: nat)
    requires r.Valid() && IsUuid(id) && IsUuid(device) && IsUuid(site)
    ensures var fields := Encode(r, id, device, site);
      && ParseUuid(fields[Id]) == Some(id) && ParseUuid(fields[DeviceId]) == Some(device)
      && ParseUuid(fields[SiteId]) == Some(site) && fields[Metadata] == r.metadata
      && ParseIso(fields[RecordedAt]) == Some(r.recordedAt)
  {
    hide UuidText, Timestamp.IsoText, ParseUuid, ParseIso, IntText, MetricFields;
    UuidReadsBack(id);
    UuidReadsBack(device);
    UuidReadsBack(site);
    IsoReadsBack(r.recordedAt);
  }

  /** What an entry may lack: all but its identifiers and its timestamp. The metadata defaults to an empty object. */
  lemma BareEntry(id: string, device: string, recordedAt: string)
    requires ParseUuid(id).Some? && ParseUuid(device).Some? && ParseIso(recordedAt).Some?
    ensures Decode(map[Id := id, DeviceId := device, RecordedAt := recordedAt])
      == Some(Record(ParseIso(recordedAt).value.Instant(), ParseUuid(id).value, ParseUuid(device).value, map[], None,
                     "{}"))
  {
    hide ParseUuid, ParseIso, Timestamp.Instant;
    var fields := map[Id := id, DeviceId := device, RecordedAt := recordedAt];
    ValuesAre(fields, map[]);
    hide MetricValues, MetricsParse;
  }

  /** What makes an entry unparseable: a missing or malformed identifier or timestamp, a measurement that is there, not
      blank and not a number, or such a runtime. */
  lemma RejectedExactly(fields: Fields)
    ensures Decode(fields) == None <==>
      || Id !in fields || DeviceId !in fields || RecordedAt !in fields
      || ParseUuid(fields[Id]) == None || ParseUuid(fields[DeviceId]) == None || ParseIso(fields[RecordedAt]) == None
      || (exists f :: f in METRICS && f in fields && !Blank(fields[f]) && ParseFloat(fields[f]) == None)
      || (RuntimeSeconds in fields && !Blank(fields[RuntimeSeconds]) && ParseInt(fields[RuntimeSeconds]) == None)
  {
    hide ParseUuid, ParseIso, ParseFloat, ParseInt, Blank;
  }

  /** str() of a UUID: 32 lower-case hexadecimal digits in groups of 8, 4, 4, 4 and 12. */
  lemma UuidShape(n: nat, k: nat)
    requires IsUuid(n) && k < 36
    ensures |UuidText(n)| == 36
    ensures k in {8, 13, 18, 23} <==> UuidText(n)[k] == '-'
    ensures k !in {8, 13, 18, 23} ==> '0' <= UuidText(n)[k] <= '9' || 'a' <= UuidText(n)[k] <= 'f'
  {
    hide Pow, Padded;
    var h := Padded(n, 16, 32);
    PaddedIsHex(n, 32);
    forall c | c in h ensures c != '-' {}
    var j := if k < 8 then k else if k < 13 then k - 1 else if k < 18 then k - 2 else if k < 23 then k - 3 else k - 4;
    if k !in {8, 13, 18, 23} { assert UuidText(n)[k] == h[j] && h[j] in h; }
  }

  lemma {:induction false} PaddedIsHex(n: nat, width: nat)
    ensures forall c :: c in Padded(n, 16, width) ==> '0' <= c <= '9' || 'a' <= c <= 'f'
    decreases width
  {
    if width > 0 { PaddedIsHex(n / 16, width - 1); }
  }
}
