/** The projection of legacy telemetry rows into the v2 signal envelope, with the CHECKs it must
    meet and the aggregate self-checks behind it. */
module Telemetry {
  import opened Basics
  import V1RichText

  type Json = V1RichText.Json
  type Time = int

  const MAX_NAME: nat := 128

  /** A float8: the special values, and finite ones without their rounding. */
  datatype Float = NaN | PlusInfinity | MinusInfinity | Finite(r: real)

  datatype Kind = Metric | Log | Span

  datatype Legacy = Legacy(
    id: int,
    workspace: string,
    owner: string,
    actor: string,
    occurredAt: Time,
    createdAt: Option<Time>,
    kind: Kind,
    service: string,
    name: string,
    value: Option<Float>,
    severity: Option<string>,
    requestId: Option<string>,
    traceId: Option<string>,
    spanId: Option<string>,
    parentSpanId: Option<string>,
    attributes: Json)

  datatype Signal = Signal(
    id: int,
    workspace: Option<string>,
    owner: Option<string>,
    actor: Option<string>,
    occurredAt: Time,
    observedAt: Time,
    kind: Kind,
    source: string,
    service: string,
    name: string,
    metricType: Option<string>,
    value: Option<Float>,
    unit: Option<string>,
    severityNumber: Option<int>,
    severityText: Option<string>,
    durationMs: Option<Float>,
    spanStatus: Option<string>,
    requestId: Option<string>,
    traceId: Option<string>,
    spanId: Option<string>,
    parentSpanId: Option<string>,
    clientEventId: Option<string>,
    attributes: map<string, Json>)

  /** upper(), the text of a JSON value that is neither a string nor a boolean, and the [[:cntrl:]] class. */
  datatype Env = Env(upper: string -> string, number: Json -> string, control: char -> bool)

  // ---------------------------------------------------------------- the two tables' constraints

  /** CHECK telemetry_metric_requires_value, and the width of name. */
  predicate LegacyOk(r: Legacy) {
    && (r.kind.Metric? ==> r.value.Some?)
    && |r.name| <= MAX_NAME
  }

  /** The preflight lets the row pass. */
  predicate FiniteMetric(r: Legacy) {
    r.kind.Metric? && r.value.Some? ==> r.value.value.Finite?
  }

  predicate ScopeComplete(s: Signal) {
    || (s.workspace.None? && s.owner.None? && s.actor.None?)
    || (s.workspace.Some? && s.owner.Some? && s.actor.Some?)
  }

  predicate SourceContract(s: Signal) {
    || (s.source == "frontend" && s.workspace.Some? && s.clientEventId.Some?)
    || (s.source == "backend" && s.clientEventId.None?)
  }

  predicate KindFields(s: Signal) {
    match s.kind
    case Metric =>
      && s.metricType.Some? && s.value.Some? && s.unit.Some? && s.severityNumber.None? && s.severityText.None?
      && s.durationMs.None? && s.spanStatus.None?
    case Log =>
      && s.metricType.None? && s.value.None? && s.unit.None?
      && s.severityNumber.Some? && 1 <= s.severityNumber.value <= 24 && s.severityText.Some?
      && s.durationMs.None? && s.spanStatus.None?
    case Span =>
      && s.metricType.None? && s.value.None? && s.unit.None? && s.severityNumber.None? && s.severityText.None?
      && s.durationMs.Some? && (s.durationMs.value.Finite? ==> s.durationMs.value.r >= 0.0)
      && s.spanStatus.Some? && s.traceId.Some? && s.spanId.Some?
  }

  predicate AllZero(s: string) { forall i | 0 <= i < |s| :: s[i] == '0' }

  /** n hexadecimal digits, not all zero. */
  predicate IsTraceHex(s: Option<string>, n: nat) {
    s.Some? && IsHex(s.value, n) && !AllZero(s.value)
  }

  predicate ValidContext(traceId: Option<string>, spanId: Option<string>, parentSpanId: Option<string>) {
    || (traceId.None? && spanId.None? && parentSpanId.None?)
    || (IsTraceHex(traceId, 32) && IsTraceHex(spanId, 16) && (parentSpanId.None? || IsTraceHex(parentSpanId, 16)))
  }

  predicate TraceContext(s: Signal) { ValidContext(s.traceId, s.spanId, s.parentSpanId) }

  /** Every CHECK of the v2 table. */
  predicate ChecksHold(s: Signal) {
    && s.source in {"backend", "frontend"}
    && ScopeComplete(s) && SourceContract(s) && KindFields(s) && TraceContext(s)
    && (s.metricType.Some? ==> s.metricType.value in {"counter", "gauge", "histogram"})
    && (s.value.Some? ==> s.value.value.Finite?)
    && (s.durationMs.Some? ==> s.durationMs.value.Finite?)
    && (s.spanStatus.Some? ==> s.spanStatus.value in {"unset", "ok", "error"})
  }

  // ---------------------------------------------------------------- attributes

  const ALLOWED: set<string> := {
    "capability", "error_code", "event_type", "job_type", "level", "method", "metric_name", "operation",
    "outcome", "provider", "release", "route", "stack_fingerprint", "status_class", "status_code", "transport"}

  /** `value #>> '{}'` of a scalar. */
  function Text(e: Env, j: Json): string {
    match j
    case Str(s) => s
    case Bool(b) => if b then "true" else "false"
    case _ => e.number(j)
  }

  predicate SafeValue(e: Env, j: Json) {
    && (j.Str? || j.Bool? || j.Int? || j.Num?)
    && 1 <= |Text(e, j)| <= 256
    && (j.Str? ==> forall i | 0 <= i < |j.s| :: !e.control(j.s[i]))
  }

  function SafeAttributes(e: Env, attributes: Json): (safe: map<string, Json>)
    ensures safe.Keys <= ALLOWED
  {
    if attributes.Obj? then
      map k | k in attributes.fields && k in ALLOWED && SafeValue(e, attributes.fields[k]) :: attributes.fields[k]
    else map[]
  }

  /** `^[1-5][0-9][0-9]$` */
  predicate IsStatusCode(s: string) { |s| == 3 && '1' <= s[0] <= '5' && Digit(s[1]) && Digit(s[2]) }

  function StatusClass(code: string): string {
    if IsStatusCode(code) then [code[0]] + "xx" else "unknown"
  }

  function StatusOutcome(code: string): string {
    if "5" <= code then "server_error" else if "4" <= code then "client_error" else "success"
  }

  function ProjectAttributes(e: Env, r: Legacy): map<string, Json> {
    var safe := SafeAttributes(e, r.attributes);
    var kept := safe - {"status_code"};
    if r.kind.Span? then
      kept + map["event_type" := V1RichText.Str("legacy_span"), "outcome" := V1RichText.Str("unknown")]
    else if r.service == "backend.api" && "status_code" in safe then
      var code := Text(e, safe["status_code"]);
      var operation := if "operation" in safe then Text(e, safe["operation"]) else "UNKNOWN";
      kept + map["method" := V1RichText.Str(e.upper(operation)),
                 "status_class" := V1RichText.Str(StatusClass(code)),
                 "outcome" := V1RichText.Str(StatusOutcome(code))]
    else kept
  }

  // ---------------------------------------------------------------- the projection

  function ProjectName(r: Legacy): string {
    if r.kind.Span? then "legacy.span.unlinked"
    else if r.name == "requests" then "aiws.http.server.request.count"
    else if r.name == "errors" then "aiws.http.server.error.count"
    else if r.name == "latency_ms" then "http.server.request.duration"
    else if r.name == "saturation" then "aiws.runtime.supervisor.utilization"
    else if r.kind.Metric? && !("aiws." <= r.name) && !("http." <= r.name) then "aiws." + r.name
    else r.name
  }

  /** What varchar(128) takes without an error: too long a value only if all its excess is blanks. */
  predicate FitsColumn(s: string) {
    forall i | MAX_NAME <= i < |s| :: s[i] == ' '
  }

  /** What it then stores. */
  function Stored(s: string): string { if |s| <= MAX_NAME then s else s[..MAX_NAME] }

  function Thousandth(f: Float): Float {
    if f.Finite? then Finite(f.r / 1000.0) else f
  }

  function ProjectValue(r: Legacy): Option<Float> {
    if !r.kind.Metric? then None
    else if r.name == "latency_ms" && r.value.Some? then Some(Thousandth(r.value.value))
    else r.value
  }

  /** COALESCE(NULLIF(severity, ''), attributes->>'level', 'INFO'), in upper case. */
  function Level(e: Env, r: Legacy): string {
    var level := if r.attributes.Obj? && "level" in r.attributes.fields then r.attributes.fields["level"]
                 else V1RichText.Null;
    e.upper(if r.severity.Some? && r.severity.value != "" then r.severity.value
            else if level.Null? then "INFO" else Text(e, level))
  }

  datatype Severity = Severity(number: int, text: string)

  function SeverityOf(level: string): Severity {
    if level in {"CRITICAL", "FATAL"} then Severity(21, "CRITICAL")
    else if level == "ERROR" then Severity(17, "ERROR")
    else if level in {"WARNING", "WARN"} then Severity(13, "WARNING")
    else if level == "DEBUG" then Severity(5, "DEBUG")
    else if level == "TRACE" then Severity(1, "TRACE")
    else Severity(9, "INFO")
  }

  predicate Traced(r: Legacy) { IsTraceHex(r.traceId, 32) && IsTraceHex(r.spanId, 16) }

  function Project(e: Env, r: Legacy): Signal {
    var severity := SeverityOf(Level(e, r));
    Signal(
      id := r.id,
      workspace := Some(r.workspace), owner := Some(r.owner), actor := Some(r.actor),
      occurredAt := r.occurredAt,
      observedAt := if r.createdAt.Some? then r.createdAt.value else r.occurredAt,
      kind := if r.kind.Span? then Log else r.kind,
      source := "backend",
      service := r.service,
      name := Stored(ProjectName(r)),
      metricType := if !r.kind.Metric? then None
                    else if r.name == "latency_ms" then Some("histogram")
                    else if r.name == "saturation" then Some("gauge")
                    else Some("counter"),
      value := ProjectValue(r),
      unit := if !r.kind.Metric? then None
              else if r.name == "latency_ms" then Some("s")
              else if r.name == "saturation" then Some("1")
              else if r.name == "requests" then Some("{request}")
              else if r.name == "errors" then Some("{error}")
              else Some("{event}"),
      severityNumber := if r.kind.Metric? then None else Some(severity.number),
      severityText := if r.kind.Metric? then None else Some(severity.text),
      durationMs := None,
      spanStatus := None,
      requestId := r.requestId,
      traceId := if Traced(r) then r.traceId else None,
      spanId := if Traced(r) then r.spanId else None,
      parentSpanId := if Traced(r) && IsTraceHex(r.parentSpanId, 16) then r.parentSpanId else None,
      clientEventId := None,
      attributes := ProjectAttributes(e, r))
  }

  /** The name gets the 'aiws.' prefix. */
  predicate GetsPrefix(r: Legacy) {
    && r.kind.Metric? && r.name !in {"requests", "errors", "latency_ms", "saturation"}
    && !("aiws." <= r.name) && !("http." <= r.name)
  }

  /** Where the prefix is added, it pushes nothing but blanks out of the column. */
  predicate NameFits(r: Legacy) {
    GetsPrefix(r) ==> forall i | MAX_NAME - 5 <= i < |r.name| :: r.name[i] == ' '
  }

  lemma NameFitsIff(r: Legacy)
    requires |r.name| <= MAX_NAME
    ensures FitsColumn(ProjectName(r)) <==> NameFits(r)
  {
    if GetsPrefix(r) {
      var name := "aiws." + r.name;
      assert ProjectName(r) == name;
      if FitsColumn(name) {
        forall i | MAX_NAME - 5 <= i < |r.name| ensures r.name[i] == ' ' {
          assert name[i + 5] == r.name[i];
        }
      }
      if NameFits(r) {
        forall i | MAX_NAME <= i < |name| ensures name[i] == ' ' {
          assert name[i] == r.name[i - 5];
        }
      }
    } else {
      assert |ProjectName(r)| <= MAX_NAME;
    }
  }

  /** A projected row meets every CHECK of the v2 table, and its name can be stored exactly when the
      'aiws.' prefix, where it is added, pushes nothing but blanks out of the column. */
  lemma ProjectionMeetsChecks(e: Env, r: Legacy)
    requires LegacyOk(r) && FiniteMetric(r)
    ensures ChecksHold(Project(e, r))
    ensures FitsColumn(ProjectName(r)) <==> NameFits(r)
    ensures |Project(e, r).name| <= MAX_NAME
  {
    NameFitsIff(r);
    hide ProjectAttributes, Level, IsHex, AllZero, ProjectName, FitsColumn, NameFits;
  }

  /** n lower-case hexadecimal digits, one of them not zero. */
  predicate IdentifiesTrace(id: Option<string>, n: nat) {
    && id.Some? && |id.value| == n
    && (forall i | 0 <= i < n :: '0' <= id.value[i] <= '9' || 'a' <= id.value[i] <= 'f')
    && exists i :: 0 <= i < n && id.value[i] != '0'
  }

  /** A trace context that meets the CHECK as it stands is kept; whatever is kept is the row's own. */
  lemma ContextIsKept(e: Env, r: Legacy)
    ensures ValidContext(r.traceId, r.spanId, r.parentSpanId) ==>
      Project(e, r).traceId == r.traceId && Project(e, r).spanId == r.spanId
      && Project(e, r).parentSpanId == r.parentSpanId
    ensures Project(e, r).traceId in {None, r.traceId} && Project(e, r).spanId in {None, r.spanId}
    ensures Project(e, r).parentSpanId in {None, r.parentSpanId}
    ensures Project(e, r).traceId.Some? <==> IdentifiesTrace(r.traceId, 32) && IdentifiesTrace(r.spanId, 16)
    ensures Project(e, r).spanId.Some? <==> Project(e, r).traceId.Some?
    ensures Project(e, r).parentSpanId.Some? <==> Project(e, r).traceId.Some? && IdentifiesTrace(r.parentSpanId, 16)
  {
    assert forall id, n :: IsTraceHex(id, n) <==> IdentifiesTrace(id, n);
    hide IdentifiesTrace;
    hide ProjectAttributes, Level, IsHex, AllZero, SeverityOf, ProjectName, ProjectValue;
  }

  /** A span that nothing links, the four metrics that got new names, and the rest: a metric comes into one of
      two namespaces, and behind what is added the name is the legacy one.  The column takes 128 characters. */
  lemma NamesAreMapped(e: Env, r: Legacy)
    ensures Project(e, r).name == Stored(ProjectName(r)) == ProjectName(r)[..Min(|ProjectName(r)|, 128)]
    ensures r.kind == Span ==> ProjectName(r) == "legacy.span.unlinked"
    ensures r.kind != Span && r.name == "requests" ==> ProjectName(r) == "aiws.http.server.request.count"
    ensures r.kind != Span && r.name == "errors" ==> ProjectName(r) == "aiws.http.server.error.count"
    ensures r.kind != Span && r.name == "latency_ms" ==> ProjectName(r) == "http.server.request.duration"
    ensures r.kind != Span && r.name == "saturation" ==> ProjectName(r) == "aiws.runtime.supervisor.utilization"
    ensures r.kind != Span && r.name !in {"requests", "errors", "latency_ms", "saturation"} ==>
      || ProjectName(r) == r.name
      || (ProjectName(r) == "aiws." + r.name && r.kind == Metric && !("aiws." <= r.name) && !("http." <= r.name))
    ensures r.kind == Metric && r.name !in {"requests", "errors", "latency_ms", "saturation"} ==>
      "aiws." <= ProjectName(r) || "http." <= ProjectName(r)
  {
    ProjectedKind(e, r);
    StoredPrefix(ProjectName(r));
    Prefixed("aiws.", r.name);
    hide Project, Stored;
  }

  lemma StoredPrefix(s: string)
    ensures Stored(s) == s[..Min(|s|, 128)]
  {
  }

  lemma Prefixed(a: string, b: string)
    ensures a <= a + b
  {
  }

  /** What is copied, and what the kind and the name decide. */
  lemma ColumnsAreKept(e: Env, r: Legacy)
    ensures var s := Project(e, r);
      && s.id == r.id && s.workspace == Some(r.workspace) && s.owner == Some(r.owner) && s.actor == Some(r.actor)
      && s.occurredAt == r.occurredAt && s.service == r.service && s.requestId == r.requestId
      && s.source == "backend" && s.clientEventId == None && s.durationMs == None && s.spanStatus == None
      && (r.createdAt == Some(s.observedAt) || (r.createdAt == None && s.observedAt == r.occurredAt))
      && (if r.kind == Metric then
            && s.kind == Metric && s.severityNumber == None && s.severityText == None
            && (r.name == "latency_ms" ==> s.metricType == Some("histogram") && s.unit == Some("s"))
            && (r.name == "saturation" ==> s.metricType == Some("gauge") && s.unit == Some("1"))
            && (r.name == "requests" ==> s.metricType == Some("counter") && s.unit == Some("{request}"))
            && (r.name == "errors" ==> s.metricType == Some("counter") && s.unit == Some("{error}"))
            && (r.name !in {"latency_ms", "saturation", "requests", "errors"} ==>
                  s.metricType == Some("counter") && s.unit == Some("{event}"))
          else
            && s.kind == Log && s.metricType == None && s.value == None && s.unit == None
            && s.severityNumber == Some(SeverityOf(Level(e, r)).number)
            && s.severityText == Some(SeverityOf(Level(e, r)).text))
  {
    hide ProjectAttributes, Level, SeverityOf, IsTraceHex, ProjectName;
    assert "latency_ms"[0] == 'l' && "saturation"[0] == 's' && "requests"[0] == 'r' && "errors"[0] == 'e';
  }

  /** The level is the severity; failing that, the level attribute; failing that, INFO. */
  lemma LevelIsFound(e: Env, r: Legacy, level: string)
    ensures r.severity == Some(level) && level != "" ==> Level(e, r) == e.upper(level)
    ensures (r.severity == None || r.severity == Some("")) ==>
      && (V1RichText.At(r.attributes, ["level"]) == Some(V1RichText.Str(level)) ==> Level(e, r) == e.upper(level))
      && (V1RichText.At(r.attributes, ["level"]) == Some(V1RichText.Bool(true)) ==> Level(e, r) == e.upper("true"))
      && (V1RichText.At(r.attributes, ["level"]) == Some(V1RichText.Bool(false)) ==> Level(e, r) == e.upper("false"))
      && (V1RichText.At(r.attributes, ["level"]) in {None, Some(V1RichText.Null)} ==> Level(e, r) == e.upper("INFO"))
  {
    V1RichText.AtSnoc(r.attributes, [], "level");
    assert [] + ["level"] == ["level"];
  }

  /** A metric keeps its quantity; a latency, and nothing else, is counted in seconds. */
  lemma QuantityIsKept(e: Env, r: Legacy)
    requires LegacyOk(r) && FiniteMetric(r) && r.kind.Metric?
    ensures Project(e, r).value.Some? && Project(e, r).value.value.Finite?
    ensures Project(e, r).unit == Some("s") <==> r.name == "latency_ms"
    ensures Project(e, r).value.value.r * (if r.name == "latency_ms" then 1000.0 else 1.0) == r.value.value.r
  {
    hide ProjectAttributes, Level, ProjectName, SeverityOf, IsTraceHex;
    assert "{request}"[0] == '{' && "{error}"[0] == '{' && "{event}"[0] == '{' && "s"[0] == 's' && "1"[0] == '1';
  }

  /** The OpenTelemetry severity bands: four numbers each, from 1 to 24. */
  const BANDS: seq<string> := ["TRACE", "DEBUG", "INFO", "WARNING", "ERROR", "CRITICAL"]

  /** Number and text of a severity are of the same band, the number is the first of it, and a level that
      names a band stays in it; two have another name, and what names none is INFO. */
  lemma SeverityInItsBand(level: string)
    ensures var s := SeverityOf(level);
      && 1 <= s.number <= 24 && BANDS[(s.number - 1) / 4] == s.text && s.number % 4 == 1
      && (level in BANDS ==> s.text == level)
      && (level == "FATAL" ==> s.text == "CRITICAL") && (level == "WARN" ==> s.text == "WARNING")
      && (level !in BANDS && level != "FATAL" && level != "WARN" ==> s.text == "INFO")
  {
    assert "FATAL" !in BANDS && "WARN" !in BANDS by {
      assert "FATAL"[0] == 'F' && "TRACE"[0] == 'T' && "DEBUG"[0] == 'D' && "ERROR"[0] == 'E';
      assert "WARN"[0] == 'W' && "INFO"[0] == 'I';
    }
  }

  /** The attribute may be carried over: an allowed key with a short scalar, printable if it is text. */
  predicate IsCarried(e: Env, attributes: Json, key: string) {
    && key in ALLOWED && attributes.Obj? && key in attributes.fields
    && match attributes.fields[key]
       case Str(s) => 1 <= |s| <= 256 && forall i | 0 <= i < |s| :: !e.control(s[i])
       case Bool(_) => true
       case Int(_) => 1 <= |e.number(attributes.fields[key])| <= 256
       case Num(_) => 1 <= |e.number(attributes.fields[key])| <= 256
       case _ => false
  }

  /** The keys that the projection writes itself. */
  predicate IsDerived(e: Env, r: Legacy, key: string) {
    if r.kind == Span then key in {"event_type", "outcome"}
    else r.service == "backend.api" && IsCarried(e, r.attributes, "status_code")
         && key in {"method", "status_class", "outcome"}
  }

  /** Output attributes stay in the allow-list and never carry the raw status code; what the projection does
      not derive is there exactly if the legacy row had it in a form to carry over, as it was. */
  lemma AttributesAreSafe(e: Env, r: Legacy, key: string)
    ensures var out := ProjectAttributes(e, r);
      && (key in out ==> key in ALLOWED - {"status_code"})
      && (IsDerived(e, r, key) ==> key in out)
      && (!IsDerived(e, r, key) ==>
            && (key in out <==> key != "status_code" && IsCarried(e, r.attributes, key))
            && (key in out ==> out[key] == r.attributes.fields[key]))
  {
    SafeIsCarried(e, r.attributes, key);
    SafeIsCarried(e, r.attributes, "status_code");
    hide SafeAttributes, IsCarried, Text, StatusClass, StatusOutcome;
    assert "method"[0] == 'm' && "outcome"[0] == 'o' && "event_type"[0] == 'e';
    assert "status_class"[8] == 'l' && "status_code"[8] == 'o';
  }

  lemma SafeIsCarried(e: Env, attributes: Json, key: string)
    ensures key in SafeAttributes(e, attributes) <==> IsCarried(e, attributes, key)
    ensures key in SafeAttributes(e, attributes) ==>
      SafeAttributes(e, attributes)[key] == attributes.fields[key]
  {
    assert |"true"| == 4 && |"false"| == 5;
  }

  /** What is derived: a fixed text for a span; for a request its method, and class and outcome of its status. */
  lemma AttributesAreDerived(e: Env, r: Legacy)
    ensures var out := ProjectAttributes(e, r);
      && (r.kind == Span ==>
            && "event_type" in out && out["event_type"] == V1RichText.Str("legacy_span")
            && "outcome" in out && out["outcome"] == V1RichText.Str("unknown"))
      && (r.kind != Span && r.service == "backend.api" && IsCarried(e, r.attributes, "status_code") ==>
            var code := Text(e, r.attributes.fields["status_code"]);
            && "status_class" in out && out["status_class"] == V1RichText.Str(StatusClass(code))
            && "outcome" in out && out["outcome"] == V1RichText.Str(StatusOutcome(code))
            && "method" in out
            && out["method"] == V1RichText.Str(e.upper(
                 if IsCarried(e, r.attributes, "operation") then Text(e, r.attributes.fields["operation"])
                 else "UNKNOWN")))
  {
    SafeIsCarried(e, r.attributes, "operation");
    SafeIsCarried(e, r.attributes, "status_code");
    hide SafeAttributes, IsCarried, Text, StatusClass, StatusOutcome;
    assert "method"[0] == 'm' && "outcome"[0] == 'o' && "event_type"[0] == 'e' && "status_class"[0] == 's';
  }

  /** The class of a status code is its first digit and "xx", and of anything else unknown; a text is an error
      of the server if it starts with 5, of the client if with 4, else a success.  So a known class and the
      outcome agree. */
  lemma StatusAgreement(code: string)
    ensures IsStatusCode(code) <==>
      |code| == 3 && code[0] in "12345" && code[1] in "0123456789" && code[2] in "0123456789"
    ensures IsStatusCode(code) ==>
      |StatusClass(code)| == 3 && StatusClass(code)[0] == code[0] && StatusClass(code)[1..] == "xx"
    ensures !IsStatusCode(code) ==> StatusClass(code) == "unknown"
    ensures StatusOutcome(code) == "server_error" <==> code != "" && code[0] == '5'
    ensures StatusOutcome(code) == "client_error" <==> code != "" && code[0] == '4'
    ensures StatusOutcome(code) in {"server_error", "client_error", "success"}
    ensures StatusClass(code) == "5xx" ==> StatusOutcome(code) == "server_error"
    ensures StatusClass(code) == "4xx" ==> StatusOutcome(code) == "client_error"
    ensures StatusClass(code) in {"1xx", "2xx", "3xx"} ==> StatusOutcome(code) == "success"
  {
    assert "server_error"[1] == 'e' && "client_error"[1] == 'l' && "success"[1] == 'u';
    assert "5" <= code <==> code != "" && code[0] == '5';
    assert "4" <= code <==> code != "" && code[0] == '4';
    if IsStatusCode(code) {
      assert StatusClass(code)[0] == code[0];
      assert "5xx"[0] == '5' && "4xx"[0] == '4' && "1xx"[0] == '1' && "2xx"[0] == '2' && "3xx"[0] == '3';
    }
  }

  // ---------------------------------------------------------------- the table and its self-checks

  function Backfilled(e: Env, rows: seq<Legacy>): seq<Signal> {
    if rows == [] then [] else Backfilled(e, rows[..|rows| - 1]) + [Project(e, rows[|rows| - 1])]
  }

  function CountLegacy(rows: seq<Legacy>, kind: Kind): nat {
    if rows == [] then 0
    else CountLegacy(rows[..|rows| - 1], kind) + if rows[|rows| - 1].kind == kind then 1 else 0
  }

  function CountSignals(rows: seq<Signal>, kind: Kind): nat {
    if rows == [] then 0
    else CountSignals(rows[..|rows| - 1], kind) + if rows[|rows| - 1].kind == kind then 1 else 0
  }

  predicate IsLatency(r: Legacy) { r.kind.Metric? && r.name == "latency_ms" }

  /** id IN (SELECT id FROM legacy WHERE kind = 'metric' AND name = 'latency_ms') */
  predicate LatencyId(rows: seq<Legacy>, id: int) {
    exists i | 0 <= i < |rows| :: IsLatency(rows[i]) && rows[i].id == id
  }

  predicate IsDuration(legacy: seq<Legacy>, s: Signal) {
    s.kind.Metric? && s.name == "http.server.request.duration" && LatencyId(legacy, s.id)
  }

  function RealOf(f: Option<Float>): real {
    if f.Some? && f.value.Finite? then f.value.r else 0.0
  }

  /** count(*) and sum(value / 1000.0) of the legacy latency metrics. */
  function LegacyLatency(rows: seq<Legacy>): (nat, real) {
    if rows == [] then (0, 0.0)
    else
      var (n, sum) := LegacyLatency(rows[..|rows| - 1]);
      var r := rows[|rows| - 1];
      if IsLatency(r) then (n + 1, sum + RealOf(r.value) / 1000.0) else (n, sum)
  }

  /** count(*) and sum(value) of the v2 duration metrics that come from them. */
  function SignalLatency(legacy: seq<Legacy>, rows: seq<Signal>): (nat, real) {
    if rows == [] then (0, 0.0)
    else
      var (n, sum) := SignalLatency(legacy, rows[..|rows| - 1]);
      var s := rows[|rows| - 1];
      if IsDuration(legacy, s) then (n + 1, sum + RealOf(s.value)) else (n, sum)
  }

  function Abs(x: real): real { if x < 0.0 then -x else x }

  /** The DO block behind the backfill raises nothing. */
  predicate SelfChecksPass(legacy: seq<Legacy>, target: seq<Signal>) {
    var (n, sum) := LegacyLatency(legacy);
    var (n', sum') := SignalLatency(legacy, target);
    && |legacy| == |target|
    && CountSignals(target, Metric) == CountLegacy(legacy, Metric)
    && CountSignals(target, Log) == CountLegacy(legacy, Log) + CountLegacy(legacy, Span)
    && CountSignals(target, Span) == 0
    && n' == n
    && Abs(sum' - sum) <= if Abs(sum) * 0.000000000001 > 0.000000001 then Abs(sum) * 0.000000000001 else 0.000000001
  }

  ghost predicate UniqueIds(rows: seq<Legacy>) {
    forall i, j | 0 <= i < j < |rows| :: rows[i].id != rows[j].id
  }

  lemma {:induction false} KindsAreConserved(e: Env, rows: seq<Legacy>)
    ensures |Backfilled(e, rows)| == |rows|
    ensures CountSignals(Backfilled(e, rows), Metric) == CountLegacy(rows, Metric)
    ensures CountSignals(Backfilled(e, rows), Log) == CountLegacy(rows, Log) + CountLegacy(rows, Span)
    ensures CountSignals(Backfilled(e, rows), Span) == 0
  {
    hide Project;
    if rows != [] {
      var front, last := rows[..|rows| - 1], rows[|rows| - 1];
      KindsAreConserved(e, front);
      FrontOfSnoc(Backfilled(e, front), Project(e, last));
      ProjectedKind(e, last);
    }
  }

  lemma ProjectedKind(e: Env, r: Legacy)
    ensures Project(e, r).kind == (if r.kind.Span? then Log else r.kind)
    ensures Project(e, r).id == r.id && Project(e, r).value == ProjectValue(r)
    ensures Project(e, r).name == Stored(ProjectName(r))
  {
    hide ProjectAttributes, ProjectName, ProjectValue, Stored, Level, SeverityOf;
  }

  /** A row of the table is a duration from a latency metric exactly when it was one. */
  lemma DurationIff(e: Env, all: seq<Legacy>, i: nat)
    requires UniqueIds(all) && i < |all|
    ensures IsDuration(all, Project(e, all[i])) <==> IsLatency(all[i])
    ensures IsLatency(all[i]) && FiniteMetric(all[i]) ==>
      RealOf(Project(e, all[i]).value) == RealOf(all[i].value) / 1000.0
  {
    ProjectedKind(e, all[i]);
    hide Project;
  }

  lemma {:induction false} LatencyIsConserved(e: Env, all: seq<Legacy>, rows: seq<Legacy>)
    requires UniqueIds(all) && |rows| <= |all| && forall i | 0 <= i < |rows| :: rows[i] == all[i]
    requires forall i | 0 <= i < |all| :: FiniteMetric(all[i])
    ensures SignalLatency(all, Backfilled(e, rows)) == LegacyLatency(rows)
  {
    hide Project, IsDuration, IsLatency, FiniteMetric, UniqueIds, RealOf;
    if rows != [] {
      var front, last := rows[..|rows| - 1], rows[|rows| - 1];
      LatencyIsConserved(e, all, front);
      FrontOfSnoc(Backfilled(e, front), Project(e, last));
      DurationIff(e, all, |rows| - 1);
    }
  }

  /** What a caller can check of the table: finite metric values, and names that leave room for the prefix. */
  predicate BackfillRuns(rows: seq<Legacy>) {
    && (forall i | 0 <= i < |rows| :: FiniteMetric(rows[i]))
    && (forall i | 0 <= i < |rows| :: NameFits(rows[i]))
  }

  /** The preflight or the INSERT stops at this row. */
  predicate Stops(r: Legacy) {
    !FiniteMetric(r) || !FitsColumn(ProjectName(r))
  }

  /** For a legacy table that its constraints allow, the migration goes through exactly when every
      metric value is finite and every name leaves room for its prefix: each row then meets the
      v2 table's CHECKs, and the self-checks, on exact reals, cannot fire. */
  lemma BackfillConserves(e: Env, rows: seq<Legacy>)
    requires UniqueIds(rows) && forall i | 0 <= i < |rows| :: LegacyOk(rows[i])
    ensures BackfillRuns(rows) <==> forall i | 0 <= i < |rows| :: !Stops(rows[i])
    ensures BackfillRuns(rows) ==>
      SelfChecksPass(rows, Backfilled(e, rows)) && forall i | 0 <= i < |rows| :: ChecksHold(Project(e, rows[i]))
  {
    hide Project, NameFits, FiniteMetric, ChecksHold, ProjectName, FitsColumn;
    forall i | 0 <= i < |rows|
      ensures FiniteMetric(rows[i]) ==> ChecksHold(Project(e, rows[i]))
      ensures FitsColumn(ProjectName(rows[i])) <==> NameFits(rows[i])
    {
      NameFitsIff(rows[i]);
      if FiniteMetric(rows[i]) {
        ProjectionMeetsChecks(e, rows[i]);
      }
    }
    if BackfillRuns(rows) {
      SelfChecksHold(e, rows);
    }
    hide SelfChecksPass, LegacyOk, UniqueIds;
  }

  lemma SelfChecksHold(e: Env, rows: seq<Legacy>)
    requires UniqueIds(rows) && forall i | 0 <= i < |rows| :: FiniteMetric(rows[i])
    ensures SelfChecksPass(rows, Backfilled(e, rows))
  {
    hide Project, FiniteMetric, UniqueIds;
    KindsAreConserved(e, rows);
    LatencyIsConserved(e, rows, rows);
  }

  /** One metric with a plain name of 124 to 128 characters decides the migration by its last ones. */
  lemma LongNameStopsTheMigration(r: Legacy)
    requires LegacyOk(r) && FiniteMetric(r) && r.kind.Metric? && |r.name| >= 1 && r.name[0] == 'x'
    ensures !BackfillRuns([r]) <==> exists i :: MAX_NAME - 5 <= i < |r.name| && r.name[i] != ' '
    ensures Stops(r) <==> !BackfillRuns([r])
  {
    assert "aiws."[0] == 'a' && "http."[0] == 'h';
    assert r.name !in {"requests", "errors", "latency_ms", "saturation"} by {
      assert "requests"[0] == 'r' && "errors"[0] == 'e' && "latency_ms"[0] == 'l' && "saturation"[0] == 's';
    }
    assert GetsPrefix(r);
    NameFitsIff(r);
    assert BackfillRuns([r]) <==> FiniteMetric([r][0]) && NameFits([r][0]);
  }

  function XName(letters: nat, blanks: nat): string {
    seq(letters, _ => 'x') + seq(blanks, _ => ' ')
  }

  function XMetric(name: string): Legacy {
    Legacy(0, "w", "o", "a", 0, None, Metric, "s", name, Some(Finite(1.0)), None, None, None, None, None,
           V1RichText.Null)
  }

  /** Such rows exist: 124 letters stop the migration; 121 letters and 5 blanks, which with the prefix are
      longer still, do not. */
  lemma LongNamesExist()
    ensures LegacyOk(XMetric(XName(124, 0))) && Stops(XMetric(XName(124, 0))) && !BackfillRuns([XMetric(XName(124, 0))])
    ensures LegacyOk(XMetric(XName(121, 5))) && BackfillRuns([XMetric(XName(121, 5))])
    ensures |ProjectName(XMetric(XName(121, 5)))| == 131
  {
    var stopped, cut := XMetric(XName(124, 0)), XMetric(XName(121, 5));
    assert stopped.name[123] == 'x';
    LongNameStopsTheMigration(stopped);
    LongNameStopsTheMigration(cut);
    assert "aiws."[0] == 'a' && "http."[0] == 'h';
    assert |cut.name| == 126;
    assert ProjectName(cut) == "aiws." + cut.name;
  }
}
