/** The page that the metrics endpoint serves: which lines it has, and that a reader gets every sample of it back. */
module MetricsPage {
  import opened Exposition
  import opened ExpositionReader
  import opened Metrics
  import opened Sequences
  import opened Text
  import opened Wrappers
  import Decimal

  const VERSION := "0.2.1"

  type OneLine = s: string | Free('\n', s)

  /** The wording of the HELP line of each metric. */
  type Help = string -> OneLine

  datatype HttpMetricKey = HttpMetricKey(httpMethod: string, route: string, status: nat)

  datatype CacheMetrics = CacheMetrics(
    hits: nat, successes: nat, failures: nat, lastSuccess: Option<nat>, lastSuccessAge: Option<nat>)

  /** A successful evaluation, by its seconds since the epoch and its age, where the clock can tell them. */
  datatype LastSuccess = LastSuccess(sinceEpoch: Option<nat>, age: Option<nat>)

  datatype PolicyMetrics = PolicyMetrics(
    success: nat, same: nat, failure: nat, activeKeys: nat, activePrefixes: nat, lastSuccess: Option<LastSuccess>)
  {
    predicate Shown() {
      success + same + failure > 0 || lastSuccess.Some?
    }

    function SinceEpoch(): Option<nat> {
      if lastSuccess.None? then None else lastSuccess.value.sinceEpoch
    }

    function Age(): Option<nat> {
      if lastSuccess.None? then None else lastSuccess.value.age
    }
  }

  /** The maps are given by their entries in key order. */
  datatype Snapshot = Snapshot(
    http: seq<(HttpMetricKey, Histogram)>, resolve: seq<(ResolveMetricKey, Histogram)>, policy: PolicyMetrics)

  /** What one rendering sees; no snapshot when the registry lock is poisoned. */
  datatype View = View(
    startTime: nat, uptime: nat, ready: bool, cache: Option<CacheMetrics>, snapshot: Option<Snapshot>)

  // ---- The lines ----

  function Family(help: Help, name: string, kind: string): seq<Line> {
    [Comment("HELP " + name + " " + help(name)), Comment("TYPE " + name + " " + kind)]
  }

  function HttpLabels(key: HttpMetricKey): seq<Label> {
    [Label("method", key.httpMethod), Label("route", key.route), Label("status", Decimal.Print(key.status))]
  }

  function ResolveLabels(key: ResolveMetricKey): seq<Label> {
    [Label("outcome", key.outcome), Label("error_kind", key.errorKind), Label("status", Decimal.Print(key.status))]
  }

  function CountLine<K>(name: string, labels: K -> seq<Label>): ((K, Histogram)) -> seq<Line> {
    (entry: (K, Histogram)) => [Labeled(Sample(name, labels(entry.0), Decimal.Print(entry.1.count)))]
  }

  function HistogramLines<K>(name: string, labels: K -> seq<Label>): ((K, Histogram)) -> seq<Line> {
    (entry: (K, Histogram)) => LabeledLines(HistogramSamples(name, labels(entry.0), entry.1))
  }

  function CountFamily<K>(help: Help, name: string, labels: K -> seq<Label>, entries: seq<(K, Histogram)>): seq<Line> {
    Family(help, name, "counter") + FlatMap(CountLine(name, labels), entries)
  }

  function HistogramFamily<K>(help: Help, name: string, labels: K -> seq<Label>, entries: seq<(K, Histogram)>): seq<Line> {
    Family(help, name, "histogram") + FlatMap(HistogramLines(name, labels), entries)
  }

  function HttpLines(help: Help, entries: seq<(HttpMetricKey, Histogram)>): seq<Line> {
    CountFamily(help, "bweso_http_requests_total", HttpLabels, entries)
    + HistogramFamily(help, "bweso_http_request_duration_seconds", HttpLabels, entries)
  }

  function ResolveLines(help: Help, entries: seq<(ResolveMetricKey, Histogram)>): seq<Line> {
    CountFamily(help, "bweso_resolve_requests_total", ResolveLabels, entries)
    + HistogramFamily(help, "bweso_resolve_duration_seconds", ResolveLabels, entries)
  }

  function PlainFamily(help: Help, name: string, kind: string, value: string): seq<Line> {
    Family(help, name, kind) + [Plain(name, value)]
  }

  function OutcomeLine(name: string): ((string, nat)) -> seq<Line> {
    (count: (string, nat)) => [Labeled(Sample(name, [Label("outcome", count.0)], Decimal.Print(count.1)))]
  }

  function OutcomeFamily(help: Help, name: string, counts: seq<(string, nat)>): seq<Line> {
    Family(help, name, "counter") + FlatMap(OutcomeLine(name), counts)
  }

  /** A gauge that is not known is left out. */
  function GaugeLines(help: Help): ((string, Option<nat>)) -> seq<Line> {
    (gauge: (string, Option<nat>)) =>
      if gauge.1.None? then [] else PlainFamily(help, gauge.0, "gauge", Decimal.Print(gauge.1.value))
  }

  function RefreshCounts(m: CacheMetrics): seq<(string, nat)> {
    [("success", m.successes), ("failure", m.failures)]
  }

  function CacheGauges(m: CacheMetrics): seq<(string, Option<nat>)> {
    [("bweso_cache_last_success_timestamp_seconds", m.lastSuccess),
     ("bweso_cache_last_success_age_seconds", m.lastSuccessAge)]
  }

  function CacheLines(help: Help, m: CacheMetrics): seq<Line> {
    PlainFamily(help, "bweso_cache_hits_total", "counter", Decimal.Print(m.hits))
    + (OutcomeFamily(help, "bweso_cache_refreshes_total", RefreshCounts(m)) + FlatMap(GaugeLines(help), CacheGauges(m)))
  }

  function ReloadCounts(m: PolicyMetrics): seq<(string, nat)> {
    [("success", m.success), ("unchanged", m.same), ("failure", m.failure)]
  }

  function PolicyGauges(m: PolicyMetrics): seq<(string, Option<nat>)> {
    [("bweso_policy_active_allowed_keys", Some(m.activeKeys)),
     ("bweso_policy_active_allowed_key_prefixes", Some(m.activePrefixes)),
     ("bweso_policy_last_reload_success_timestamp_seconds", m.SinceEpoch()),
     ("bweso_policy_last_reload_success_age_seconds", m.Age())]
  }

  /** Nothing until a file-backed policy has been evaluated. */
  function PolicyLines(help: Help, m: PolicyMetrics): seq<Line> {
    if !m.Shown() then [] else
      OutcomeFamily(help, "bweso_policy_reloads_total", ReloadCounts(m)) + FlatMap(GaugeLines(help), PolicyGauges(m))
  }

  function BuildLines(help: Help): seq<Line> {
    Family(help, "bweso_build_info", "gauge")
    + [Labeled(Sample("bweso_build_info", [Label("version", VERSION)], "1"))]
  }

  function ClockLines(help: Help, v: View): seq<Line> {
    PlainFamily(help, "bweso_process_start_time_seconds", "gauge", Decimal.Print(v.startTime))
    + (PlainFamily(help, "bweso_uptime_seconds", "gauge", SecondsText(v.uptime))
       + PlainFamily(help, "bweso_ready", "gauge", Decimal.Print(if v.ready then 1 else 0)))
  }

  function ProcessLines(help: Help, v: View): seq<Line> {
    BuildLines(help) + ClockLines(help, v)
  }

  function RequestLines(help: Help, s: Snapshot): seq<Line> {
    HttpLines(help, s.http) + ResolveLines(help, s.resolve)
  }

  function StateLines(help: Help, cache: Option<CacheMetrics>, policy: PolicyMetrics): seq<Line> {
    if cache.None? then PolicyLines(help, policy) else CacheLines(help, cache.value) + PolicyLines(help, policy)
  }

  function PageLines(help: Help, v: View): seq<Line> {
    if v.snapshot.None? then ProcessLines(help, v)
    else
      var s := v.snapshot.value;
      ProcessLines(help, v) + (RequestLines(help, s) + StateLines(help, v.cache, s.policy))
  }

  // ---- Printing the page ----

  class PageText {
    const out: MetricText
    ghost var lines: seq<Line>

    ghost predicate Valid()
      reads this, out
    {
      out.text == RenderDocument(lines)
    }

    constructor ()
      ensures Valid() && fresh(out) && lines == []
    {
      out := new MetricText();
      lines := [];
    }

    /** `append_line` for a comment or an unlabelled sample. */
    method AppendLine(line: Line)
      requires Valid() && !line.Labeled?
      modifies this, out
      ensures Valid() && lines == old(lines) + [line]
    {
      FlatMapSnoc(RenderEnded, lines, line);
      match line {
        case Comment(text) => out.text := out.text + ("# " + text + "\n");
        case Plain(name, value) => out.text := out.text + (name + " " + value + "\n");
      }
      lines := lines + [line];
    }

    method AppendSample(s: Sample)
      requires Valid()
      modifies this, out
      ensures Valid() && lines == old(lines) + [Labeled(s)]
    {
      FlatMapSnoc(RenderEnded, lines, Labeled(s));
      out.AppendLabeledMetric(s.name, s.labels, s.value);
      lines := lines + [Labeled(s)];
    }

    method AppendHistogram(name: string, labels: seq<Label>, h: Histogram)
      requires Valid()
      modifies this, out
      ensures Valid() && lines == old(lines) + LabeledLines(HistogramSamples(name, labels, h))
    {
      ghost var more := LabeledLines(HistogramSamples(name, labels, h));
      FlatMapAppend(RenderEnded, lines, more);
      SamplesAreLines(HistogramSamples(name, labels, h));
      out.AppendHistogram(name, labels, h);
      lines := lines + more;
    }

    method AppendFamily(help: Help, name: string, kind: string)
      requires Valid()
      modifies this, out
      ensures Valid() && lines == old(lines) + Family(help, name, kind)
    {
      AppendLine(Comment("HELP " + name + " " + help(name)));
      AppendLine(Comment("TYPE " + name + " " + kind));
    }

    method AppendCounts<K>(name: string, labels: K -> seq<Label>, entries: seq<(K, Histogram)>)
      requires Valid()
      modifies this, out
      ensures Valid() && lines == old(lines) + FlatMap(CountLine(name, labels), entries)
    {
      for i := 0 to |entries|
        invariant Valid() && lines == old(lines) + FlatMap(CountLine(name, labels), entries[..i])
      {
        FlatMapSplit(CountLine(name, labels), entries, i);
        Associative(old(lines), FlatMap(CountLine(name, labels), entries[..i]), CountLine(name, labels)(entries[i]));
        AppendSample(Sample(name, labels(entries[i].0), Decimal.Print(entries[i].1.count)));
      }
      assert entries[..|entries|] == entries;
    }

    method AppendHistograms<K>(name: string, labels: K -> seq<Label>, entries: seq<(K, Histogram)>)
      requires Valid()
      modifies this, out
      ensures Valid() && lines == old(lines) + FlatMap(HistogramLines(name, labels), entries)
    {
      for i := 0 to |entries|
        invariant Valid() && lines == old(lines) + FlatMap(HistogramLines(name, labels), entries[..i])
      {
        FlatMapSplit(HistogramLines(name, labels), entries, i);
        Associative(old(lines), FlatMap(HistogramLines(name, labels), entries[..i]), HistogramLines(name, labels)(entries[i]));
        AppendHistogram(name, labels(entries[i].0), entries[i].1);
      }
      assert entries[..|entries|] == entries;
    }

    method AppendCountFamily<K>(help: Help, name: string, labels: K -> seq<Label>, entries: seq<(K, Histogram)>)
      requires Valid()
      modifies this, out
      ensures Valid() && lines == old(lines) + CountFamily(help, name, labels, entries)
    {
      Associative(lines, Family(help, name, "counter"), FlatMap(CountLine(name, labels), entries));
      AppendFamily(help, name, "counter");
      AppendCounts(name, labels, entries);
    }

    method AppendHistogramFamily<K>(help: Help, name: string, labels: K -> seq<Label>, entries: seq<(K, Histogram)>)
      requires Valid()
      modifies this, out
      ensures Valid() && lines == old(lines) + HistogramFamily(help, name, labels, entries)
    {
      Associative(lines, Family(help, name, "histogram"), FlatMap(HistogramLines(name, labels), entries));
      AppendFamily(help, name, "histogram");
      AppendHistograms(name, labels, entries);
    }

    method RenderHttpMetrics(help: Help, entries: seq<(HttpMetricKey, Histogram)>)
      requires Valid()
      modifies this, out
      ensures Valid() && lines == old(lines) + HttpLines(help, entries)
    {
      Associative(lines, CountFamily(help, "bweso_http_requests_total", HttpLabels, entries),
                  HistogramFamily(help, "bweso_http_request_duration_seconds", HttpLabels, entries));
      AppendCountFamily(help, "bweso_http_requests_total", HttpLabels, entries);
      AppendHistogramFamily(help, "bweso_http_request_duration_seconds", HttpLabels, entries);
    }

    method RenderResolveMetrics(help: Help, entries: seq<(ResolveMetricKey, Histogram)>)
      requires Valid()
      modifies this, out
      ensures Valid() && lines == old(lines) + ResolveLines(help, entries)
    {
      Associative(lines, CountFamily(help, "bweso_resolve_requests_total", ResolveLabels, entries),
                  HistogramFamily(help, "bweso_resolve_duration_seconds", ResolveLabels, entries));
      AppendCountFamily(help, "bweso_resolve_requests_total", ResolveLabels, entries);
      AppendHistogramFamily(help, "bweso_resolve_duration_seconds", ResolveLabels, entries);
    }

    method AppendPlainFamily(help: Help, name: string, kind: string, value: string)
      requires Valid()
      modifies this, out
      ensures Valid() && lines == old(lines) + PlainFamily(help, name, kind, value)
    {
      AppendFamily(help, name, kind);
      AppendLine(Plain(name, value));
    }

    /** One counter by outcome. */
    method AppendOutcomes(help: Help, name: string, counts: seq<(string, nat)>)
      requires Valid()
      modifies this, out
      ensures Valid() && lines == old(lines) + OutcomeFamily(help, name, counts)
    {
      Associative(lines, Family(help, name, "counter"), FlatMap(OutcomeLine(name), counts));
      AppendFamily(help, name, "counter");
      AppendOutcomeLines(name, counts);
    }

    method AppendOutcomeLines(name: string, counts: seq<(string, nat)>)
      requires Valid()
      modifies this, out
      ensures Valid() && lines == old(lines) + FlatMap(OutcomeLine(name), counts)
    {
      for i := 0 to |counts|
        invariant Valid() && lines == old(lines) + FlatMap(OutcomeLine(name), counts[..i])
      {
        FlatMapSplit(OutcomeLine(name), counts, i);
        Associative(old(lines), FlatMap(OutcomeLine(name), counts[..i]), OutcomeLine(name)(counts[i]));
        AppendSample(Sample(name, [Label("outcome", counts[i].0)], Decimal.Print(counts[i].1)));
      }
      assert counts[..|counts|] == counts;
    }

    method AppendGauges(help: Help, gauges: seq<(string, Option<nat>)>)
      requires Valid()
      modifies this, out
      ensures Valid() && lines == old(lines) + FlatMap(GaugeLines(help), gauges)
    {
      for i := 0 to |gauges|
        invariant Valid() && lines == old(lines) + FlatMap(GaugeLines(help), gauges[..i])
      {
        FlatMapSplit(GaugeLines(help), gauges, i);
        Associative(old(lines), FlatMap(GaugeLines(help), gauges[..i]), GaugeLines(help)(gauges[i]));
        if gauges[i].1.Some? {
          AppendPlainFamily(help, gauges[i].0, "gauge", Decimal.Print(gauges[i].1.value));
        }
      }
      assert gauges[..|gauges|] == gauges;
    }

    method RenderCacheMetrics(help: Help, m: CacheMetrics)
      requires Valid()
      modifies this, out
      ensures Valid() && lines == old(lines) + CacheLines(help, m)
    {
      ghost var hits := PlainFamily(help, "bweso_cache_hits_total", "counter", Decimal.Print(m.hits));
      ghost var refreshes := OutcomeFamily(help, "bweso_cache_refreshes_total", RefreshCounts(m));
      Associative(lines, hits, refreshes + FlatMap(GaugeLines(help), CacheGauges(m)));
      Associative(lines + hits, refreshes, FlatMap(GaugeLines(help), CacheGauges(m)));
      AppendPlainFamily(help, "bweso_cache_hits_total", "counter", Decimal.Print(m.hits));
      AppendOutcomes(help, "bweso_cache_refreshes_total", RefreshCounts(m));
      AppendGauges(help, CacheGauges(m));
    }

    method RenderPolicyMetrics(help: Help, m: PolicyMetrics)
      requires Valid()
      modifies this, out
      ensures Valid() && lines == old(lines) + PolicyLines(help, m)
    {
      if !m.Shown() {
        return;
      }
      Associative(lines, OutcomeFamily(help, "bweso_policy_reloads_total", ReloadCounts(m)),
                  FlatMap(GaugeLines(help), PolicyGauges(m)));
      AppendOutcomes(help, "bweso_policy_reloads_total", ReloadCounts(m));
      AppendGauges(help, PolicyGauges(m));
    }

    method AppendBuildInfo(help: Help)
      requires Valid()
      modifies this, out
      ensures Valid() && lines == old(lines) + BuildLines(help)
    {
      AppendFamily(help, "bweso_build_info", "gauge");
      AppendSample(Sample("bweso_build_info", [Label("version", VERSION)], "1"));
    }

    method RenderProcessMetrics(help: Help, v: View)
      requires Valid()
      modifies this, out
      ensures Valid() && lines == old(lines) + ProcessLines(help, v)
    {
      ghost var started := PlainFamily(help, "bweso_process_start_time_seconds", "gauge", Decimal.Print(v.startTime));
      ghost var up := PlainFamily(help, "bweso_uptime_seconds", "gauge", SecondsText(v.uptime));
      ghost var ready := PlainFamily(help, "bweso_ready", "gauge", Decimal.Print(if v.ready then 1 else 0));
      Associative(lines, BuildLines(help), ClockLines(help, v));
      Associative(lines + BuildLines(help), started, up + ready);
      Associative(lines + BuildLines(help) + started, up, ready);
      AppendBuildInfo(help);
      AppendPlainFamily(help, "bweso_process_start_time_seconds", "gauge", Decimal.Print(v.startTime));
      AppendPlainFamily(help, "bweso_uptime_seconds", "gauge", SecondsText(v.uptime));
      AppendPlainFamily(help, "bweso_ready", "gauge", Decimal.Print(if v.ready then 1 else 0));
    }

    method RenderRequestMetrics(help: Help, s: Snapshot)
      requires Valid()
      modifies this, out
      ensures Valid() && lines == old(lines) + RequestLines(help, s)
    {
      Associative(lines, HttpLines(help, s.http), ResolveLines(help, s.resolve));
      RenderHttpMetrics(help, s.http);
      RenderResolveMetrics(help, s.resolve);
    }

    method RenderStateMetrics(help: Help, cache: Option<CacheMetrics>, policy: PolicyMetrics)
      requires Valid()
      modifies this, out
      ensures Valid() && lines == old(lines) + StateLines(help, cache, policy)
    {
      if cache.Some? {
        Associative(lines, CacheLines(help, cache.value), PolicyLines(help, policy));
        RenderCacheMetrics(help, cache.value);
        RenderPolicyMetrics(help, policy);
      } else {
        RenderPolicyMetrics(help, policy);
      }
    }

    method Render(help: Help, v: View)
      requires Valid()
      modifies this, out
      ensures Valid() && lines == old(lines) + PageLines(help, v)
    {
      if v.snapshot.None? {
        RenderProcessMetrics(help, v);
        return;
      }
      var s := v.snapshot.value;
      ghost var (process, requests) := (ProcessLines(help, v), RequestLines(help, s));
      Associative(lines, process, requests + StateLines(help, v.cache, s.policy));
      Associative(lines + process, requests, StateLines(help, v.cache, s.policy));
      RenderProcessMetrics(help, v);
      RenderRequestMetrics(help, s);
      RenderStateMetrics(help, v.cache, s.policy);
    }
  }

  // ---- Reading the page ----

  predicate AllWellFormed(lines: seq<Line>) {
    forall i :: 0 <= i < |lines| ==> WellFormed(lines[i])
  }

  lemma {:induction false} AllWellFormedFlat<A(!new)>(f: A -> seq<Line>, xs: seq<A>)
    requires forall x :: AllWellFormed(f(x))
    ensures AllWellFormed(FlatMap(f, xs))
  {
    if xs != [] {
      AllWellFormedFlat(f, xs[1..]);
    }
  }

  lemma NameHasNoNewline(name: string)
    requires ValidMetricName(name)
    ensures Free('\n', name)
  {
  }

  lemma FamilyIsWellFormed(help: Help, name: string, kind: string)
    requires ValidMetricName(name) && Free('\n', kind)
    ensures AllWellFormed(Family(help, name, kind))
  {
    NameHasNoNewline(name);
    var text: string := help(name);
    assert Free('\n', "HELP " + name + " " + text);
    assert Free('\n', "TYPE " + name + " " + kind);
  }

  lemma PlainFamilyIsWellFormed(help: Help, name: string, kind: string, value: string)
    requires ValidMetricName(name) && Free('\n', kind)
    requires value != "" && forall i :: 0 <= i < |value| ==> Decimal.IsDigit(value[i]) || value[i] == '.'
    ensures AllWellFormed(PlainFamily(help, name, kind, value))
  {
    FamilyIsWellFormed(help, name, kind);
    NumberIsToken(value);
    assert WellFormed(Plain(name, value));
  }

  lemma {:induction false} GaugesAreWellFormed(help: Help, gauges: seq<(string, Option<nat>)>)
    requires forall i :: 0 <= i < |gauges| ==> ValidMetricName(gauges[i].0)
    ensures AllWellFormed(FlatMap(GaugeLines(help), gauges))
  {
    if gauges != [] {
      if gauges[0].1.Some? {
        assert Free('\n', "gauge");
        PlainFamilyIsWellFormed(help, gauges[0].0, "gauge", Decimal.Print(gauges[0].1.value));
      }
      GaugesAreWellFormed(help, gauges[1..]);
    }
  }

  lemma OutcomesAreWellFormed(help: Help, name: string, counts: seq<(string, nat)>)
    requires ValidMetricName(name)
    ensures AllWellFormed(OutcomeFamily(help, name, counts))
  {
    FamilyIsWellFormed(help, name, "counter");
    forall count: (string, nat)
      ensures AllWellFormed(OutcomeLine(name)(count))
    {
      NumberIsToken(Decimal.Print(count.1));
    }
    AllWellFormedFlat(OutcomeLine(name), counts);
  }

  lemma CountsAreWellFormed<K(!new)>(help: Help, name: string, labels: K -> seq<Label>, entries: seq<(K, Histogram)>)
    requires ValidMetricName(name) && forall key :: ValidLabels(labels(key))
    ensures AllWellFormed(CountFamily(help, name, labels, entries))
  {
    FamilyIsWellFormed(help, name, "counter");
    forall entry: (K, Histogram)
      ensures AllWellFormed(CountLine(name, labels)(entry))
    {
      NumberIsToken(Decimal.Print(entry.1.count));
    }
    AllWellFormedFlat(CountLine(name, labels), entries);
  }

  lemma HistogramsAreWellFormed<K(!new)>(help: Help, name: string, labels: K -> seq<Label>, entries: seq<(K, Histogram)>)
    requires ValidMetricName(name) && forall key :: ValidLabels(labels(key))
    ensures AllWellFormed(HistogramFamily(help, name, labels, entries))
  {
    FamilyIsWellFormed(help, name, "histogram");
    forall entry: (K, Histogram)
      ensures AllWellFormed(HistogramLines(name, labels)(entry))
    {
      var samples := HistogramSamples(name, labels(entry.0), entry.1);
      forall i | 0 <= i < |samples|
        ensures WellFormed(Labeled(samples[i]))
      {
        HistogramIsWellFormed(name, labels(entry.0), entry.1, i);
      }
    }
    AllWellFormedFlat(HistogramLines(name, labels), entries);
  }

  lemma LongName(front: string, back: string, name: string)
    requires ValidMetricName(front) && AllOf(back, IsNameChar) && name == front + back
    ensures ValidMetricName(name)
  {
    NameWithSuffix(front, back);
  }

  lemma PolicyFront()
    ensures ValidMetricName("bweso_policy_last_reload_")
  {
  }

  lemma CacheFront()
    ensures ValidMetricName("bweso_cache_last_success_")
  {
  }

  lemma ActiveFront()
    ensures ValidMetricName("bweso_policy_active_")
  {
  }

  lemma SuccessTimestamp()
    ensures AllOf("success_timestamp_seconds", IsNameChar)
  {
  }

  lemma SuccessAge()
    ensures AllOf("success_age_seconds", IsNameChar)
  {
  }

  lemma Timestamp()
    ensures AllOf("timestamp_seconds", IsNameChar)
  {
  }

  lemma Age()
    ensures AllOf("age_seconds", IsNameChar)
  {
  }

  lemma KeyPrefixes()
    ensures AllOf("allowed_key_prefixes", IsNameChar)
  {
  }

  lemma HttpTotalName()
    ensures ValidMetricName("bweso_http_requests_total")
  {
  }

  lemma HttpDurationName()
    ensures ValidMetricName("bweso_http_request_duration_seconds")
  {
  }

  lemma ResolveTotalName()
    ensures ValidMetricName("bweso_resolve_requests_total")
  {
  }

  lemma ResolveDurationName()
    ensures ValidMetricName("bweso_resolve_duration_seconds")
  {
  }

  lemma CacheNames()
    ensures ValidMetricName("bweso_cache_hits_total")
    ensures ValidMetricName("bweso_cache_refreshes_total")
  {
  }

  lemma CacheTimestampName()
    ensures ValidMetricName("bweso_cache_last_success_timestamp_seconds")
  {
    CacheFront();
    Timestamp();
    LongName("bweso_cache_last_success_", "timestamp_seconds", "bweso_cache_last_success_timestamp_seconds");
  }

  lemma CacheAgeName()
    ensures ValidMetricName("bweso_cache_last_success_age_seconds")
  {
    CacheFront();
    Age();
    LongName("bweso_cache_last_success_", "age_seconds", "bweso_cache_last_success_age_seconds");
  }

  lemma PolicyKeysName()
    ensures ValidMetricName("bweso_policy_active_allowed_keys")
  {
  }

  lemma PolicyPrefixesName()
    ensures ValidMetricName("bweso_policy_active_allowed_key_prefixes")
  {
    ActiveFront();
    KeyPrefixes();
    LongName("bweso_policy_active_", "allowed_key_prefixes", "bweso_policy_active_allowed_key_prefixes");
  }

  lemma PolicyTimestampName()
    ensures ValidMetricName("bweso_policy_last_reload_success_timestamp_seconds")
  {
    PolicyFront();
    SuccessTimestamp();
    LongName("bweso_policy_last_reload_", "success_timestamp_seconds", "bweso_policy_last_reload_success_timestamp_seconds");
  }

  lemma PolicyAgeName()
    ensures ValidMetricName("bweso_policy_last_reload_success_age_seconds")
  {
    PolicyFront();
    SuccessAge();
    LongName("bweso_policy_last_reload_", "success_age_seconds", "bweso_policy_last_reload_success_age_seconds");
  }

  lemma ProcessNames()
    ensures ValidMetricName("bweso_uptime_seconds")
    ensures ValidMetricName("bweso_ready")
  {
  }

  lemma StartTimeName()
    ensures ValidMetricName("bweso_process_start_time_seconds")
  {
  }

  lemma HttpLabelNames()
    ensures forall key :: ValidLabels(HttpLabels(key))
  {
    assert ValidLabelName("method") && ValidLabelName("route") && ValidLabelName("status");
  }

  lemma ResolveLabelNames()
    ensures forall key :: ValidLabels(ResolveLabels(key))
  {
    assert ValidLabelName("outcome") && ValidLabelName("error_kind") && ValidLabelName("status");
  }

  lemma HttpIsWellFormed(help: Help, entries: seq<(HttpMetricKey, Histogram)>)
    ensures AllWellFormed(HttpLines(help, entries))
  {
    HttpTotalName();
    HttpDurationName();
    HttpLabelNames();
    CountsAreWellFormed(help, "bweso_http_requests_total", HttpLabels, entries);
    HistogramsAreWellFormed(help, "bweso_http_request_duration_seconds", HttpLabels, entries);
  }

  lemma ResolveIsWellFormed(help: Help, entries: seq<(ResolveMetricKey, Histogram)>)
    ensures AllWellFormed(ResolveLines(help, entries))
  {
    ResolveTotalName();
    ResolveDurationName();
    ResolveLabelNames();
    CountsAreWellFormed(help, "bweso_resolve_requests_total", ResolveLabels, entries);
    HistogramsAreWellFormed(help, "bweso_resolve_duration_seconds", ResolveLabels, entries);
  }

  lemma CacheIsWellFormed(help: Help, m: CacheMetrics)
    ensures AllWellFormed(CacheLines(help, m))
  {
    CacheNames();
    CacheTimestampName();
    CacheAgeName();
    PlainFamilyIsWellFormed(help, "bweso_cache_hits_total", "counter", Decimal.Print(m.hits));
    OutcomesAreWellFormed(help, "bweso_cache_refreshes_total", RefreshCounts(m));
    GaugesAreWellFormed(help, CacheGauges(m));
  }

  lemma PolicyGaugesAreNamed(m: PolicyMetrics)
    ensures forall i :: 0 <= i < |PolicyGauges(m)| ==> ValidMetricName(PolicyGauges(m)[i].0)
  {
    PolicyKeysName();
    PolicyPrefixesName();
    PolicyTimestampName();
    PolicyAgeName();
  }

  lemma PolicyIsWellFormed(help: Help, m: PolicyMetrics)
    ensures AllWellFormed(PolicyLines(help, m))
  {
    assert ValidMetricName("bweso_policy_reloads_total");
    OutcomesAreWellFormed(help, "bweso_policy_reloads_total", ReloadCounts(m));
    PolicyGaugesAreNamed(m);
    GaugesAreWellFormed(help, PolicyGauges(m));
  }

  lemma BuildIsWellFormed(help: Help)
    ensures AllWellFormed(BuildLines(help))
  {
    assert ValidMetricName("bweso_build_info") && ValidLabelName("version");
    FamilyIsWellFormed(help, "bweso_build_info", "gauge");
    NumberIsToken("1");
  }

  lemma ProcessIsWellFormed(help: Help, v: View)
    ensures AllWellFormed(ProcessLines(help, v))
  {
    BuildIsWellFormed(help);
    ProcessNames();
    StartTimeName();
    PlainFamilyIsWellFormed(help, "bweso_process_start_time_seconds", "gauge", Decimal.Print(v.startTime));
    PlainFamilyIsWellFormed(help, "bweso_uptime_seconds", "gauge", SecondsText(v.uptime));
    PlainFamilyIsWellFormed(help, "bweso_ready", "gauge", Decimal.Print(if v.ready then 1 else 0));
  }

  lemma StateIsWellFormed(help: Help, cache: Option<CacheMetrics>, policy: PolicyMetrics)
    ensures AllWellFormed(StateLines(help, cache, policy))
  {
    PolicyIsWellFormed(help, policy);
    if cache.Some? {
      CacheIsWellFormed(help, cache.value);
      WellFormedAppend(CacheLines(help, cache.value), PolicyLines(help, policy));
    }
  }

  lemma WellFormedAppend(a: seq<Line>, b: seq<Line>)
    requires AllWellFormed(a) && AllWellFormed(b)
    ensures AllWellFormed(a + b)
  {
  }

  lemma PageIsWellFormed(help: Help, v: View)
    ensures AllWellFormed(PageLines(help, v))
  {
    ProcessIsWellFormed(help, v);
    if v.snapshot.Some? {
      var s := v.snapshot.value;
      HttpIsWellFormed(help, s.http);
      ResolveIsWellFormed(help, s.resolve);
      StateIsWellFormed(help, v.cache, s.policy);
      WellFormedAppend(HttpLines(help, s.http), ResolveLines(help, s.resolve));
      WellFormedAppend(RequestLines(help, s), StateLines(help, v.cache, s.policy));
      WellFormedAppend(ProcessLines(help, v), RequestLines(help, s) + StateLines(help, v.cache, s.policy));
    }
  }

  /** Reading the whole page gives back exactly the samples on it, in order, whatever the labels of the requests are. */
  lemma PageReadsBack(help: Help, v: View)
    ensures ParseText(RenderDocument(PageLines(help, v))) == Some(FlatMap(SamplesOf, PageLines(help, v)))
  {
    PageIsWellFormed(help, v);
    DocumentRoundTrip(PageLines(help, v));
  }

  // ---- What the page shows ----

  /** A counter or gauge without labels. */
  function Number(name: string, value: nat): seq<Sample> {
    [Sample(name, [], Decimal.Print(value))]
  }

  /** Left out when not known. */
  function Known(name: string, value: Option<nat>): seq<Sample> {
    if value.None? then [] else Number(name, value.value)
  }

  function ByOutcome(name: string, outcome: string, value: nat): seq<Sample> {
    [Sample(name, [Label("outcome", outcome)], Decimal.Print(value))]
  }

  function ProcessSamples(v: View): seq<Sample> {
    [Sample("bweso_build_info", [Label("version", "0.2.1")], "1")]
    + (Number("bweso_process_start_time_seconds", v.startTime)
       + ([Sample("bweso_uptime_seconds", [], SecondsText(v.uptime))] + Number("bweso_ready", if v.ready then 1 else 0)))
  }

  function HttpCount(): ((HttpMetricKey, Histogram)) -> seq<Sample> {
    (e: (HttpMetricKey, Histogram)) => [Sample(
      "bweso_http_requests_total",
      [Label("method", e.0.httpMethod), Label("route", e.0.route), Label("status", Decimal.Print(e.0.status))],
      Decimal.Print(e.1.count))]
  }

  function HttpDuration(): ((HttpMetricKey, Histogram)) -> seq<Sample> {
    (e: (HttpMetricKey, Histogram)) => HistogramSamples(
      "bweso_http_request_duration_seconds",
      [Label("method", e.0.httpMethod), Label("route", e.0.route), Label("status", Decimal.Print(e.0.status))], e.1)
  }

  function ResolveCount(): ((ResolveMetricKey, Histogram)) -> seq<Sample> {
    (e: (ResolveMetricKey, Histogram)) => [Sample(
      "bweso_resolve_requests_total",
      [Label("outcome", e.0.outcome), Label("error_kind", e.0.errorKind), Label("status", Decimal.Print(e.0.status))],
      Decimal.Print(e.1.count))]
  }

  function ResolveDuration(): ((ResolveMetricKey, Histogram)) -> seq<Sample> {
    (e: (ResolveMetricKey, Histogram)) => HistogramSamples(
      "bweso_resolve_duration_seconds",
      [Label("outcome", e.0.outcome), Label("error_kind", e.0.errorKind), Label("status", Decimal.Print(e.0.status))], e.1)
  }

  function RequestSamples(s: Snapshot): seq<Sample> {
    (FlatMap(HttpCount(), s.http) + FlatMap(HttpDuration(), s.http))
    + (FlatMap(ResolveCount(), s.resolve) + FlatMap(ResolveDuration(), s.resolve))
  }

  function CacheSamples(m: CacheMetrics): seq<Sample> {
    Number("bweso_cache_hits_total", m.hits)
    + ((ByOutcome("bweso_cache_refreshes_total", "success", m.successes)
        + ByOutcome("bweso_cache_refreshes_total", "failure", m.failures))
       + (Known("bweso_cache_last_success_timestamp_seconds", m.lastSuccess)
          + Known("bweso_cache_last_success_age_seconds", m.lastSuccessAge)))
  }

  /** Shown once a reload was counted or an evaluation succeeded. */
  function PolicySamples(m: PolicyMetrics): seq<Sample> {
    if m.success == 0 && m.same == 0 && m.failure == 0 && m.lastSuccess.None? then [] else
      (ByOutcome("bweso_policy_reloads_total", "success", m.success)
       + (ByOutcome("bweso_policy_reloads_total", "unchanged", m.same)
          + ByOutcome("bweso_policy_reloads_total", "failure", m.failure)))
      + (Number("bweso_policy_active_allowed_keys", m.activeKeys)
         + (Number("bweso_policy_active_allowed_key_prefixes", m.activePrefixes)
            + (Known("bweso_policy_last_reload_success_timestamp_seconds",
                     if m.lastSuccess.Some? then m.lastSuccess.value.sinceEpoch else None)
               + Known("bweso_policy_last_reload_success_age_seconds",
                       if m.lastSuccess.Some? then m.lastSuccess.value.age else None))))
  }

  function StateSamples(cache: Option<CacheMetrics>, policy: PolicyMetrics): seq<Sample> {
    if cache.None? then PolicySamples(policy) else CacheSamples(cache.value) + PolicySamples(policy)
  }

  function PageSamples(v: View): seq<Sample> {
    if v.snapshot.None? then ProcessSamples(v)
    else ProcessSamples(v) + (RequestSamples(v.snapshot.value) + StateSamples(v.cache, v.snapshot.value.policy))
  }

  /** The samples on some lines. */
  function On(lines: seq<Line>): seq<Sample> {
    FlatMap(SamplesOf, lines)
  }

  lemma {:induction false} OnAppend(a: seq<Line>, b: seq<Line>)
    ensures On(a + b) == On(a) + On(b)
  {
    FlatMapAppend(SamplesOf, a, b);
  }

  lemma {:induction false} OnOne(line: Line)
    ensures On([line]) == SamplesOf(line)
  {
    FlatMapOne(SamplesOf, line);
  }

  lemma {:induction false} OnFamily(help: Help, name: string, kind: string)
    ensures On(Family(help, name, kind)) == []
  {
    FlatMapEmpty(SamplesOf, Family(help, name, kind));
  }

  lemma {:induction false} OnPlainFamily(help: Help, name: string, kind: string, value: string)
    ensures On(PlainFamily(help, name, kind, value)) == [Sample(name, [], value)]
  {
    OnFamily(help, name, kind);
    OnAppend(Family(help, name, kind), [Plain(name, value)]);
    OnOne(Plain(name, value));
  }

  lemma {:induction false} OnLabeled(samples: seq<Sample>)
    ensures On(LabeledLines(samples)) == samples
  {
    if samples != [] {
      OnLabeled(samples[1..]);
      assert LabeledLines(samples)[1..] == LabeledLines(samples[1..]);
    }
  }

  lemma {:induction false} OnCounts<K(!new)>(
    help: Help, name: string, labels: K -> seq<Label>, entries: seq<(K, Histogram)>, shown: ((K, Histogram)) -> seq<Sample>)
    requires forall e: (K, Histogram) :: shown(e) == [Sample(name, labels(e.0), Decimal.Print(e.1.count))]
    ensures On(CountFamily(help, name, labels, entries)) == FlatMap(shown, entries)
  {
    var lines := FlatMap(CountLine(name, labels), entries);
    OnFamily(help, name, "counter");
    OnAppend(Family(help, name, "counter"), lines);
    assert [] + On(lines) == On(lines);
    forall e: (K, Histogram)
      ensures shown(e) == FlatMap(SamplesOf, CountLine(name, labels)(e))
    {
      OnOne(Labeled(Sample(name, labels(e.0), Decimal.Print(e.1.count))));
    }
    FlatMapCompose(SamplesOf, CountLine(name, labels), shown, entries);
  }

  lemma {:induction false} OnHistograms<K(!new)>(
    help: Help, name: string, labels: K -> seq<Label>, entries: seq<(K, Histogram)>, shown: ((K, Histogram)) -> seq<Sample>)
    requires forall e: (K, Histogram) :: shown(e) == HistogramSamples(name, labels(e.0), e.1)
    ensures On(HistogramFamily(help, name, labels, entries)) == FlatMap(shown, entries)
  {
    var lines := FlatMap(HistogramLines(name, labels), entries);
    OnFamily(help, name, "histogram");
    OnAppend(Family(help, name, "histogram"), lines);
    assert [] + On(lines) == On(lines);
    forall e: (K, Histogram)
      ensures shown(e) == FlatMap(SamplesOf, HistogramLines(name, labels)(e))
    {
      OnLabeled(HistogramSamples(name, labels(e.0), e.1));
    }
    FlatMapCompose(SamplesOf, HistogramLines(name, labels), shown, entries);
  }

  lemma OnRequests(help: Help, s: Snapshot)
    ensures On(RequestLines(help, s)) == RequestSamples(s)
  {
    var (hc, hd) := ("bweso_http_requests_total", "bweso_http_request_duration_seconds");
    var (rc, rd) := ("bweso_resolve_requests_total", "bweso_resolve_duration_seconds");
    OnCounts(help, hc, HttpLabels, s.http, HttpCount());
    OnHistograms(help, hd, HttpLabels, s.http, HttpDuration());
    OnCounts(help, rc, ResolveLabels, s.resolve, ResolveCount());
    OnHistograms(help, rd, ResolveLabels, s.resolve, ResolveDuration());
    OnAppend(CountFamily(help, hc, HttpLabels, s.http), HistogramFamily(help, hd, HttpLabels, s.http));
    OnAppend(CountFamily(help, rc, ResolveLabels, s.resolve), HistogramFamily(help, rd, ResolveLabels, s.resolve));
    OnAppend(HttpLines(help, s.http), ResolveLines(help, s.resolve));
  }

  lemma {:induction false} OnGauge(help: Help, name: string, value: Option<nat>, rest: seq<(string, Option<nat>)>)
    ensures On(FlatMap(GaugeLines(help), [(name, value)] + rest)) == Known(name, value) + On(FlatMap(GaugeLines(help), rest))
  {
    var first := GaugeLines(help)((name, value));
    FlatMapAppend(GaugeLines(help), [(name, value)], rest);
    FlatMapOne(GaugeLines(help), (name, value));
    OnAppend(first, FlatMap(GaugeLines(help), rest));
    if value.Some? {
      OnPlainFamily(help, name, "gauge", Decimal.Print(value.value));
    }
  }

  lemma {:induction false} OnPair(help: Help, first: (string, Option<nat>), second: (string, Option<nat>))
    ensures On(FlatMap(GaugeLines(help), [first, second])) == Known(first.0, first.1) + Known(second.0, second.1)
  {
    OnGauge(help, first.0, first.1, [second]);
    OnGauge(help, second.0, second.1, []);
    assert [first, second] == [first] + [second] && [second] == [second] + [];
  }

  lemma {:induction false} OnOutcome(name: string, outcome: string, value: nat, rest: seq<(string, nat)>)
    ensures On(FlatMap(OutcomeLine(name), [(outcome, value)] + rest))
         == ByOutcome(name, outcome, value) + On(FlatMap(OutcomeLine(name), rest))
  {
    FlatMapAppend(OutcomeLine(name), [(outcome, value)], rest);
    FlatMapOne(OutcomeLine(name), (outcome, value));
    OnAppend(OutcomeLine(name)((outcome, value)), FlatMap(OutcomeLine(name), rest));
    OnOne(Labeled(Sample(name, [Label("outcome", outcome)], Decimal.Print(value))));
  }

  lemma {:induction false} OnOutcomeFamily(help: Help, name: string, counts: seq<(string, nat)>)
    ensures On(OutcomeFamily(help, name, counts)) == On(FlatMap(OutcomeLine(name), counts))
  {
    OnFamily(help, name, "counter");
    OnAppend(Family(help, name, "counter"), FlatMap(OutcomeLine(name), counts));
  }

  lemma OnRefreshCounts(m: CacheMetrics)
    ensures On(FlatMap(OutcomeLine("bweso_cache_refreshes_total"), RefreshCounts(m)))
         == ByOutcome("bweso_cache_refreshes_total", "success", m.successes)
            + ByOutcome("bweso_cache_refreshes_total", "failure", m.failures)
  {
    var name := "bweso_cache_refreshes_total";
    OnOutcome(name, "success", m.successes, [("failure", m.failures)]);
    OnOutcome(name, "failure", m.failures, []);
    assert RefreshCounts(m) == [("success", m.successes)] + [("failure", m.failures)];
    assert [("failure", m.failures)] == [("failure", m.failures)] + [];
  }

  lemma {:induction false} OnCacheGauges(help: Help, m: CacheMetrics)
    ensures On(FlatMap(GaugeLines(help), CacheGauges(m)))
         == Known("bweso_cache_last_success_timestamp_seconds", m.lastSuccess)
            + Known("bweso_cache_last_success_age_seconds", m.lastSuccessAge)
  {
    OnPair(
      help, ("bweso_cache_last_success_timestamp_seconds", m.lastSuccess),
      ("bweso_cache_last_success_age_seconds", m.lastSuccessAge));
  }

  lemma OnCache(help: Help, m: CacheMetrics)
    ensures On(CacheLines(help, m)) == CacheSamples(m)
  {
    var hits := PlainFamily(help, "bweso_cache_hits_total", "counter", Decimal.Print(m.hits));
    var refreshes := OutcomeFamily(help, "bweso_cache_refreshes_total", RefreshCounts(m));
    var gauges := FlatMap(GaugeLines(help), CacheGauges(m));
    OnPlainFamily(help, "bweso_cache_hits_total", "counter", Decimal.Print(m.hits));
    OnOutcomeFamily(help, "bweso_cache_refreshes_total", RefreshCounts(m));
    OnRefreshCounts(m);
    OnCacheGauges(help, m);
    OnAppend(refreshes, gauges);
    OnAppend(hits, refreshes + gauges);
  }

  lemma OnReloadCounts(m: PolicyMetrics)
    ensures On(FlatMap(OutcomeLine("bweso_policy_reloads_total"), ReloadCounts(m)))
         == ByOutcome("bweso_policy_reloads_total", "success", m.success)
            + (ByOutcome("bweso_policy_reloads_total", "unchanged", m.same)
               + ByOutcome("bweso_policy_reloads_total", "failure", m.failure))
  {
    var name := "bweso_policy_reloads_total";
    OnOutcome(name, "success", m.success, [("unchanged", m.same), ("failure", m.failure)]);
    OnOutcome(name, "unchanged", m.same, [("failure", m.failure)]);
    OnOutcome(name, "failure", m.failure, []);
    assert ReloadCounts(m) == [("success", m.success)] + [("unchanged", m.same), ("failure", m.failure)];
    assert [("unchanged", m.same), ("failure", m.failure)] == [("unchanged", m.same)] + [("failure", m.failure)];
    assert [("failure", m.failure)] == [("failure", m.failure)] + [];
  }

  lemma {:induction false} OnPolicyGauges(help: Help, m: PolicyMetrics)
    ensures On(FlatMap(GaugeLines(help), PolicyGauges(m)))
         == Number("bweso_policy_active_allowed_keys", m.activeKeys)
            + (Number("bweso_policy_active_allowed_key_prefixes", m.activePrefixes)
               + (Known("bweso_policy_last_reload_success_timestamp_seconds",
                        if m.lastSuccess.Some? then m.lastSuccess.value.sinceEpoch else None)
                  + Known("bweso_policy_last_reload_success_age_seconds",
                          if m.lastSuccess.Some? then m.lastSuccess.value.age else None)))
  {
    var keys := ("bweso_policy_active_allowed_keys", Some(m.activeKeys));
    var prefixes := ("bweso_policy_active_allowed_key_prefixes", Some(m.activePrefixes));
    var epoch := ("bweso_policy_last_reload_success_timestamp_seconds", m.SinceEpoch());
    var age := ("bweso_policy_last_reload_success_age_seconds", m.Age());
    OnGauge(help, keys.0, keys.1, [prefixes, epoch, age]);
    OnGauge(help, prefixes.0, prefixes.1, [epoch, age]);
    OnPair(help, epoch, age);
    assert PolicyGauges(m) == [keys] + [prefixes, epoch, age];
    assert [prefixes, epoch, age] == [prefixes] + [epoch, age];
  }

  lemma OnPolicy(help: Help, m: PolicyMetrics)
    ensures On(PolicyLines(help, m)) == PolicySamples(m)
  {
    if m.Shown() {
      var reloads := OutcomeFamily(help, "bweso_policy_reloads_total", ReloadCounts(m));
      OnOutcomeFamily(help, "bweso_policy_reloads_total", ReloadCounts(m));
      OnReloadCounts(m);
      OnPolicyGauges(help, m);
      OnAppend(reloads, FlatMap(GaugeLines(help), PolicyGauges(m)));
    }
  }

  lemma OnState(help: Help, cache: Option<CacheMetrics>, policy: PolicyMetrics)
    ensures On(StateLines(help, cache, policy)) == StateSamples(cache, policy)
  {
    OnPolicy(help, policy);
    if cache.Some? {
      OnCache(help, cache.value);
      OnAppend(CacheLines(help, cache.value), PolicyLines(help, policy));
    }
  }

  lemma OnProcess(help: Help, v: View)
    ensures On(ProcessLines(help, v)) == ProcessSamples(v)
  {
    var build := Labeled(Sample("bweso_build_info", [Label("version", VERSION)], "1"));
    var started := PlainFamily(help, "bweso_process_start_time_seconds", "gauge", Decimal.Print(v.startTime));
    var up := PlainFamily(help, "bweso_uptime_seconds", "gauge", SecondsText(v.uptime));
    var ready := PlainFamily(help, "bweso_ready", "gauge", Decimal.Print(if v.ready then 1 else 0));
    OnFamily(help, "bweso_build_info", "gauge");
    OnOne(build);
    OnAppend(Family(help, "bweso_build_info", "gauge"), [build]);
    OnPlainFamily(help, "bweso_process_start_time_seconds", "gauge", Decimal.Print(v.startTime));
    OnPlainFamily(help, "bweso_uptime_seconds", "gauge", SecondsText(v.uptime));
    OnPlainFamily(help, "bweso_ready", "gauge", Decimal.Print(if v.ready then 1 else 0));
    OnAppend(up, ready);
    OnAppend(started, up + ready);
    OnAppend(BuildLines(help), ClockLines(help, v));
  }

  /**
   What a scraper learns from the page: which counter stands under which name and labels, in which order, and which
   gauges are left out.
   */
  lemma PageShows(help: Help, v: View)
    ensures ParseText(RenderDocument(PageLines(help, v))) == Some(PageSamples(v))
  {
    PageReadsBack(help, v);
    OnProcess(help, v);
    if v.snapshot.Some? {
      var s := v.snapshot.value;
      OnRequests(help, s);
      OnState(help, v.cache, s.policy);
      OnAppend(RequestLines(help, s), StateLines(help, v.cache, s.policy));
      OnAppend(ProcessLines(help, v), RequestLines(help, s) + StateLines(help, v.cache, s.policy));
    }
  }
}
