/** The printer of the metrics endpoint. */
module Exposition {
  import opened Metrics
  import opened Sequences
  import opened Text
  import opened Wrappers
  import Decimal

  datatype Label = Label(name: string, value: string)

  datatype Sample = Sample(name: string, labels: seq<Label>, value: string)

  // ---- The printer ----

  function EscapeChar(c: char): string {
    if c == '\\' then "\\\\" else if c == '"' then "\\\"" else if c == '\n' then "\\n" else [c]
  }

  function Escape(s: string): string {
    FlatMap(EscapeChar, s)
  }

  function RenderLabel(l: Label): string {
    l.name + "=\"" + Escape(l.value) + "\""
  }

  function RenderLabels(labels: seq<Label>): string {
    if labels == [] then ""
    else if |labels| == 1 then RenderLabel(labels[0])
    else RenderLabels(labels[..|labels| - 1]) + "," + RenderLabel(labels[|labels| - 1])
  }

  /** The line of a sample, without the line feed. */
  function RenderBare(s: Sample): string {
    s.name + "{" + RenderLabels(s.labels) + "} " + s.value
  }

  function RenderSample(s: Sample): string {
    RenderBare(s) + "\n"
  }

  /** One line of output: a comment, a sample with labels, or one without. */
  datatype Line = Comment(text: string) | Labeled(sample: Sample) | Plain(name: string, value: string)

  function RenderLine(line: Line): string {
    match line
    case Comment(text) => "# " + text
    case Labeled(sample) => RenderBare(sample)
    case Plain(name, value) => name + " " + value
  }

  function RenderEnded(line: Line): string {
    RenderLine(line) + "\n"
  }

  function RenderDocument(lines: seq<Line>): string {
    FlatMap(RenderEnded, lines)
  }

  function RenderSamples(samples: seq<Sample>): string {
    FlatMap(RenderSample, samples)
  }

  /** `{bucket:.3}`: the bound of a bucket in seconds. */
  function BoundText(i: nat): string
    requires i < |BOUNDS|
  {
    Decimal.Print(BOUNDS[i] / 1000) + "." + Decimal.Pad3(BOUNDS[i] % 1000)
  }

  /** `{:.6}`: nanoseconds as seconds, to the nearest microsecond. */
  function SecondsText(nanos: nat): string {
    var micros: nat := (nanos + 500) / 1000;
    Decimal.Print(micros / 1_000_000) + "." + Decimal.Pad3(micros / 1000 % 1000) + Decimal.Pad3(micros % 1000)
  }

  function BucketSample(name: string, labels: seq<Label>, le: string, count: nat): Sample {
    Sample(name + "_bucket", labels + [Label("le", le)], Decimal.Print(count))
  }

  /** The samples of the first `n` buckets. */
  function BucketSamples(name: string, labels: seq<Label>, h: Histogram, n: nat): (r: seq<Sample>)
    requires n <= |BOUNDS|
    ensures |r| == n
    ensures forall i :: 0 <= i < n ==> r[i] == BucketSample(name, labels, BoundText(i), h.buckets[i])
  {
    if n == 0 then []
    else BucketSamples(name, labels, h, n - 1) + [BucketSample(name, labels, BoundText(n - 1), h.buckets[n - 1])]
  }

  function HistogramSamples(name: string, labels: seq<Label>, h: Histogram): seq<Sample> {
    BucketSamples(name, labels, h, |BOUNDS|) + [
      BucketSample(name, labels, "+Inf", h.count),
      Sample(name + "_sum", labels, SecondsText(h.sum)),
      Sample(name + "_count", labels, Decimal.Print(h.count))]
  }

  function Separator(first: bool): string {
    if first then "" else ","
  }

  /** Printing one more label after some text. */
  lemma RenderLabelsStep(before: string, labels: seq<Label>, i: nat)
    requires i < |labels|
    ensures before + RenderLabels(labels[..i]) + (Separator(i == 0) + RenderLabel(labels[i]))
         == before + RenderLabels(labels[..i + 1])
  {
    assert labels[..i + 1][..i] == labels[..i];
    assert RenderLabels(labels[..i + 1]) == RenderLabels(labels[..i]) + (Separator(i == 0) + RenderLabel(labels[i]));
  }

  lemma RenderSampleParts(before: string, s: Sample)
    ensures before + s.name + "{" + RenderLabels(s.labels) + "} " + s.value + "\n" == before + RenderSample(s)
  {
    var labels := RenderLabels(s.labels);
    assert before + s.name + "{" + labels + "} " + s.value + "\n" == before + (s.name + "{" + labels + "} " + s.value + "\n");
  }

  /** Printing one more sample after some text. */
  lemma RenderSamplesStep(before: string, samples: seq<Sample>, i: nat)
    requires i < |samples|
    ensures before + RenderSamples(samples[..i]) + RenderSample(samples[i]) == before + RenderSamples(samples[..i + 1])
  {
    FlatMapSplit(RenderSample, samples, i);
  }

  lemma HistogramSampleAt(name: string, labels: seq<Label>, h: Histogram)
    ensures var (all, n) := (HistogramSamples(name, labels, h), |BOUNDS|);
            && |all| == n + 3
            && (forall i :: 0 <= i < n ==> all[i] == BucketSample(name, labels, BoundText(i), h.buckets[i]))
            && all[n] == BucketSample(name, labels, "+Inf", h.count)
            && all[n + 1] == Sample(name + "_sum", labels, SecondsText(h.sum))
            && all[n + 2] == Sample(name + "_count", labels, Decimal.Print(h.count))
  {
  }

  function LabeledLines(samples: seq<Sample>): (lines: seq<Line>)
    ensures |lines| == |samples| && forall i :: 0 <= i < |lines| ==> lines[i] == Labeled(samples[i])
  {
    if samples == [] then [] else [Labeled(samples[0])] + LabeledLines(samples[1..])
  }

  /** Samples are a document of labelled lines. */
  lemma {:induction false} SamplesAreLines(samples: seq<Sample>)
    ensures RenderDocument(LabeledLines(samples)) == RenderSamples(samples)
  {
    if samples != [] {
      SamplesAreLines(samples[1..]);
      assert LabeledLines(samples)[1..] == LabeledLines(samples[1..]);
    }
  }

  /** The output under construction. */
  class MetricText {
    var text: string

    constructor ()
      ensures text == ""
    {
      text := "";
    }

    method AppendEscapedLabelValue(value: string)
      modifies this
      ensures text == old(text) + Escape(value)
    {
      for i := 0 to |value|
        invariant text == old(text) + Escape(value[..i])
      {
        FlatMapSplit(EscapeChar, value, i);
        match value[i] {
          case '\\' => text := text + "\\\\";
          case '"' => text := text + "\\\"";
          case '\n' => text := text + "\\n";
          case _ => text := text + [value[i]];
        }
      }
      assert value[..|value|] == value;
    }

    method AppendLabel(first: bool, l: Label)
      modifies this
      ensures text == old(text) + (Separator(first) + RenderLabel(l))
    {
      if !first {
        text := text + ",";
      }
      text := text + l.name;
      text := text + "=\"";
      AppendEscapedLabelValue(l.value);
      text := text + "\"";
    }

    method AppendLabeledMetric(name: string, labels: seq<Label>, value: string)
      modifies this
      ensures text == old(text) + RenderSample(Sample(name, labels, value))
    {
      text := text + name;
      text := text + "{";
      ghost var start := text;
      for index := 0 to |labels|
        invariant text == start + RenderLabels(labels[..index])
      {
        RenderLabelsStep(start, labels, index);
        AppendLabel(index == 0, labels[index]);
      }
      assert labels[..|labels|] == labels;
      RenderSampleParts(old(text), Sample(name, labels, value));
      text := text + "} ";
      text := text + value;
      text := text + "\n";
    }

    method AppendHistogram(name: string, labels: seq<Label>, h: Histogram)
      modifies this
      ensures text == old(text) + RenderSamples(HistogramSamples(name, labels, h))
    {
      ghost var (start, all, n) := (text, HistogramSamples(name, labels, h), |BOUNDS|);
      HistogramSampleAt(name, labels, h);
      for index := 0 to |BOUNDS|
        invariant text == start + RenderSamples(all[..index])
      {
        AppendLabeledMetric(name + "_bucket", labels + [Label("le", BoundText(index))], Decimal.Print(h.buckets[index]));
        RenderSamplesStep(start, all, index);
      }
      AppendLabeledMetric(name + "_bucket", labels + [Label("le", "+Inf")], Decimal.Print(h.count));
      RenderSamplesStep(start, all, n);
      AppendLabeledMetric(name + "_sum", labels, SecondsText(h.sum));
      RenderSamplesStep(start, all, n + 1);
      AppendLabeledMetric(name + "_count", labels, Decimal.Print(h.count));
      RenderSamplesStep(start, all, n + 2);
      assert all[..n + 3] == all;
    }
  }
}
