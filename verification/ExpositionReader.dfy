/**
 A reader for the "Line format" section of the Prometheus text exposition format 0.0.4, and the proof that it recovers
 every sample the printer puts out. Timestamps are accepted and dropped; a value is any run of visible characters.
 */
module ExpositionReader {
  import opened Exposition
  import opened Metrics
  import opened Sequences
  import opened Text
  import opened Wrappers
  import Decimal

  // ---- Tokens ----

  predicate IsBlank(c: char) {
    c == ' ' || c == '\t'
  }

  predicate NotBlank(c: char) {
    !IsBlank(c)
  }

  predicate IsLabelStart(c: char) {
    'a' <= c <= 'z' || 'A' <= c <= 'Z' || c == '_'
  }

  predicate IsLabelChar(c: char) {
    IsLabelStart(c) || Decimal.IsDigit(c)
  }

  predicate IsNameChar(c: char) {
    IsLabelChar(c) || c == ':'
  }

  predicate AllOf(s: string, p: char -> bool) {
    forall i :: 0 <= i < |s| ==> p(s[i])
  }

  predicate ValidLabelName(s: string) {
    s != "" && IsLabelStart(s[0]) && AllOf(s, IsLabelChar)
  }

  predicate ValidMetricName(s: string) {
    s != "" && !Decimal.IsDigit(s[0]) && AllOf(s, IsNameChar)
  }

  predicate IsToken(s: string) {
    s != "" && AllOf(s, NotBlank)
  }

  /** The length of the longest prefix of such characters. */
  function Span(s: string, p: char -> bool): (n: nat)
    ensures n <= |s|
  {
    if s == "" || !p(s[0]) then 0 else 1 + Span(s[1..], p)
  }

  lemma {:induction false} SpanLaws(s: string, p: char -> bool)
    ensures var n := Span(s, p); AllOf(s[..n], p) && (n < |s| ==> !p(s[n]))
  {
    if s != "" && p(s[0]) {
      SpanLaws(s[1..], p);
      var n := Span(s, p);
      assert s[..n] == [s[0]] + s[1..][..n - 1];
    }
  }

  lemma {:induction false} SpanAppend(a: string, b: string, p: char -> bool)
    requires AllOf(a, p) && (b == "" || !p(b[0]))
    ensures Span(a + b, p) == |a| && (a + b)[..|a|] == a && (a + b)[|a|..] == b
  {
    if a == "" {
      assert a + b == b;
    } else {
      assert (a + b)[1..] == a[1..] + b;
      SpanAppend(a[1..], b, p);
    }
  }

  function SkipBlanks(s: string): (r: string)
    ensures |r| <= |s|
  {
    if s != "" && IsBlank(s[0]) then SkipBlanks(s[1..]) else s
  }

  // ---- Labels ----

  /** The text of a label value after its opening quote: the value, and what follows the closing quote. */
  function ParseQuoted(s: string): (r: Option<(string, string)>)
    ensures r.Some? ==> |r.value.1| < |s|
  {
    if s == "" then None
    else if s[0] == '"' then Some(("", s[1..]))
    else if s[0] == '\\' then
      if |s| == 1 then None else
        var c := if s[1] == 'n' then '\n' else s[1];
        if s[1] != '\\' && s[1] != '"' && s[1] != 'n' then None else
          match ParseQuoted(s[2..])
          case None => None
          case Some((value, rest)) => Some(([c] + value, rest))
    else
      match ParseQuoted(s[1..])
      case None => None
      case Some((value, rest)) => Some(([s[0]] + value, rest))
  }

  function ParseLabel(s: string): (r: Option<(Label, string)>)
    ensures r.Some? ==> |r.value.1| < |s|
  {
    var n := Span(s, IsLabelChar);
    var equals := SkipBlanks(s[n..]);
    if !ValidLabelName(s[..n]) || equals == "" || equals[0] != '=' then None else
      var quote := SkipBlanks(equals[1..]);
      if quote == "" || quote[0] != '"' then None else
        match ParseQuoted(quote[1..])
        case None => None
        case Some((value, rest)) => Some((Label(s[..n], value), rest))
  }

  /** The labels after the opening brace, and what follows the closing one. */
  function ParseLabels(s: string): Option<(seq<Label>, string)>
    decreases |s|
  {
    var start := SkipBlanks(s);
    if start != "" && start[0] == '}' then Some(([], start[1..])) else
      match ParseLabel(start)
      case None => None
      case Some((l, rest)) =>
        var next := SkipBlanks(rest);
        if next == "" then None
        else if next[0] == '}' then Some(([l], next[1..]))
        else if next[0] != ',' then None
        else
          match ParseLabels(next[1..])
          case None => None
          case Some((labels, after)) => Some(([l] + labels, after))
  }

  // ---- Lines ----

  predicate IsTimestamp(s: string) {
    Decimal.IsNumeral(s) || (s != "" && s[0] == '-' && Decimal.IsNumeral(s[1..]))
  }

  function ParseValue(name: string, labels: seq<Label>, s: string): Option<seq<Sample>>
  {
    var start := SkipBlanks(s);
    var n := Span(start, NotBlank);
    var tail := SkipBlanks(start[n..]);
    var m := Span(tail, NotBlank);
    if n == 0 then None
    else if tail == "" || (IsTimestamp(tail[..m]) && SkipBlanks(tail[m..]) == "")
    then Some([Sample(name, labels, start[..n])])
    else None
  }

  /** Optional labels, and the value. Without labels, a blank must separate the value from the name. */
  function ParseAfterName(name: string, s: string): Option<seq<Sample>> {
    var start := SkipBlanks(s);
    if start != "" && start[0] == '{' then
      match ParseLabels(start[1..])
      case None => None
      case Some((labels, rest)) => ParseValue(name, labels, rest)
    else if start == s then None
    else ParseValue(name, [], start)
  }

  /** No sample for an empty line or a comment. */
  function ParseLine(line: string): Option<seq<Sample>> {
    var start := SkipBlanks(line);
    if start == "" || start[0] == '#' then Some([]) else
      var n := Span(start, IsNameChar);
      if ValidMetricName(start[..n]) then ParseAfterName(start[..n], start[n..]) else None
  }

  function ParseLines(lines: seq<string>): Option<seq<Sample>> {
    if lines == [] then Some([]) else
      match (ParseLine(lines[0]), ParseLines(lines[1..]))
      case (Some(first), Some(rest)) => Some(first + rest)
      case _ => None
  }

  /** Every line, the last one included, ends with a line feed. */
  function ParseText(text: string): Option<seq<Sample>> {
    var pieces := Split(text, '\n');
    var last := |pieces| - 1;
    if pieces[last] != "" then None else ParseLines(pieces[..last])
  }

  // ---- Label values ----

  /** Reading stops at the closing quote, not inside the escaped value, and gives the value back. */
  lemma {:induction false} UnescapeEscape(value: string, rest: string)
    ensures ParseQuoted(Escape(value) + "\"" + rest) == Some((value, rest))
  {
    if value == "" {
      assert Escape(value) + "\"" + rest == "\"" + rest;
    } else {
      var tail := Escape(value[1..]) + "\"" + rest;
      UnescapeEscape(value[1..], rest);
      UnescapeOne(value[0], tail, value[1..], rest);
      assert Escape(value) + "\"" + rest == EscapeChar(value[0]) + tail;
      assert value == [value[0]] + value[1..];
    }
  }

  /** One escaped character in front. */
  lemma {:induction false} UnescapeOne(c: char, tail: string, value: string, rest: string)
    requires ParseQuoted(tail) == Some((value, rest))
    ensures ParseQuoted(EscapeChar(c) + tail) == Some(([c] + value, rest))
  {
    var s := EscapeChar(c) + tail;
    if |EscapeChar(c)| == 2 {
      assert s[2..] == tail;
    } else {
      assert s[1..] == tail;
    }
  }

  lemma EscapeIsInjective(a: string, b: string)
    requires Escape(a) == Escape(b)
    ensures a == b
  {
    UnescapeEscape(a, "");
    UnescapeEscape(b, "");
  }

  lemma {:induction false} EscapeHasNoNewline(value: string)
    ensures Free('\n', Escape(value))
  {
    if value != "" {
      EscapeHasNoNewline(value[1..]);
    }
  }

  // ---- Round trip ----

  lemma LabelAfterName(name: string, quoted: string, value: string, rest: string)
    requires ValidLabelName(name) && ParseQuoted(quoted) == Some((value, rest))
    ensures ParseLabel(name + ("=\"" + quoted)) == Some((Label(name, value), rest))
  {
    var equals := "=\"" + quoted;
    SpanAppend(name, equals, IsLabelChar);
    var quote := "\"" + quoted;
    assert equals[0] == '=' && equals[1..] == quote;
    assert quote[0] == '"' && quote[1..] == quoted;
  }

  lemma LabelRoundTrip(l: Label, rest: string)
    requires ValidLabelName(l.name)
    ensures ParseLabel(RenderLabel(l) + rest) == Some((l, rest))
  {
    var quoted := Escape(l.value) + "\"" + rest;
    assert RenderLabel(l) + rest == l.name + ("=\"" + quoted);
    UnescapeEscape(l.value, rest);
    LabelAfterName(l.name, quoted, l.value, rest);
  }

  predicate ValidLabels(labels: seq<Label>) {
    forall i :: 0 <= i < |labels| ==> ValidLabelName(labels[i].name)
  }

  /** The printed labels, read from the front. */
  lemma {:induction false} RenderLabelsFront(labels: seq<Label>)
    requires |labels| > 1
    ensures RenderLabels(labels) == RenderLabel(labels[0]) + "," + RenderLabels(labels[1..])
  {
    var last := |labels| - 1;
    if last > 1 {
      RenderLabelsFront(labels[..last]);
      assert labels[..last][1..] == labels[1..][..last - 1];
      assert labels[..last][0] == labels[0] && labels[1..][last - 1] == labels[last];
    } else {
      assert labels[..1] == [labels[0]] && labels[1..] == [labels[1]];
    }
  }

  lemma LabelStartsVisible(l: Label, rest: string)
    requires ValidLabelName(l.name)
    ensures var s := RenderLabel(l) + rest; s != "" && !IsBlank(s[0]) && s[0] != '}'
  {
    assert (RenderLabel(l) + rest)[0] == l.name[0];
  }

  lemma {:induction false} ParseLastLabel(s: string, l: Label, rest: string)
    requires s != "" && !IsBlank(s[0]) && s[0] != '}' && ParseLabel(s) == Some((l, "}" + rest))
    ensures ParseLabels(s) == Some(([l], rest))
  {
    assert ("}" + rest)[1..] == rest;
  }

  lemma {:induction false} ParseNextLabel(s: string, l: Label, more: string, labels: seq<Label>, rest: string)
    requires s != "" && !IsBlank(s[0]) && s[0] != '}' && ParseLabel(s) == Some((l, "," + more))
    requires ParseLabels(more) == Some((labels, rest))
    ensures ParseLabels(s) == Some(([l] + labels, rest))
  {
    assert ("," + more)[1..] == more;
  }

  lemma {:induction false} LastLabelText(labels: seq<Label>, rest: string)
    requires |labels| == 1
    ensures RenderLabels(labels) + "}" + rest == RenderLabel(labels[0]) + ("}" + rest)
  {
  }

  lemma {:induction false} NextLabelText(labels: seq<Label>, rest: string)
    requires |labels| > 1
    ensures RenderLabels(labels) + "}" + rest
         == RenderLabel(labels[0]) + ("," + (RenderLabels(labels[1..]) + "}" + rest))
  {
    RenderLabelsFront(labels);
    var (head, tail) := (RenderLabel(labels[0]), RenderLabels(labels[1..]));
    assert (head + "," + tail) + "}" + rest == head + ("," + (tail + "}" + rest));
  }

  lemma LastLabelReads(l: Label, rest: string)
    requires ValidLabelName(l.name)
    ensures ParseLabels(RenderLabel(l) + ("}" + rest)) == Some(([l], rest))
  {
    LabelStartsVisible(l, "}" + rest);
    LabelRoundTrip(l, "}" + rest);
    ParseLastLabel(RenderLabel(l) + ("}" + rest), l, rest);
  }

  lemma NextLabelReads(l: Label, more: string, labels: seq<Label>, rest: string)
    requires ValidLabelName(l.name) && ParseLabels(more) == Some((labels, rest))
    ensures ParseLabels(RenderLabel(l) + ("," + more)) == Some(([l] + labels, rest))
  {
    LabelStartsVisible(l, "," + more);
    LabelRoundTrip(l, "," + more);
    ParseNextLabel(RenderLabel(l) + ("," + more), l, more, labels, rest);
  }

  lemma {:induction false} LabelsRoundTrip(labels: seq<Label>, rest: string)
    requires ValidLabels(labels)
    ensures ParseLabels(RenderLabels(labels) + "}" + rest) == Some((labels, rest))
  {
    if labels == [] {
      assert RenderLabels(labels) + "}" + rest == "}" + rest;
      assert ("}" + rest)[1..] == rest;
    } else if |labels| == 1 {
      LastLabelText(labels, rest);
      LastLabelReads(labels[0], rest);
      assert labels == [labels[0]];
    } else {
      NextLabelText(labels, rest);
      LabelsRoundTrip(labels[1..], rest);
      NextLabelReads(labels[0], RenderLabels(labels[1..]) + "}" + rest, labels[1..], rest);
      assert labels == [labels[0]] + labels[1..];
    }
  }

  lemma ValueRoundTrip(name: string, labels: seq<Label>, lead: string, value: string)
    requires IsToken(value) && (lead == "" || lead == " ")
    ensures ParseValue(name, labels, lead + value) == Some([Sample(name, labels, value)])
  {
    assert (lead + value)[|lead|..] == value && !IsBlank(value[0]);
    assert SkipBlanks(lead + value) == value;
    assert value + "" == value;
    SpanAppend(value, "", NotBlank);
    assert SkipBlanks("") == "";
  }

  lemma NameStartsLine(name: string, rest: string)
    requires ValidMetricName(name) && (rest == "" || !IsNameChar(rest[0]))
    ensures ParseLine(name + rest) == ParseAfterName(name, rest)
  {
    var line := name + rest;
    SpanAppend(name, rest, IsNameChar);
    assert line[0] == name[0] && IsNameChar(name[0]);
    assert SkipBlanks(line) == line;
  }

  /** Whatever the reader takes for a value is a token. */
  lemma ParsedValueIsToken(name: string, labels: seq<Label>, s: string)
    requires ParseValue(name, labels, s).Some?
    ensures var r := ParseValue(name, labels, s).value; |r| == 1 && IsToken(r[0].value)
  {
    SpanLaws(SkipBlanks(s), NotBlank);
  }

  predicate ValidNames(s: Sample) {
    ValidMetricName(s.name) && ValidLabels(s.labels)
  }

  lemma LineIsNameAndRest(s: Sample)
    ensures RenderBare(s) == s.name + ("{" + (RenderLabels(s.labels) + "}" + (" " + s.value)))
  {
    assert "} " == "}" + " ";
  }

  lemma LabelsThenValue(name: string, inside: string, labels: seq<Label>, rest: string)
    requires ParseLabels(inside) == Some((labels, rest))
    ensures ParseAfterName(name, "{" + inside) == ParseValue(name, labels, rest)
  {
    assert ("{" + inside)[1..] == inside;
  }

  lemma BlankThenValue(name: string, value: string)
    requires IsToken(value) && value[0] != '{'
    ensures ParseAfterName(name, " " + value) == Some([Sample(name, [], value)])
  {
    SpanAppend(" ", value, IsBlank);
    assert SkipBlanks(" " + value) == value;
    ValueRoundTrip(name, [], "", value);
    assert "" + value == value;
  }

  /** A printed line reads back as whatever its value reads as. */
  lemma LineReads(s: Sample)
    requires ValidNames(s)
    ensures ParseLine(RenderBare(s)) == ParseValue(s.name, s.labels, " " + s.value)
  {
    LineIsNameAndRest(s);
    LabelsRoundTrip(s.labels, " " + s.value);
    var inside := RenderLabels(s.labels) + "}" + (" " + s.value);
    NameStartsLine(s.name, "{" + inside);
    LabelsThenValue(s.name, inside, s.labels, " " + s.value);
  }

  lemma {:induction false} LabelsHaveNoNewline(labels: seq<Label>)
    requires ValidLabels(labels)
    ensures Free('\n', RenderLabels(labels))
  {
    if labels != [] {
      var last := |labels| - 1;
      assert ValidLabelName(labels[last].name);
      EscapeHasNoNewline(labels[last].value);
      assert Free('\n', RenderLabel(labels[last]));
      LabelsHaveNoNewline(labels[..last]);
    }
  }

  lemma SampleHasNoNewline(s: Sample)
    requires ValidNames(s) && Free('\n', s.value)
    ensures Free('\n', RenderBare(s))
  {
    LabelsHaveNoNewline(s.labels);
  }

  function SamplesOf(line: Line): seq<Sample> {
    match line
    case Comment(_) => []
    case Labeled(sample) => [sample]
    case Plain(name, value) => [Sample(name, [], value)]
  }

  predicate WellFormed(line: Line) {
    match line
    case Comment(text) => Free('\n', text)
    case Labeled(s) => ValidNames(s) && IsToken(s.value) && Free('\n', s.value)
    case Plain(name, value) => ValidMetricName(name) && IsToken(value) && Free('\n', value) && value[0] != '{'
  }

  lemma LabeledRoundTrip(s: Sample)
    requires WellFormed(Labeled(s))
    ensures ParseLine(RenderBare(s)) == Some([s]) && Free('\n', RenderBare(s))
  {
    LineReads(s);
    ValueRoundTrip(s.name, s.labels, " ", s.value);
    SampleHasNoNewline(s);
  }

  lemma PlainRoundTrip(name: string, value: string)
    requires WellFormed(Plain(name, value))
    ensures ParseLine(name + " " + value) == Some([Sample(name, [], value)]) && Free('\n', name + " " + value)
  {
    assert name + " " + value == name + (" " + value);
    NameStartsLine(name, " " + value);
    BlankThenValue(name, value);
  }

  lemma CommentReads(text: string)
    ensures ParseLine("# " + text) == Some([])
  {
    assert ("# " + text)[0] == '#';
  }

  lemma LineRoundTrip(line: Line)
    requires WellFormed(line)
    ensures ParseLine(RenderLine(line)) == Some(SamplesOf(line)) && Free('\n', RenderLine(line))
  {
    match line {
      case Comment(text) => CommentReads(text);
      case Labeled(s) => LabeledRoundTrip(s);
      case Plain(name, value) => PlainRoundTrip(name, value);
    }
  }

  /** Reading a document gives back exactly the samples printed, in order. */
  lemma {:induction false} DocumentRoundTrip(lines: seq<Line>)
    requires forall i :: 0 <= i < |lines| ==> WellFormed(lines[i])
    ensures ParseText(RenderDocument(lines)) == Some(FlatMap(SamplesOf, lines))
  {
    if lines == [] {
      SplitWhole("", '\n');
    } else {
      DocumentRoundTrip(lines[1..]);
      LineRoundTrip(lines[0]);
      TextStep(RenderLine(lines[0]), RenderDocument(lines[1..]));
    }
  }

  /** A line in front of a text. */
  lemma TextStep(line: string, text: string)
    requires Free('\n', line)
    ensures ParseText(line + "\n" + text) ==
      if ParseText(text).Some? && ParseLine(line).Some? then Some(ParseLine(line).value + ParseText(text).value) else None
  {
    SplitAppend(line, '\n', text);
    var pieces := Split(text, '\n');
    var all := [line] + pieces;
    var last := |pieces| - 1;
    assert all[last + 1] == pieces[last] && all[..last + 1][1..] == pieces[..last];
    assert all[..last + 1][0] == line;
  }

  /** Everything printed for samples with valid names and one-token values reads back. */
  lemma {:induction false} SamplesRoundTrip(samples: seq<Sample>)
    requires forall i :: 0 <= i < |samples| ==> WellFormed(Labeled(samples[i]))
    ensures ParseText(RenderSamples(samples)) == Some(samples)
  {
    if samples == [] {
      SplitWhole("", '\n');
    } else {
      SamplesRoundTrip(samples[1..]);
      LineRoundTrip(Labeled(samples[0]));
      TextStep(RenderBare(samples[0]), RenderSamples(samples[1..]));
      assert samples == [samples[0]] + samples[1..];
    }
  }

  lemma LoneLine(line: string)
    requires Free('\n', line)
    ensures ParseText(line + "\n") == ParseLine(line)
  {
    SplitWhole("", '\n');
    assert ParseText("") == Some([]);
    TextStep(line, "");
    assert line + "\n" + "" == line + "\n";
    if ParseLine(line).Some? {
      assert ParseLine(line).value + [] == ParseLine(line).value;
    }
  }

  /** A lone sample, with valid names and a value on one line, reads back exactly when its value is one token. */
  lemma SampleRoundTrip(s: Sample)
    requires ValidNames(s) && Free('\n', s.value)
    ensures ParseText(RenderSample(s)) == Some([s]) <==> IsToken(s.value)
  {
    LineReads(s);
    SampleHasNoNewline(s);
    LoneLine(RenderBare(s));
    if IsToken(s.value) {
      ValueRoundTrip(s.name, s.labels, " ", s.value);
    }
    if ParseValue(s.name, s.labels, " " + s.value) == Some([s]) {
      ParsedValueIsToken(s.name, s.labels, " " + s.value);
    }
  }

  // ---- Histograms ----

  lemma NameWithSuffix(name: string, suffix: string)
    requires ValidMetricName(name) && AllOf(suffix, IsNameChar)
    ensures ValidMetricName(name + suffix)
  {
  }

  /** Digits and points make a token. */
  lemma NumberIsToken(s: string)
    requires s != "" && forall i :: 0 <= i < |s| ==> Decimal.IsDigit(s[i]) || s[i] == '.'
    ensures IsToken(s) && Free('\n', s)
  {
  }

  lemma BucketIsWellFormed(name: string, labels: seq<Label>, le: string, count: nat)
    requires ValidMetricName(name) && ValidLabels(labels)
    ensures WellFormed(Labeled(BucketSample(name, labels, le, count)))
  {
    NameWithSuffix(name, "_bucket");
    NumberIsToken(Decimal.Print(count));
  }

  lemma HistogramIsWellFormed(name: string, labels: seq<Label>, h: Histogram, i: nat)
    requires ValidMetricName(name) && ValidLabels(labels) && i < |HistogramSamples(name, labels, h)|
    ensures WellFormed(Labeled(HistogramSamples(name, labels, h)[i]))
  {
    HistogramSampleAt(name, labels, h);
    if i < |BOUNDS| {
      BucketIsWellFormed(name, labels, BoundText(i), h.buckets[i]);
    } else if i == |BOUNDS| {
      BucketIsWellFormed(name, labels, "+Inf", h.count);
    } else if i == |BOUNDS| + 1 {
      NameWithSuffix(name, "_sum");
      NumberIsToken(SecondsText(h.sum));
    } else {
      NameWithSuffix(name, "_count");
      NumberIsToken(Decimal.Print(h.count));
    }
  }

  /** A decimal of seconds with six places, within half a microsecond of the nanoseconds. */
  predicate ShowsSeconds(s: string, nanos: nat) {
    var point := |s| - 7;
    && point > 0 && s[point] == '.' && Decimal.IsNumeral(s[..point]) && Decimal.IsNumeral(s[point + 1..])
    && var micros := 1_000_000 * Decimal.Read(s[..point]) + Decimal.Read(s[point + 1..]);
       nanos - 500 <= 1000 * micros <= nanos + 500
  }

  lemma MicrosSplit(micros: nat)
    ensures 1_000_000 * (micros / 1_000_000) + (1000 * (micros / 1000 % 1000) + micros % 1000) == micros
  {
    var thousands := micros / 1000;
    assert thousands / 1000 == micros / 1_000_000;
  }

  /** A point between two numerals. */
  lemma PointAt(whole: string, fraction: string)
    requires |fraction| == 6
    ensures var s := whole + "." + fraction;
            |s| - 7 == |whole| && s[|whole|] == '.' && s[..|whole|] == whole && s[|whole| + 1..] == fraction
  {
  }

  lemma SecondsTextExactly(nanos: nat)
    ensures ShowsSeconds(SecondsText(nanos), nanos)
  {
    var micros: nat := (nanos + 500) / 1000;
    var whole, fraction := Decimal.Print(micros / 1_000_000), Decimal.Pad3(micros / 1000 % 1000) + Decimal.Pad3(micros % 1000);
    PointAt(whole, fraction);
    assert SecondsText(nanos) == whole + "." + fraction;
    Decimal.ReadPrint(micros / 1_000_000);
    Decimal.ReadSix(micros / 1000 % 1000, micros % 1000);
    MicrosSplit(micros);
  }

  lemma HistogramRoundTrip(name: string, labels: seq<Label>, h: Histogram)
    requires ValidMetricName(name) && ValidLabels(labels)
    ensures ParseText(RenderSamples(HistogramSamples(name, labels, h))) == Some(HistogramSamples(name, labels, h))
  {
    var samples := HistogramSamples(name, labels, h);
    forall i | 0 <= i < |samples|
      ensures WellFormed(Labeled(samples[i]))
    {
      HistogramIsWellFormed(name, labels, h, i);
    }
    SamplesRoundTrip(samples);
  }

  /**
   What a scraper is told: each bucket counts the durations at or below its bound, the `+Inf` bucket and `_count` both
   all of them, and `_sum` is their sum.
   */
  ghost predicate TellsOf(samples: seq<Sample>, name: string, labels: seq<Label>, durations: seq<nat>) {
    var n := |BOUNDS|;
    && |samples| == n + 3
    && (forall i :: 0 <= i < n ==>
          samples[i] == Sample(name + "_bucket", labels + [Label("le", BoundText(i))], Decimal.Print(AtMost(durations, Bound(i)))))
    && samples[n] == Sample(name + "_bucket", labels + [Label("le", "+Inf")], Decimal.Print(|durations|))
    && samples[n + 1].name == name + "_sum" && samples[n + 1].labels == labels
    && ShowsSeconds(samples[n + 1].value, Sum(durations))
    && samples[n + 2] == Sample(name + "_count", labels, Decimal.Print(|durations|))
  }

  /** Reading a printed histogram gives the counts that the observations dictate. */
  lemma HistogramReadsBack(name: string, labels: seq<Label>, durations: seq<nat>)
    requires ValidMetricName(name) && ValidLabels(labels)
    ensures var r := ParseText(RenderSamples(HistogramSamples(name, labels, ObserveAll(durations))));
            r.Some? && TellsOf(r.value, name, labels, durations)
  {
    HistogramRoundTrip(name, labels, ObserveAll(durations));
    HistogramTells(name, labels, durations);
  }

  lemma HistogramTells(name: string, labels: seq<Label>, durations: seq<nat>)
    ensures TellsOf(HistogramSamples(name, labels, ObserveAll(durations)), name, labels, durations)
  {
    HistogramMeaning(durations);
    SecondsTextExactly(Sum(durations));
    HistogramSampleAt(name, labels, ObserveAll(durations));
  }

  /** The printed bound of a bucket is its bound, in seconds with three decimals. */
  lemma BoundTextIsExact(i: nat)
    requires i < |BOUNDS|
    ensures var (s, point) := (BoundText(i), |BoundText(i)| - 4);
            && 0 <= point && s[point] == '.'
            && Decimal.IsNumeral(s[..point]) && Decimal.IsNumeral(s[point + 1..])
            && 1000 * Decimal.Read(s[..point]) + Decimal.Read(s[point + 1..]) == BOUNDS[i]
  {
    var (a, b) := (Decimal.Print(BOUNDS[i] / 1000), Decimal.Pad3(BOUNDS[i] % 1000));
    Decimal.ReadPrint(BOUNDS[i] / 1000);
    Decimal.ReadPad3(BOUNDS[i] % 1000);
    assert BoundText(i)[..|a|] == a && BoundText(i)[|a| + 1..] == b;
  }

  /** The bounds that a scraper sees. */
  lemma BoundTexts(i: nat)
    requires i < |BOUNDS|
    ensures |BOUNDS| == 11
    ensures BoundText(i) ==
      ["0.005", "0.010", "0.025", "0.050", "0.100", "0.250", "0.500", "1.000", "2.500", "5.000", "10.000"][i]
  {
    if i == 10 {
      assert Decimal.Print(1) == "1" && Decimal.Print(10) == Decimal.Print(1) + "0";
    } else {
      OneDigitText(i);
    }
  }

  lemma OneDigitText(i: nat)
    requires i < 10
    ensures BoundText(i) == [Decimal.Digit(BOUNDS[i] / 1000)] + "." + Decimal.Pad3(BOUNDS[i] % 1000)
  {
  }
}
