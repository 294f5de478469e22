/**
 * The Prometheus text exposition of a list of performance counters
 * (`PrometheusCounterConverter.toString`). Each counter is published as zero or
 * more gauge samples (none for a Timestamp counter); every sample is a `# TYPE <metric> gauge` line followed
 * by a `<metric><labels> <value>` line. Timestamp counters are not published.
 */
module PrometheusCounterConverter {
  import opened Text
  import opened Counters
  import opened CounterName
  import opened LabelGeneration

  /** One published gauge: metric name, label suffix and rendered value. */
  datatype Sample = Sample(metric: string, labels: string, value: string)

  /** The type declaration of a sample. */
  function TypeLine(s: Sample): string {
    "# TYPE " + s.metric + " gauge"
  }

  /** The value line of a sample. */
  function ValueLine(s: Sample): string {
    s.metric + s.labels + " " + s.value
  }

  /** The four gauges of an Interval or Statistics counter, in the order
      `_max`, `_min`, `_average`, `_count`. */
  function StatsSamples(name: string, labels: string, c: Counter, show: real -> string): seq<Sample> {
    [Sample(name + "_max", labels, show(c.max)),
     Sample(name + "_min", labels, show(c.min)),
     Sample(name + "_average", labels, show(c.average)),
     Sample(name + "_count", labels, show(c.count))]
  }

  /** The gauges of a counter of kind `c.kind` whose metric name is `name` and
      whose label suffix is `labels`. `show` renders a number as the commons
      string converter does. */
  function Gauges(name: string, labels: string, c: Counter, show: real -> string): seq<Sample> {
    match c.kind
    case Increment => [Sample(name, labels, show(c.count))]
    case LastValue => [Sample(name, labels, show(c.last))]
    case Interval => StatsSamples(name, labels, c, show)
    case Statistics => StatsSamples(name, labels, c, show)
    case Timestamp => []
  }

  /** The gauges a counter is published as: named after the derived metric
      name and labelled with the generated labels. */
  function CounterSamples(c: Counter, source: string, instance: string, show: real -> string): seq<Sample> {
    Gauges(ParseCounterName(c.name), FormatLabels(CounterLabels(c.name, source, instance)), c, show)
  }

  /** `f` applied to each element, the results concatenated in order. */
  function ConcatMap<A, B>(xs: seq<A>, f: A -> seq<B>): seq<B>
    decreases |xs|
  {
    if xs == [] then [] else ConcatMap(xs[..|xs| - 1], f) + f(xs[|xs| - 1])
  }

  /** The gauges of all counters, counter by counter. */
  function AllSamples(cs: seq<Counter>, source: string, instance: string, show: real -> string): seq<Sample> {
    ConcatMap(cs, c => CounterSamples(c, source, instance, show))
  }

  /** The text of one sample: both of its lines, each ended by a newline. */
  function SampleText(s: Sample): string {
    TypeLine(s) + "\n" + ValueLine(s) + "\n"
  }

  /** The text of a list of samples, one after the other. */
  function Exposition(ss: seq<Sample>): string
    decreases |ss|
  {
    if ss == [] then "" else SampleText(ss[0]) + Exposition(ss[1..])
  }

  /** The lines of a list of samples, without their newlines. */
  function Lines(ss: seq<Sample>): (ls: seq<string>)
    ensures |ls| == 2 * |ss|
    decreases |ss|
  {
    if ss == [] then [] else [TypeLine(ss[0]), ValueLine(ss[0])] + Lines(ss[1..])
  }

  /** The text published for `counters`. */
  function Encode(counters: seq<Counter>, source: string, instance: string, show: real -> string): string {
    Exposition(AllSamples(counters, source, instance, show))
  }

  /** Builds the exposition text counter by counter, appending the lines of
      each counter kind to a string builder. */
  method ToString(counters: seq<Counter>, source: string, instance: string, show: real -> string)
    returns (text: string)
    ensures text == Encode(counters, source, instance, show)
  {
    if |counters| == 0 {
      return "";
    }
    var builder := "";
    var i := 0;
    // The text so far is kept as the exposition of the blocks of the counters
    // done rather than as `Encode(counters[..i], ...)`: stating it through the
    // prefix makes every turn unfold `Encode` and is far costlier to prove.
    ghost var blocks: seq<seq<Sample>> := [];
    while i < |counters|
      invariant 0 <= i <= |counters| && |blocks| == i
      invariant forall j :: 0 <= j < i ==> blocks[j] == CounterSamples(counters[j], source, instance, show)
      invariant builder == Exposition(Concat(blocks))
    {
      var counter := counters[i];
      var counterName := ParseCounterName(counter.name);
      var labels := GenerateCounterLabel(counter.name, source, instance);
      builder := AppendCounter(builder, counterName, labels, counter, show);
      ghost var gauges := Gauges(counterName, labels, counter, show);
      CounterGauges(counter, source, instance, show, counterName, labels);
      BlocksSnoc(counters, i, blocks, gauges, c => CounterSamples(c, source, instance, show));
      ConcatSnoc(blocks, gauges);
      ExpositionAppend(Concat(blocks), gauges);
      blocks := blocks + [gauges];
      i := i + 1;
    }
    ConcatMapBlocks(counters, c => CounterSamples(c, source, instance, show), blocks);
    text := builder;
  }

  /** Proof step for `ToString`: the gauges computed from a derived name and
      generated label suffix are the counter's gauges. */
  lemma CounterGauges(c: Counter, source: string, instance: string, show: real -> string, name: string, labels: string)
    requires name == ParseCounterName(c.name)
    requires labels == FormatLabels(CounterLabels(c.name, source, instance))
    ensures Gauges(name, labels, c, show) == CounterSamples(c, source, instance, show)
  {
  }

  /** Extending blocks that are the images of a prefix by the image of the next
      element gives the images of the longer prefix. */
  lemma BlocksSnoc<A, B>(xs: seq<A>, i: nat, blocks: seq<seq<B>>, b: seq<B>, f: A -> seq<B>)
    requires i < |xs| && |blocks| == i
    requires forall j :: 0 <= j < i ==> blocks[j] == f(xs[j])
    requires b == f(xs[i])
    ensures forall j :: 0 <= j < i + 1 ==> (blocks + [b])[j] == f(xs[j])
  {
  }

  /** The `switch` on the counter kind: the lines of the counter's gauges
      appended to `builder`; nothing for a Timestamp counter. */
  method AppendCounter(builder: string, counterName: string, labels: string, counter: Counter, show: real -> string)
    returns (r: string)
    ensures r == builder + Exposition(Gauges(counterName, labels, counter, show))
  {
    r := builder;
    match counter.kind {
      case Increment =>
        r := r + "# TYPE " + counterName + " gauge\n";
        r := r + counterName + labels + " " + show(counter.count) + "\n";
        AppendGauge(builder, counterName, labels, show(counter.count));
        SingleGauge(Sample(counterName, labels, show(counter.count)));
      case Interval =>
        r := AppendStats(r, counterName, labels, counter, show);
      case LastValue =>
        r := r + "# TYPE " + counterName + " gauge\n";
        r := r + counterName + labels + " " + show(counter.last) + "\n";
        AppendGauge(builder, counterName, labels, show(counter.last));
        SingleGauge(Sample(counterName, labels, show(counter.last)));
      case Statistics =>
        r := AppendStats(r, counterName, labels, counter, show);
      case Timestamp =>
    }
  }

  /** The text of a single gauge. */
  lemma SingleGauge(s: Sample)
    ensures Exposition([s]) == SampleText(s)
  {
    assert [s][1..] == [];
  }

  /** The eight lines of an Interval or Statistics counter appended to `builder`. */
  method AppendStats(builder: string, counterName: string, labels: string, counter: Counter, show: real -> string)
    returns (r: string)
    ensures r == builder + Exposition(StatsSamples(counterName, labels, counter, show))
  {
    r := builder;
    r := r + "# TYPE " + counterName + "_max gauge\n";
    r := r + counterName + "_max" + labels + " " + show(counter.max) + "\n";
    AppendSuffixedGauge(builder, counterName, "_max", "_max gauge\n", labels, show(counter.max));
    ghost var r1 := r;
    r := r + "# TYPE " + counterName + "_min gauge\n";
    r := r + counterName + "_min" + labels + " " + show(counter.min) + "\n";
    AppendSuffixedGauge(r1, counterName, "_min", "_min gauge\n", labels, show(counter.min));
    ghost var r2 := r;
    r := r + "# TYPE " + counterName + "_average gauge\n";
    r := r + counterName + "_average" + labels + " " + show(counter.average) + "\n";
    AppendSuffixedGauge(r2, counterName, "_average", "_average gauge\n", labels, show(counter.average));
    ghost var r3 := r;
    r := r + "# TYPE " + counterName + "_count gauge\n";
    r := r + counterName + "_count" + labels + " " + show(counter.count) + "\n";
    AppendSuffixedGauge(r3, counterName, "_count", "_count gauge\n", labels, show(counter.count));
    ExpositionFour(builder, StatsSamples(counterName, labels, counter, show));
  }

  /** Proof step for `AppendCounter`: appending the two lines of a gauge the way
      the builder does appends its text. */
  lemma AppendGauge(builder: string, name: string, labels: string, value: string)
    ensures builder + "# TYPE " + name + " gauge\n" + name + labels + " " + value + "\n"
      == builder + SampleText(Sample(name, labels, value))
  {
  }

  /** Proof step for `AppendStats`: the same for a gauge named with a suffix.
      `typeTail` is the literal the builder appends, always `suffix + " gauge\n"`;
      it is a separate argument so that the sum keeps the builder's grouping. */
  lemma AppendSuffixedGauge(builder: string, name: string, suffix: string, typeTail: string, labels: string, value: string)
    requires typeTail == suffix + " gauge\n"
    ensures builder + "# TYPE " + name + typeTail + name + suffix + labels + " " + value + "\n"
      == builder + SampleText(Sample(name + suffix, labels, value))
  {
  }

  /** The text of four samples appended one by one. */
  lemma ExpositionFour(builder: string, ss: seq<Sample>)
    requires |ss| == 4
    ensures builder + SampleText(ss[0]) + SampleText(ss[1]) + SampleText(ss[2]) + SampleText(ss[3])
      == builder + Exposition(ss)
  {
    assert Exposition(ss) == SampleText(ss[0]) + Exposition(ss[1..]);
    assert Exposition(ss[1..]) == SampleText(ss[1]) + Exposition(ss[2..]);
    assert Exposition(ss[2..]) == SampleText(ss[2]) + Exposition(ss[3..]);
    assert Exposition(ss[3..]) == SampleText(ss[3]) + Exposition(ss[4..]);
    assert ss[4..] == [];
  }

  /** One more element appends its image. */
  lemma ConcatMapSnoc<A, B>(xs: seq<A>, x: A, f: A -> seq<B>)
    ensures ConcatMap(xs + [x], f) == ConcatMap(xs, f) + f(x)
  {
    var t := xs + [x];
    assert t[..|t| - 1] == xs && t[|t| - 1] == x;
  }

  /** The blocks concatenated in order. */
  function Concat<T>(blocks: seq<seq<T>>): seq<T>
    decreases |blocks|
  {
    if blocks == [] then [] else Concat(blocks[..|blocks| - 1]) + blocks[|blocks| - 1]
  }

  /** One more block appends it. */
  lemma ConcatSnoc<T>(blocks: seq<seq<T>>, b: seq<T>)
    ensures Concat(blocks + [b]) == Concat(blocks) + b
  {
    var t := blocks + [b];
    assert t[..|t| - 1] == blocks && t[|t| - 1] == b;
  }

  /** Mapping and concatenating is concatenating the images. */
  lemma {:induction false} ConcatMapBlocks<A, B>(xs: seq<A>, f: A -> seq<B>, blocks: seq<seq<B>>)
    requires |blocks| == |xs|
    requires forall j :: 0 <= j < |xs| ==> blocks[j] == f(xs[j])
    ensures ConcatMap(xs, f) == Concat(blocks)
    decreases |xs|
  {
    if xs != [] {
      var n := |xs| - 1;
      ConcatMapBlocks(xs[..n], f, blocks[..n]);
    }
  }

  /** Mapping distributes over concatenation. */
  lemma {:induction false} ConcatMapAppend<A, B>(a: seq<A>, b: seq<A>, f: A -> seq<B>)
    ensures ConcatMap(a + b, f) == ConcatMap(a, f) + ConcatMap(b, f)
    decreases |b|
  {
    if b == [] {
      assert a + b == a;
    } else {
      var init, last := b[..|b| - 1], b[|b| - 1];
      assert a + b == (a + init) + [last] && b == init + [last];
      ConcatMapSnoc(a + init, last, f);
      ConcatMapSnoc(init, last, f);
      ConcatMapAppend(a, init, f);
    }
  }

  /** Publishing one more counter appends its text. */
  lemma EncodeSnoc(cs: seq<Counter>, c: Counter, source: string, instance: string, show: real -> string)
    ensures Encode(cs + [c], source, instance, show) ==
      Encode(cs, source, instance, show) + Exposition(CounterSamples(c, source, instance, show))
  {
    ConcatMapSnoc(cs, c, c => CounterSamples(c, source, instance, show));
    ExpositionAppend(AllSamples(cs, source, instance, show), CounterSamples(c, source, instance, show));
  }

  /** The text of consecutive samples is the concatenation of their texts. */
  lemma {:induction false} ExpositionAppend(a: seq<Sample>, b: seq<Sample>)
    ensures Exposition(a + b) == Exposition(a) + Exposition(b)
    decreases |a|
  {
    if a != [] {
      assert (a + b)[0] == a[0] && (a + b)[1..] == a[1..] + b;
      ExpositionAppend(a[1..], b);
    } else {
      assert a + b == b;
    }
  }

  /** The text of a concatenation of counter lists is the concatenation of
      their texts: converting in batches and joining gives the same text. */
  lemma EncodeAppend(a: seq<Counter>, b: seq<Counter>, source: string, instance: string, show: real -> string)
    ensures Encode(a + b, source, instance, show) ==
      Encode(a, source, instance, show) + Encode(b, source, instance, show)
  {
    ConcatMapAppend(a, b, c => CounterSamples(c, source, instance, show));
    ExpositionAppend(AllSamples(a, source, instance, show), AllSamples(b, source, instance, show));
  }

  /** The counters that are published: all but the Timestamp ones, in order. */
  function Published(cs: seq<Counter>): (r: seq<Counter>)
    ensures |r| <= |cs|
    ensures forall c :: c in r ==> c in cs && c.kind != Timestamp
    decreases |cs|
  {
    if cs == [] then []
    else if cs[|cs| - 1].kind == Timestamp then Published(cs[..|cs| - 1])
    else Published(cs[..|cs| - 1]) + [cs[|cs| - 1]]
  }

  /** Timestamp counters contribute nothing: the text is that of the other
      counters alone. */
  lemma EncodeSkipsTimestamps(cs: seq<Counter>, source: string, instance: string, show: real -> string)
    ensures Encode(cs, source, instance, show) == Encode(Published(cs), source, instance, show)
  {
    var f := c => CounterSamples(c, source, instance, show);
    forall c: Counter | c.kind == Timestamp ensures f(c) == [] {
      TimestampsSilent(c, source, instance, show);
    }
    ConcatMapPublished(cs, f);
  }

  /** Dropping counters whose image is empty does not change the concatenation. */
  lemma {:induction false} ConcatMapPublished<B>(cs: seq<Counter>, f: Counter -> seq<B>)
    requires forall c: Counter :: c.kind == Timestamp ==> f(c) == []
    ensures ConcatMap(cs, f) == ConcatMap(Published(cs), f)
    decreases |cs|
  {
    if cs != [] {
      var init, last := cs[..|cs| - 1], cs[|cs| - 1];
      ConcatMapPublished(init, f);
      if last.kind == Timestamp {
        assert Published(cs) == Published(init);
        assert ConcatMap(cs, f) == ConcatMap(init, f) + [];
      } else {
        assert Published(cs) == Published(init) + [last];
        ConcatMapSnoc(Published(init), last, f);
      }
    }
  }

  /** Appending a name to a well-formed metric name keeps it well formed. */
  lemma MetricNameAppend(a: string, b: string)
    requires IsMetricName(a) && IsMetricName(b)
    ensures IsMetricName(a + b)
  {
    forall i | 0 <= i < |a + b|
      ensures !IsSeparator((a + b)[i]) && !IsUpper((a + b)[i])
    {
      if i >= |a| {
        assert (a + b)[i] == b[i - |a|];
      }
    }
  }

  /** A counter publishes no gauge exactly when it is a Timestamp counter. */
  lemma TimestampsSilent(c: Counter, source: string, instance: string, show: real -> string)
    ensures CounterSamples(c, source, instance, show) == [] <==> c.kind == Timestamp
  {
  }

  /** The number of lines a counter contributes: two for Increment and
      LastValue, eight for Interval and Statistics, none for Timestamp. */
  lemma CounterLineCount(c: Counter, source: string, instance: string, show: real -> string)
    ensures |Lines(CounterSamples(c, source, instance, show))| ==
      match c.kind
      case Increment => 2
      case LastValue => 2
      case Interval => 8
      case Statistics => 8
      case Timestamp => 0
  {
  }

  /** The text of a single Increment or LastValue counter: its type line and
      its value line, the value being `count` or `last` respectively. */
  lemma SingleValueText(c: Counter, source: string, instance: string, show: real -> string)
    requires c.kind == Increment || c.kind == LastValue
    ensures var name := ParseCounterName(c.name);
      var labels := FormatLabels(CounterLabels(c.name, source, instance));
      var v := if c.kind == Increment then show(c.count) else show(c.last);
      Encode([c], source, instance, show) ==
        "# TYPE " + name + " gauge\n" + name + labels + " " + v + "\n"
  {
    var name := ParseCounterName(c.name);
    var labels := FormatLabels(CounterLabels(c.name, source, instance));
    var v := if c.kind == Increment then show(c.count) else show(c.last);
    ConcatMapSingle(c, d => CounterSamples(d, source, instance, show));
    assert CounterSamples(c, source, instance, show) == [Sample(name, labels, v)];
    SingleGauge(Sample(name, labels, v));
    GaugeText(name, labels, v);
  }

  /** A single element maps to its image. */
  lemma ConcatMapSingle<A, B>(x: A, f: A -> seq<B>)
    ensures ConcatMap([x], f) == f(x)
  {
    assert [x][..0] == [];
  }

  /** The two lines of a gauge, spelled out. */
  lemma GaugeText(name: string, labels: string, value: string)
    ensures "# TYPE " + name + " gauge\n" + name + labels + " " + value + "\n"
      == SampleText(Sample(name, labels, value))
  {
  }

  /** Interval and Statistics counters publish the same four gauges. */
  lemma IntervalAsStatistics(c: Counter, source: string, instance: string, show: real -> string)
    ensures CounterSamples(c.(kind := Interval), source, instance, show) ==
      CounterSamples(c.(kind := Statistics), source, instance, show)
    ensures |CounterSamples(c.(kind := Interval), source, instance, show)| == 4
  {
  }

  /** Every gauge of a counter is named by a well-formed metric name that
      extends the derived counter name, and carries the counter's label suffix. */
  lemma GaugeNames(c: Counter, source: string, instance: string, show: real -> string)
    ensures forall s :: s in CounterSamples(c, source, instance, show) ==>
      IsMetricName(s.metric) &&
      ParseCounterName(c.name) <= s.metric &&
      s.labels == FormatLabels(CounterLabels(c.name, source, instance))
  {
    var name := ParseCounterName(c.name);
    var labels := FormatLabels(CounterLabels(c.name, source, instance));
    if c.kind == Interval || c.kind == Statistics {
      StatsNames(name, labels, c, show);
    }
  }

  lemma StatsNames(name: string, labels: string, c: Counter, show: real -> string)
    requires IsMetricName(name)
    ensures forall s :: s in StatsSamples(name, labels, c, show) ==>
      IsMetricName(s.metric) && name <= s.metric && s.labels == labels
  {
    MetricNameAppend(name, "_max");
    MetricNameAppend(name, "_min");
    MetricNameAppend(name, "_average");
    MetricNameAppend(name, "_count");
    assert name <= name + "_max";
    assert name <= name + "_min";
    assert name <= name + "_average";
    assert name <= name + "_count";
  }

  /** Line `2 i` of the text declares the type of gauge `i` and line `2 i + 1`
      carries its value. */
  lemma {:induction false} LinesAt(ss: seq<Sample>, i: nat)
    requires i < |ss|
    ensures Lines(ss)[2 * i] == TypeLine(ss[i])
    ensures Lines(ss)[2 * i + 1] == ValueLine(ss[i])
    decreases i
  {
    if i > 0 {
      LinesAt(ss[1..], i - 1);
    }
  }

  /** The text is its lines, each ended by a newline. */
  lemma {:induction false} ExpositionJoin(ss: seq<Sample>)
    ensures Exposition(ss) == Join(Lines(ss) + [""], '\n')
    decreases |ss|
  {
    if ss != [] {
      ExpositionJoin(ss[1..]);
      var ls := Lines(ss) + [""];
      var tail := Lines(ss[1..]) + [""];
      assert ls == [TypeLine(ss[0]), ValueLine(ss[0])] + tail;
      assert ls[1..] == [ValueLine(ss[0])] + tail && ls[1..][1..] == tail;
      assert Join(ls, '\n') == TypeLine(ss[0]) + ['\n'] + (ValueLine(ss[0]) + ['\n'] + Join(tail, '\n'));
    }
  }

  /** Neither name, label suffix nor value of a sample holds `c`. */
  predicate SampleAvoids(s: Sample, c: char) {
    c !in s.metric && c !in s.labels && c !in s.value
  }

  /** Without newlines in the pieces, splitting the text at newlines gives back
      exactly its lines and the empty remainder after the last newline. */
  lemma LinesOfExposition(ss: seq<Sample>)
    requires forall s :: s in ss ==> SampleAvoids(s, '\n')
    ensures Split(Exposition(ss), '\n') == Lines(ss) + [""]
  {
    ExpositionJoin(ss);
    var ls := Lines(ss) + [""];
    forall j | 0 <= j < |ls| ensures '\n' !in ls[j] {
      if j < |Lines(ss)| {
        LinesAt(ss, j / 2);
        assert ss[j / 2] in ss;
      }
    }
    SplitJoin(ls, '\n');
  }

  /** The gauges of a counter without newlines in its name, the context
      values or rendered numbers hold no newline. */
  lemma CounterSamplesAvoidNewline(c: Counter, source: string, instance: string, show: real -> string)
    requires '\n' !in c.name && '\n' !in source && '\n' !in instance
    requires forall x :: '\n' !in show(x)
    ensures forall s :: s in CounterSamples(c, source, instance, show) ==> SampleAvoids(s, '\n')
  {
    var name := ParseCounterName(c.name);
    ParseCounterNameChars(c.name, '\n');
    CounterLabelsAvoid(c.name, source, instance, '\n');
    FormatLabelsAvoids(CounterLabels(c.name, source, instance), '\n');
    assert '\n' !in name + "_max" && '\n' !in name + "_min";
    assert '\n' !in name + "_average" && '\n' !in name + "_count";
  }

  /** The same for a list of counters. */
  lemma {:induction false} SamplesAvoidNewline(cs: seq<Counter>, source: string, instance: string, show: real -> string)
    requires forall c :: c in cs ==> '\n' !in c.name
    requires '\n' !in source && '\n' !in instance
    requires forall x :: '\n' !in show(x)
    ensures forall s :: s in AllSamples(cs, source, instance, show) ==> SampleAvoids(s, '\n')
    decreases |cs|
  {
    if cs != [] {
      var init, c := cs[..|cs| - 1], cs[|cs| - 1];
      assert forall d :: d in init ==> d in cs;
      SamplesAvoidNewline(init, source, instance, show);
      assert c in cs && cs == init + [c];
      CounterSamplesAvoidNewline(c, source, instance, show);
      ConcatMapSnoc(init, c, c => CounterSamples(c, source, instance, show));
    }
  }

  /** The published text, split at newlines, is exactly two lines per gauge:
      its type declaration and its value line, in order. */
  lemma EncodeLines(cs: seq<Counter>, source: string, instance: string, show: real -> string)
    requires forall c :: c in cs ==> '\n' !in c.name
    requires '\n' !in source && '\n' !in instance
    requires forall x :: '\n' !in show(x)
    ensures Split(Encode(cs, source, instance, show), '\n') == Lines(AllSamples(cs, source, instance, show)) + [""]
  {
    SamplesAvoidNewline(cs, source, instance, show);
    LinesOfExposition(AllSamples(cs, source, instance, show));
  }
}
