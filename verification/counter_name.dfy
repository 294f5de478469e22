/**
 * Metric-name derivation (`parseCounterName`): the dotted counter name is split
 * on dots and the first matching naming convention decides the metric name.
 */
module CounterName {
  import opened Text

  predicate IsExecSuffix(s: string) {
    s == "exec_count" || s == "exec_time" || s == "exec_errors"
  }

  predicate IsCallSuffix(s: string) {
    s == "call_count" || s == "call_time" || s == "call_errors"
  }

  predicate IsQueueSuffix(s: string) {
    s == "sent_messages" || s == "received_messages" || s == "dead_messages"
  }

  /** `service.command.exec_*`: the third part names a command metric. */
  predicate IsExec(parts: seq<string>) {
    |parts| >= 3 && IsExecSuffix(parts[2])
  }

  /** `target.service.command.call_*`: the fourth part names a client call metric. */
  predicate IsCall(parts: seq<string>) {
    |parts| >= 4 && IsCallSuffix(parts[3])
  }

  /** `x.queue.*_messages`: the third part names a queue metric. */
  predicate IsQueue(parts: seq<string>) {
    |parts| >= 3 && IsQueueSuffix(parts[2])
  }

  /** A well-formed metric name: no separator and no upper-case letter. */
  predicate IsMetricName(s: string) {
    forall i :: 0 <= i < |s| ==> !IsSeparator(s[i]) && !IsUpper(s[i])
  }

  /** What sanitizing does to one character. */
  function SanitizeChar(c: char): char {
    if IsSeparator(LowerChar(c)) then '_' else LowerChar(c)
  }

  /** Lower-casing followed by the replacement of `.`, `+` and `/` by `_`. */
  function Sanitize(s: string): (r: string)
    ensures |r| == |s|
    ensures forall i :: 0 <= i < |s| ==> r[i] == SanitizeChar(s[i])
    ensures IsMetricName(r)
  {
    ReplaceSeparators(ToLower(s))
  }

  /** The metric name of a counter. The three exec suffixes, then the three call
      suffixes, are returned as they are; queue names become the sanitized
      `part0.part2`; anything else is the sanitized whole name. */
  function ParseCounterName(name: string): (r: string)
    ensures IsMetricName(r)
  {
    var parts := Split(name, '.');
    if IsExec(parts) then parts[2]
    else if IsCall(parts) then parts[3]
    else if IsQueue(parts) then Sanitize(parts[0] + "." + parts[2])
    else Sanitize(name)
  }

  /** Sanitizing changes nothing in a well-formed metric name. */
  lemma SanitizeFixes(s: string)
    requires IsMetricName(s)
    ensures Sanitize(s) == s
  {
  }

  /** Sanitizing twice is sanitizing once. */
  lemma SanitizeIdempotent(s: string)
    ensures Sanitize(Sanitize(s)) == Sanitize(s)
  {
    SanitizeFixes(Sanitize(s));
  }

  /** Sanitizing works character by character, so it distributes over concatenation. */
  lemma SanitizeAppend(a: string, b: string)
    ensures Sanitize(a + b) == Sanitize(a) + Sanitize(b)
  {
  }

  /** A derived metric name is a fixed point of name derivation: it has a single
      part, matches no convention, and sanitizing leaves it unchanged. */
  lemma ParseCounterNameIdempotent(name: string)
    ensures ParseCounterName(ParseCounterName(name)) == ParseCounterName(name)
  {
    var r := ParseCounterName(name);
    assert forall i :: 0 <= i < |r| ==> r[i] != '.';
    SplitSingle(r, '.');
    SanitizeFixes(r);
  }

  /** Precedence: an exec suffix in the third part wins over everything else,
      whatever the other parts are. */
  lemma ExecNameWins(name: string)
    requires IsExec(Split(name, '.'))
    ensures ParseCounterName(name) == Split(name, '.')[2]
    ensures IsExecSuffix(ParseCounterName(name))
  {
  }

  /** Precedence: a call suffix in the fourth part decides the name unless an
      exec suffix sits in the third part. */
  lemma CallNameSecond(name: string)
    requires !IsExec(Split(name, '.')) && IsCall(Split(name, '.'))
    ensures ParseCounterName(name) == Split(name, '.')[3]
    ensures IsCallSuffix(ParseCounterName(name))
  {
  }

  /** A queue counter `x.q.sent_messages` is named `x_sent_messages` with `x`
      sanitized: the queue part is dropped from the name. */
  lemma QueueName(name: string)
    requires !IsExec(Split(name, '.')) && !IsCall(Split(name, '.')) && IsQueue(Split(name, '.'))
    ensures ParseCounterName(name) == Sanitize(Split(name, '.')[0]) + "_" + Split(name, '.')[2]
  {
    var parts := Split(name, '.');
    QueueSuffixIsMetricName(parts[2]);
    SanitizeDotted(parts[0], parts[2]);
  }

  lemma QueueSuffixIsMetricName(s: string)
    requires IsQueueSuffix(s)
    ensures IsMetricName(s)
  {
  }

  /** Sanitizing `a.b` for a well-formed `b` sanitizes `a` and turns the dot into `_`. */
  lemma SanitizeDotted(a: string, b: string)
    requires IsMetricName(b)
    ensures Sanitize(a + "." + b) == Sanitize(a) + "_" + b
  {
    var lhs := Sanitize(a + "." + b);
    var rhs := Sanitize(a) + "_" + b;
    assert |lhs| == |rhs|;
    forall i | 0 <= i < |lhs| ensures lhs[i] == rhs[i] {
      if i > |a| {
        assert (a + "." + b)[i] == b[i - |a| - 1];
      }
    }
  }

  /** Without a known convention the name is the whole counter name, sanitized,
      of the same length. */
  lemma FallbackName(name: string)
    requires !IsExec(Split(name, '.')) && !IsCall(Split(name, '.')) && !IsQueue(Split(name, '.'))
    ensures ParseCounterName(name) == Sanitize(name)
    ensures |ParseCounterName(name)| == |name|
  {
  }

  /** A character other than a letter, `_` or a separator appears in the metric
      name only if it appears in the counter name. */
  lemma ParseCounterNameChars(name: string, c: char)
    requires c !in name && c !in "_.+/" && !IsUpper(c) && !('a' <= c <= 'z')
    ensures c !in ParseCounterName(name)
  {
    var parts := Split(name, '.');
    if IsExec(parts) {
      if c in parts[2] { SplitChars(name, '.', 2, c); }
    } else if IsCall(parts) {
      if c in parts[3] { SplitChars(name, '.', 3, c); }
    } else if IsQueue(parts) {
      var s := parts[0] + "." + parts[2];
      if c in parts[0] { SplitChars(name, '.', 0, c); }
      if c in parts[2] { SplitChars(name, '.', 2, c); }
      assert forall i :: 0 <= i < |s| ==> s[i] != c;
      assert forall i :: 0 <= i < |s| ==> Sanitize(s)[i] != c;
    } else {
      assert forall i :: 0 <= i < |name| ==> Sanitize(name)[i] != c;
    }
  }
}
