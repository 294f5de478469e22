/**
 * Label derivation and formatting (`generateCounterLabel`): the context labels
 * `source` and `instance`, then the labels recovered from the naming
 * conventions of the dotted counter name, rendered as `{k1="v1",k2="v2"}`.
 */
module LabelGeneration {
  import opened Wrappers
  import opened Text
  import opened CounterName
  import opened LabelSet

  /** The six label keys the converter ever assigns. */
  datatype LabelKey = Source | Instance | Service | Command | Target | Queue

  /** The key as it appears in the output. */
  function KeyName(k: LabelKey): string {
    match k
    case Source => "source"
    case Instance => "instance"
    case Service => "service"
    case Command => "command"
    case Target => "target"
    case Queue => "queue"
  }

  /** Every label key, in the order the labels are generated. */
  const AllKeys: seq<LabelKey> := [Source, Instance, Service, Command, Target, Queue]

  /** The first key of `ks` named `s`, if any. */
  function FindKey(ks: seq<LabelKey>, s: string): (r: Option<LabelKey>)
    ensures r.Some? ==> r.value in ks && KeyName(r.value) == s
    decreases |ks|
  {
    if ks == [] then None
    else if KeyName(ks[0]) == s then Some(ks[0])
    else FindKey(ks[1..], s)
  }

  /** The key a rendered key name stands for, if any. */
  function KeyOf(s: string): Option<LabelKey> {
    FindKey(AllKeys, s)
  }

  type CounterLabel = Label<LabelKey>

  /** The context labels, each present only when non-empty. */
  function WithContext(source: string, instance: string): seq<CounterLabel> {
    var l := if source != "" then Put([], Source, source) else [];
    if instance != "" then Put(l, Instance, instance) else l
  }

  /** The exec rule: `service` and `command` from the first two parts. */
  function WithExec(l: seq<CounterLabel>, parts: seq<string>): seq<CounterLabel> {
    if IsExec(parts) then Put(Put(l, Service, parts[0]), Command, parts[1]) else l
  }

  /** The call rule: `service`, `command`, then `target`, from the first three parts. */
  function WithCall(l: seq<CounterLabel>, parts: seq<string>): seq<CounterLabel> {
    if IsCall(parts) then Put(Put(Put(l, Service, parts[1]), Command, parts[2]), Target, parts[0])
    else l
  }

  /** The queue rule: `queue` from the second part. */
  function WithQueue(l: seq<CounterLabel>, parts: seq<string>): seq<CounterLabel> {
    if IsQueue(parts) then Put(l, Queue, parts[1]) else l
  }

  /** The labels of a counter: the rules applied in order, later assignments
      overwriting earlier ones. */
  function CounterLabels(name: string, source: string, instance: string): seq<CounterLabel> {
    var parts := Split(name, '.');
    WithQueue(WithCall(WithExec(WithContext(source, instance), parts), parts), parts)
  }

  /** `key="value"`. */
  function RenderLabel(e: CounterLabel): string {
    KeyName(e.0) + "=\"" + e.1 + "\""
  }

  /** The rendered labels separated by commas. */
  function JoinLabels(es: seq<CounterLabel>): (r: string)
    ensures es != [] ==> |r| >= 3
    decreases |es|
  {
    if es == [] then ""
    else if |es| == 1 then RenderLabel(es[0])
    else RenderLabel(es[0]) + "," + JoinLabels(es[1..])
  }

  /** The label suffix of a metric line: empty without labels, otherwise the
      labels in braces. */
  function FormatLabels(es: seq<CounterLabel>): string {
    if es == [] then "" else "{" + JoinLabels(es) + "}"
  }

  /** Appending a label to a non-empty list appends a comma and the label. */
  lemma {:induction false} JoinLabelsSnoc(es: seq<CounterLabel>, e: CounterLabel)
    requires es != []
    ensures JoinLabels(es + [e]) == JoinLabels(es) + "," + RenderLabel(e)
    decreases |es|
  {
    var t := es + [e];
    var head := RenderLabel(es[0]);
    assert t[0] == es[0];
    if |es| == 1 {
      assert t[1..] == [e];
      assert JoinLabels(t) == head + "," + JoinLabels([e]);
    } else {
      assert t[1..] == es[1..] + [e];
      JoinLabelsSnoc(es[1..], e);
      assert JoinLabels(t) == head + "," + (JoinLabels(es[1..]) + "," + RenderLabel(e));
      assert JoinLabels(es) == head + "," + JoinLabels(es[1..]);
    }
  }

  /** The context labels: `source` then `instance`, each only when non-empty. */
  lemma ContextKeys(source: string, instance: string)
    ensures KeysOf(WithContext(source, instance)) ==
      (if source != "" then [Source] else []) + (if instance != "" then [Instance] else [])
  {
    var l0 := if source != "" then Put([], Source, source) else [];
    PutKeys([], Source, source);
    PutLookup([], Source, source, Instance);
    PutKeys(l0, Instance, instance);
  }

  lemma ContextLookup(source: string, instance: string, q: LabelKey)
    ensures Lookup(WithContext(source, instance), q) ==
      (if q == Instance && instance != "" then Some(instance)
       else if q == Source && source != "" then Some(source)
       else None)
  {
    var l0 := if source != "" then Put([], Source, source) else [];
    PutLookup([], Source, source, q);
    PutLookup(l0, Instance, instance, q);
  }

  /** The exec rule appends `service` and `command` to labels that lack them. */
  lemma ExecKeys(c: seq<CounterLabel>, parts: seq<string>)
    requires Lookup(c, Service).None? && Lookup(c, Command).None?
    ensures KeysOf(WithExec(c, parts)) == KeysOf(c) + (if IsExec(parts) then [Service, Command] else [])
  {
    if IsExec(parts) {
      PutKeys(c, Service, parts[0]);
      PutLookup(c, Service, parts[0], Command);
      PutKeys(Put(c, Service, parts[0]), Command, parts[1]);
    }
  }

  lemma ExecLookup(c: seq<CounterLabel>, parts: seq<string>, q: LabelKey)
    ensures Lookup(WithExec(c, parts), q) ==
      (if IsExec(parts) && q == Command then Some(parts[1])
       else if IsExec(parts) && q == Service then Some(parts[0])
       else Lookup(c, q))
  {
    if IsExec(parts) {
      PutLookup(c, Service, parts[0], q);
      PutLookup(Put(c, Service, parts[0]), Command, parts[1], q);
    }
  }

  /** The call rule overwrites `service` and `command` in place when present,
      appends them otherwise, and appends `target`. */
  lemma CallKeys(e: seq<CounterLabel>, parts: seq<string>)
    requires Lookup(e, Target).None?
    requires Lookup(e, Service).None? == Lookup(e, Command).None?
    ensures KeysOf(WithCall(e, parts)) == KeysOf(e) +
      (if IsCall(parts) && Lookup(e, Service).None? then [Service, Command] else []) +
      (if IsCall(parts) then [Target] else [])
  {
    if IsCall(parts) {
      var e1 := Put(e, Service, parts[1]);
      var e2 := Put(e1, Command, parts[2]);
      PutKeys(e, Service, parts[1]);
      PutLookup(e, Service, parts[1], Command);
      PutLookup(e, Service, parts[1], Target);
      PutKeys(e1, Command, parts[2]);
      PutLookup(e1, Command, parts[2], Target);
      PutKeys(e2, Target, parts[0]);
    }
  }

  lemma CallLookup(e: seq<CounterLabel>, parts: seq<string>, q: LabelKey)
    ensures Lookup(WithCall(e, parts), q) ==
      (if IsCall(parts) && q == Target then Some(parts[0])
       else if IsCall(parts) && q == Command then Some(parts[2])
       else if IsCall(parts) && q == Service then Some(parts[1])
       else Lookup(e, q))
  {
    if IsCall(parts) {
      var e1 := Put(e, Service, parts[1]);
      var e2 := Put(e1, Command, parts[2]);
      PutLookup(e, Service, parts[1], q);
      PutLookup(e1, Command, parts[2], q);
      PutLookup(e2, Target, parts[0], q);
    }
  }

  /** The queue rule appends `queue`. */
  lemma QueueKeys(k: seq<CounterLabel>, parts: seq<string>)
    requires Lookup(k, Queue).None?
    ensures KeysOf(WithQueue(k, parts)) == KeysOf(k) + (if IsQueue(parts) then [Queue] else [])
  {
    if IsQueue(parts) {
      PutKeys(k, Queue, parts[1]);
    }
  }

  lemma QueueLookup(k: seq<CounterLabel>, parts: seq<string>, q: LabelKey)
    ensures Lookup(WithQueue(k, parts), q) ==
      (if IsQueue(parts) && q == Queue then Some(parts[1]) else Lookup(k, q))
  {
    if IsQueue(parts) {
      PutLookup(k, Queue, parts[1], q);
    }
  }

  /** The label order of a counter: `source` and `instance` first when
      non-empty; `service` and `command` next when the exec or the call rule
      applies; then `target` for the call rule and `queue` for the queue rule.
      A key assigned twice keeps its first position. */
  lemma CounterLabelKeys(name: string, source: string, instance: string)
    ensures var parts := Split(name, '.');
      KeysOf(CounterLabels(name, source, instance)) ==
        (if source != "" then [Source] else []) +
        (if instance != "" then [Instance] else []) +
        (if IsExec(parts) || IsCall(parts) then [Service, Command] else []) +
        (if IsCall(parts) then [Target] else []) +
        (if IsQueue(parts) then [Queue] else [])
  {
    var parts := Split(name, '.');
    var c := WithContext(source, instance);
    ContextKeys(source, instance);
    ContextLookup(source, instance, Service);
    ContextLookup(source, instance, Command);
    var e := WithExec(c, parts);
    ExecKeys(c, parts);
    ContextLookup(source, instance, Target);
    ExecLookup(c, parts, Target);
    ExecLookup(c, parts, Service);
    ExecLookup(c, parts, Command);
    var k := WithCall(e, parts);
    CallKeys(e, parts);
    ContextLookup(source, instance, Queue);
    ExecLookup(c, parts, Queue);
    CallLookup(e, parts, Queue);
    QueueKeys(k, parts);
    var ctx := KeysOf(c);
    var sc := if IsExec(parts) || IsCall(parts) then [Service, Command] else [];
    var t := if IsCall(parts) then [Target] else [];
    if IsExec(parts) {
      assert KeysOf(e) == ctx + sc && Lookup(e, Service).Some?;
      assert KeysOf(k) == ctx + sc + t;
    } else {
      assert KeysOf(e) == ctx && Lookup(e, Service).None?;
      assert KeysOf(k) == ctx + sc + t;
    }
  }

  /** No label key appears twice. */
  lemma CounterLabelsDistinct(name: string, source: string, instance: string)
    ensures Distinct(KeysOf(CounterLabels(name, source, instance)))
  {
    var parts := Split(name, '.');
    var c := WithContext(source, instance);
    var l0 := if source != "" then Put([], Source, source) else [];
    PutDistinct([], Source, source);
    PutDistinct(l0, Instance, instance);
    var e := WithExec(c, parts);
    if IsExec(parts) {
      PutDistinct(c, Service, parts[0]);
      PutDistinct(Put(c, Service, parts[0]), Command, parts[1]);
    }
    var k := WithCall(e, parts);
    if IsCall(parts) {
      PutDistinct(e, Service, parts[1]);
      PutDistinct(Put(e, Service, parts[1]), Command, parts[2]);
      PutDistinct(Put(Put(e, Service, parts[1]), Command, parts[2]), Target, parts[0]);
    }
    if IsQueue(parts) {
      PutDistinct(k, Queue, parts[1]);
    }
  }

  /** The value of every label of a counter. When both the exec and the call
      rule apply, the call rule's later assignments win. */
  lemma CounterLabelValue(name: string, source: string, instance: string, q: LabelKey)
    ensures var parts := Split(name, '.');
      Lookup(CounterLabels(name, source, instance), q) ==
        match q
        case Source => if source != "" then Some(source) else None
        case Instance => if instance != "" then Some(instance) else None
        case Service =>
          if IsCall(parts) then Some(parts[1]) else if IsExec(parts) then Some(parts[0]) else None
        case Command =>
          if IsCall(parts) then Some(parts[2]) else if IsExec(parts) then Some(parts[1]) else None
        case Target => if IsCall(parts) then Some(parts[0]) else None
        case Queue => if IsQueue(parts) then Some(parts[1]) else None
  {
    var parts := Split(name, '.');
    var c := WithContext(source, instance);
    ContextLookup(source, instance, q);
    var e := WithExec(c, parts);
    ExecLookup(c, parts, q);
    var k := WithCall(e, parts);
    CallLookup(e, parts, q);
    QueueLookup(k, parts, q);
  }

  /** A name of two segments matches no naming convention, whatever its
      segments are: its metric name is the sanitized whole name and it gets
      only the context labels. */
  lemma TwoSegmentName(a: string, b: string, source: string, instance: string)
    requires '.' !in a && '.' !in b
    ensures ParseCounterName(a + "." + b) == Sanitize(a + "." + b)
    ensures CounterLabels(a + "." + b, source, instance) == WithContext(source, instance)
  {
    var t := "." + b;
    assert t[0] == '.' && t[1..] == b;
    SplitSingle(b, '.');
    assert Split(t, '.') == ["", b];
    SplitUndotted(a, t, '.');
    assert a + t == a + "." + b;
    assert |Split(a + "." + b, '.')| == 2;
  }

  /** Every entry of an assignment is the assigned one or an old one. */
  lemma {:induction false} PutEntries(es: seq<CounterLabel>, k: LabelKey, v: string)
    ensures forall e :: e in Put(es, k, v) ==> e == (k, v) || e in es
    decreases |es|
  {
    if es != [] && es[0].0 != k {
      PutEntries(es[1..], k, v);
    }
  }

  /** No label value holds `c`. */
  predicate ValuesAvoid(es: seq<CounterLabel>, c: char) {
    forall e :: e in es ==> c !in e.1
  }

  lemma PutAvoids(es: seq<CounterLabel>, k: LabelKey, v: string, c: char)
    requires ValuesAvoid(es, c) && c !in v
    ensures ValuesAvoid(Put(es, k, v), c)
  {
    PutEntries(es, k, v);
  }

  /** A label value holds only characters of the context values and the counter
      name. */
  lemma CounterLabelsAvoid(name: string, source: string, instance: string, c: char)
    requires c !in name && c !in source && c !in instance
    ensures ValuesAvoid(CounterLabels(name, source, instance), c)
  {
    var parts := Split(name, '.');
    forall i | 0 <= i < |parts| ensures c !in parts[i] {
      if c in parts[i] { SplitChars(name, '.', i, c); }
    }
    var l0 := if source != "" then Put([], Source, source) else [];
    if source != "" { PutAvoids([], Source, source, c); }
    var ctx := WithContext(source, instance);
    if instance != "" { PutAvoids(l0, Instance, instance, c); }
    var e := WithExec(ctx, parts);
    if IsExec(parts) {
      PutAvoids(ctx, Service, parts[0], c);
      PutAvoids(Put(ctx, Service, parts[0]), Command, parts[1], c);
    }
    var k := WithCall(e, parts);
    if IsCall(parts) {
      PutAvoids(e, Service, parts[1], c);
      PutAvoids(Put(e, Service, parts[1]), Command, parts[2], c);
      PutAvoids(Put(Put(e, Service, parts[1]), Command, parts[2]), Target, parts[0], c);
    }
    if IsQueue(parts) {
      PutAvoids(k, Queue, parts[1], c);
    }
  }

  /** The characters of the label syntax: lower-case letters of the key names
      and the punctuation `{`, `}`, `=`, `"` and `,`. */
  predicate IsLabelSyntax(c: char) {
    'a' <= c <= 'z' || c == '{' || c == '}' || c == '=' || c == '"' || c == ','
  }

  lemma {:induction false} JoinLabelsAvoids(es: seq<CounterLabel>, c: char)
    requires ValuesAvoid(es, c) && !IsLabelSyntax(c)
    ensures c !in JoinLabels(es)
    decreases |es|
  {
    if es != [] {
      assert es[0] in es;
      assert c !in KeyName(es[0].0);
      assert c !in RenderLabel(es[0]);
      if |es| > 1 {
        assert forall e :: e in es[1..] ==> e in es;
        JoinLabelsAvoids(es[1..], c);
      }
    }
  }

  /** A character outside the label syntax appears in the label suffix only
      if some value holds it. */
  lemma FormatLabelsAvoids(es: seq<CounterLabel>, c: char)
    requires ValuesAvoid(es, c) && !IsLabelSyntax(c)
    ensures c !in FormatLabels(es)
  {
    JoinLabelsAvoids(es, c);
  }

  /** Reads back a label suffix: "" is no labels, otherwise `{` and the entries. */
  function ParseLabels(s: string): Option<seq<CounterLabel>> {
    if s == "" then Some([])
    else if s[0] != '{' then None
    else ParseEntries(s[1..])
  }

  /** Reads one `key="value"` entry: the key up to the first `=`, the value
      between the next two double quotes; returns the entry and the text after it. */
  function ParseEntry(s: string): (r: Option<(CounterLabel, string)>)
    ensures r.Some? ==> |r.value.1| < |s|
  {
    var i := IndexOf(s, '=');
    if i + 1 >= |s| || s[i + 1] != '"' || KeyOf(s[..i]).None? then None
    else
      var rest := s[i + 2..];
      var j := IndexOf(rest, '"');
      if j >= |rest| then None
      else Some(((KeyOf(s[..i]).value, rest[..j]), rest[j + 1..]))
  }

  /** Reads entries separated by commas up to the closing `}`. */
  function ParseEntries(s: string): Option<seq<CounterLabel>>
    decreases |s|
  {
    match ParseEntry(s)
    case None => None
    case Some((e, tail)) =>
      if tail == "}" then Some([e])
      else if tail == "" || tail[0] != ',' then None
      else match ParseEntries(tail[1..])
        case None => None
        case Some(es) => Some([e] + es)
  }

  /** No key name holds `=` or `"`, and each names its key. */
  lemma KeyNameChars(k: LabelKey)
    ensures '=' !in KeyName(k) && '"' !in KeyName(k)
    ensures KeyOf(KeyName(k)) == Some(k)
  {
  }

  /** Reading one entry: the key up to the first `=`, the value up to the next
      `"`, and what follows it. */
  lemma ParseEntryPrefix(k: LabelKey, v: string, after: string, s: string)
    requires '"' !in v
    requires s == RenderLabel((k, v)) + after
    ensures ParseEntry(s) == Some(((k, v), after))
  {
    var name := KeyName(k);
    KeyNameChars(k);
    var rest := v + ("\"" + after);
    Associate(name + "=\"", v, "\"", after);
    KeyPart(name, rest, s);
    ValuePart(v, after, rest);
    ParseEntryAt(s, name, k, rest, v, after);
  }

  /** Proof step for `ParseEntryPrefix`: regrouping four strings. */
  lemma Associate(a: string, b: string, c: string, d: string)
    ensures a + b + c + d == a + (b + (c + d))
  {
  }

  /** ParseEntry on text whose key part and value part are known. */
  lemma ParseEntryAt(s: string, name: string, k: LabelKey, rest: string, v: string, after: string)
    requires IndexOf(s, '=') == |name| && |name| + 1 < |s| && s[|name| + 1] == '"'
    requires s[..|name|] == name && s[|name| + 2..] == rest && KeyOf(name) == Some(k)
    requires IndexOf(rest, '"') == |v| < |rest|
    requires rest[..|v|] == v && rest[|v| + 1..] == after
    ensures ParseEntry(s) == Some(((k, v), after))
  {
    var i := IndexOf(s, '=');
    assert s[..i] == name && s[i + 2..] == rest;
    var j := IndexOf(s[i + 2..], '"');
    assert j == |v|;
  }

  /** The key part of an entry: the first `=` ends the name and a quote follows. */
  lemma KeyPart(name: string, rest: string, s: string)
    requires '=' !in name
    requires s == name + "=\"" + rest
    ensures IndexOf(s, '=') == |name| && |name| + 1 < |s| && s[|name| + 1] == '"'
    ensures s[..|name|] == name && s[|name| + 2..] == rest
  {
    var t := ['=', '"'] + rest;
    assert s == name + t;
    assert s[..|name|] == name && s[|name|..] == t;
    IndexOfAt(s, '=', |name|);
  }

  /** The value part of an entry: the first quote ends the value. */
  lemma ValuePart(v: string, after: string, rest: string)
    requires '"' !in v
    requires rest == v + ("\"" + after)
    ensures IndexOf(rest, '"') == |v| < |rest|
    ensures rest[..|v|] == v && rest[|v| + 1..] == after
  {
    assert rest[|v|] == '"';
    IndexOfAt(rest, '"', |v|);
    assert rest[|v|..] == "\"" + after;
  }

  /** An entry followed by a comma and readable entries reads as their list. */
  lemma ParseEntriesCons(s: string, e: CounterLabel, rest: string, es: seq<CounterLabel>)
    requires ParseEntry(s) == Some((e, "," + rest))
    requires ParseEntries(rest) == Some(es)
    ensures ParseEntries(s) == Some([e] + es)
  {
    assert ("," + rest)[1..] == rest;
  }

  /** A single rendered entry with the closing brace reads back as that entry. */
  lemma ParseSingleLabel(e: CounterLabel)
    requires '"' !in e.1
    ensures ParseEntries(JoinLabels([e]) + "}") == Some([e])
  {
    ParseEntryPrefix(e.0, e.1, "}", JoinLabels([e]) + "}");
  }

  /** A rendered entry in front of readable rendered entries reads back as the
      longer list. */
  lemma ParseConsLabel(e: CounterLabel, tail: seq<CounterLabel>)
    requires '"' !in e.1 && tail != []
    requires ParseEntries(JoinLabels(tail) + "}") == Some(tail)
    ensures ParseEntries(JoinLabels([e] + tail) + "}") == Some([e] + tail)
  {
    var rest := JoinLabels(tail) + "}";
    var s := JoinLabels([e] + tail) + "}";
    JoinLabelsCons(e, tail);
    ParseEntryPrefix(e.0, e.1, "," + rest, s);
    ParseEntriesCons(s, e, rest, tail);
  }

  /** The rendering of a longer list, closed by a brace: the first entry, a
      comma and the rest. */
  lemma JoinLabelsCons(e: CounterLabel, tail: seq<CounterLabel>)
    requires tail != []
    ensures JoinLabels([e] + tail) + "}" == RenderLabel(e) + ("," + (JoinLabels(tail) + "}"))
  {
    var es := [e] + tail;
    assert es[0] == e && es[1..] == tail;
    assert JoinLabels(es) == RenderLabel(e) + "," + JoinLabels(tail);
  }

  /** Reading the entries back after rendering them gives the entries. */
  lemma {:induction false} ParseJoinLabels(es: seq<CounterLabel>)
    requires es != [] && ValuesAvoid(es, '"')
    ensures ParseEntries(JoinLabels(es) + "}") == Some(es)
    decreases |es|
  {
    assert es[0] in es;
    if |es| == 1 {
      ParseSingleLabel(es[0]);
      assert es == [es[0]];
    } else {
      var tail := es[1..];
      assert ValuesAvoid(tail, '"') by {
        forall e | e in tail ensures '"' !in e.1 {
          assert e in es;
        }
      }
      ParseJoinLabels(tail);
      ParseConsLabel(es[0], tail);
      assert [es[0]] + tail == es;
    }
  }

  /** The label suffix is unambiguous: it reads back as the labels it renders
      when no value holds a double quote. */
  lemma ParseFormatLabels(es: seq<CounterLabel>)
    requires ValuesAvoid(es, '"')
    ensures ParseLabels(FormatLabels(es)) == Some(es)
  {
    if es != [] {
      ParseJoinLabels(es);
      var body := JoinLabels(es) + "}";
      var t := FormatLabels(es);
      assert t == ['{'] + body;
      assert t[0] == '{' && t[1..] == body;
      assert ParseLabels(t) == ParseEntries(body);
    }
  }

  /** A counter's label suffix reads back as its labels whenever neither the
      counter name nor the context values hold a double quote. */
  lemma CounterLabelsRoundTrip(name: string, source: string, instance: string)
    requires '"' !in name && '"' !in source && '"' !in instance
    ensures ParseLabels(FormatLabels(CounterLabels(name, source, instance))) == Some(CounterLabels(name, source, instance))
  {
    CounterLabelsAvoid(name, source, instance, '"');
    ParseFormatLabels(CounterLabels(name, source, instance));
  }

  /** `parseCounterLabels`, a private label rule set that nothing calls: the context
      labels, and `service` and `command` only for the `exec_time` suffix. */
  function ParseCounterLabels(name: string, source: string, instance: string): seq<CounterLabel> {
    var parts := Split(name, '.');
    var l := WithContext(source, instance);
    if |parts| >= 3 && parts[2] == "exec_time" then Put(Put(l, Service, parts[0]), Command, parts[1])
    else l
  }

  /** The unused rule set agrees with the labels that are published whenever
      neither the call nor the queue rule applies and an exec suffix, if any,
      is `exec_time`; otherwise it lacks the labels of the other rules. */
  lemma UnusedLabelsAgree(name: string, source: string, instance: string)
    requires var parts := Split(name, '.');
      !IsCall(parts) && !IsQueue(parts) && (IsExec(parts) ==> parts[2] == "exec_time")
    ensures ParseCounterLabels(name, source, instance) == CounterLabels(name, source, instance)
  {
  }

  /** The unused rule set drops the `service` and `command` labels of the
      `exec_count` and `exec_errors` counters. */
  lemma UnusedLabelsMissExecCount(name: string, source: string, instance: string)
    requires var parts := Split(name, '.');
      IsExec(parts) && parts[2] != "exec_time"
    ensures Lookup(ParseCounterLabels(name, source, instance), Service).None?
    ensures Lookup(CounterLabels(name, source, instance), Service).Some?
  {
    ContextLookup(source, instance, Service);
    CounterLabelValue(name, source, instance, Service);
  }

  /** `generateCounterLabel`: fills a fresh label dictionary by the rules, then
      renders it. */
  method GenerateCounterLabel(name: string, source: string, instance: string) returns (r: string)
    ensures r == FormatLabels(CounterLabels(name, source, instance))
  {
    var labels := new LabelMap<LabelKey>();
    if source != "" { labels.Set(Source, source); }
    if instance != "" { labels.Set(Instance, instance); }
    ghost var context := labels.Entries();
    assert context == WithContext(source, instance);

    var nameParts := Split(name, '.');
    if IsExec(nameParts) {
      labels.Set(Service, nameParts[0]);
      labels.Set(Command, nameParts[1]);
    }
    ghost var exec := labels.Entries();
    assert exec == WithExec(context, nameParts);
    if IsCall(nameParts) {
      labels.Set(Service, nameParts[1]);
      labels.Set(Command, nameParts[2]);
      labels.Set(Target, nameParts[0]);
    }
    ghost var call := labels.Entries();
    assert call == WithCall(exec, nameParts);
    if IsQueue(nameParts) {
      labels.Set(Queue, nameParts[1]);
    }
    assert labels.Entries() == WithQueue(call, nameParts);
    r := RenderLabelMap(labels);
  }

  /** One turn of the rendering loop over a dictionary: a comma unless the
      builder holds only `{`, then the next entry. */
  lemma RenderStep(keys: seq<LabelKey>, values: map<LabelKey, string>, i: nat, builder: string)
    requires forall k :: k in keys ==> k in values
    requires i < |keys|
    requires builder == "{" + JoinLabels(Zip(keys, values)[..i])
    ensures (if |builder| > 1 then builder + "," else builder) + (KeyName(keys[i]) + "=\"" + values[keys[i]] + "\"")
      == "{" + JoinLabels(Zip(keys, values)[..i + 1])
  {
    var entries := Zip(keys, values);
    var done, e := entries[..i], entries[i];
    ZipAt(keys, values, i);
    assert entries[..i + 1] == done + [e];
    if done == [] {
      assert done + [e] == [e];
    } else {
      JoinLabelsSnoc(done, e);
    }
  }

  /** The rendering half of `generateCounterLabel`: "" for an empty dictionary,
      otherwise `{`, the entries in key order separated by commas, and `}`. */
  method RenderLabelMap(labels: LabelMap<LabelKey>) returns (r: string)
    requires labels.Valid()
    ensures r == FormatLabels(labels.Entries())
  {
    var keys, values := labels.keys, labels.values;
    if |keys| == 0 {
      return "";
    }
    ghost var entries := Zip(keys, values);
    var builder := "{";
    var i := 0;
    while i < |keys|
      invariant 0 <= i <= |keys| == |entries|
      invariant builder == "{" + JoinLabels(entries[..i])
    {
      var key := keys[i];
      var item := KeyName(key) + "=\"" + values[key] + "\"";
      RenderStep(keys, values, i, builder);
      if |builder| > 1 {
        builder := builder + ",";
      }
      builder := builder + item;
      i := i + 1;
    }
    assert entries[..i] == entries;
    builder := builder + "}";
    r := builder;
  }
}
