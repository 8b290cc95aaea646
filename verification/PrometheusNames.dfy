/** Names and label values in the Prometheus text format
    (src/exporter/prometheus/mod.rs:17-69), and the parser that reads a sample
    line back. */
module PrometheusNames {
  import opened Wrappers

  // ----- names -----

  predicate IsNameStart(c: char) { 'a' <= c <= 'z' || 'A' <= c <= 'Z' || c == '_' }

  predicate IsDigit(c: char) { '0' <= c <= '9' }

  predicate IsNameChar(c: char) { IsNameStart(c) || IsDigit(c) }

  /** Does the string match `[a-zA-Z_][a-zA-Z0-9_]*`? */
  predicate LegalName(s: string) {
    s != "" && IsNameStart(s[0]) && forall i :: 0 <= i < |s| ==> IsNameChar(s[i])
  }

  function Clean(c: char): char {
    if IsNameChar(c) then c else '_'
  }

  function Cleaned(s: string, n: nat): (r: string)
    requires n <= |s|
    ensures |r| == n && forall i :: 0 <= i < n ==> r[i] == Clean(s[i])
  {
    if n == 0 then "" else Cleaned(s, n - 1) + [Clean(s[n - 1])]
  }

  function Sanitized(s: string): string {
    if s == "" then "_" else (if IsDigit(s[0]) then "_" else "") + Cleaned(s, |s|)
  }

  method SanitizeName(s: string) returns (out: string)
    ensures out == Sanitized(s)
  {
    out := "";
    for i := 0 to |s|
      invariant out == (if i > 0 && IsDigit(s[0]) then "_" else "") + Cleaned(s, i)
    {
      var c := s[i];
      if IsNameChar(c) {
        if i == 0 && IsDigit(c) {
          out := out + "_";
        }
        out := out + [c];
      } else {
        out := out + "_";
      }
    }
    if out == "" {
      out := "_";
    }
  }

  /** Sanitising gives a legal name, and leaves exactly the legal names alone; so
      doing it twice changes nothing more. */
  lemma {:induction false} SanitizedIsLegal(s: string)
    ensures LegalName(Sanitized(s))
    ensures Sanitized(s) == s <==> LegalName(s)
    ensures Sanitized(Sanitized(s)) == Sanitized(s)
  {
    var r := Sanitized(s);
    assert LegalName(r);
    LegalIsFixed(r);
    if LegalName(s) {
      LegalIsFixed(s);
    }
  }

  /** Character by character: ASCII letters, digits and underscores stay, everything
      else becomes an underscore; one more stands before a leading digit and for
      the empty string. */
  lemma {:induction false} SanitizedCharwise(s: string)
    ensures var r, shift := Sanitized(s), if s == "" || '0' <= s[0] <= '9' then 1 else 0;
            && |r| == |s| + shift
            && (shift == 1 ==> r[0] == '_')
            && forall i :: 0 <= i < |s| ==>
                 r[i + shift] == if 'a' <= s[i] <= 'z' || 'A' <= s[i] <= 'Z' || '0' <= s[i] <= '9' then s[i] else '_'
  {
    if s != "" {
      var prefix, cleaned := if IsDigit(s[0]) then "_" else "", Cleaned(s, |s|);
      var r := prefix + cleaned;
      assert Sanitized(s) == r;
      forall i | 0 <= i < |s| ensures r[i + |prefix|] == Clean(s[i]) {
        assert r[i + |prefix|] == cleaned[i];
      }
    }
  }

  lemma {:induction false} LegalIsFixed(s: string)
    requires LegalName(s)
    ensures Sanitized(s) == s
  {
    assert !IsDigit(s[0]);
    assert Cleaned(s, |s|) == s;
  }

  function MetricName(name: string, unit: string): string {
    if unit == "" then "bus_" + Sanitized(name) else "bus_" + Sanitized(name) + "_" + Sanitized(unit)
  }

  lemma {:induction false} LegalConcat(a: string, b: string)
    requires LegalName(a) && forall i :: 0 <= i < |b| ==> IsNameChar(b[i])
    ensures LegalName(a + b)
  {
  }

  lemma {:induction false} MetricNameIsLegal(name: string, unit: string)
    ensures LegalName(MetricName(name, unit))
  {
    SanitizedIsLegal(name);
    SanitizedIsLegal(unit);
    LegalConcat("bus_", Sanitized(name));
    LegalConcat("bus_" + Sanitized(name), "_");
    LegalConcat("bus_" + Sanitized(name) + "_", Sanitized(unit));
  }

  // ----- escaping -----

  /** Every occurrence of one character replaced by a string. */
  function Replace(s: string, c: char, text: string): string {
    if s == "" then "" else (if s[0] == c then text else [s[0]]) + Replace(s[1..], c, text)
  }

  function Escaped(v: string): string {
    Replace(Replace(Replace(v, '\\', "\\\\"), '"', "\\\""), '\n', "\\n")
  }

  function EscapeChar(c: char): string {
    if c == '\\' then "\\\\" else if c == '"' then "\\\"" else if c == '\n' then "\\n" else [c]
  }

  function EscapedByChar(v: string): string {
    if v == "" then "" else EscapeChar(v[0]) + EscapedByChar(v[1..])
  }

  lemma {:induction false} ReplaceConcat(a: string, b: string, c: char, text: string)
    ensures Replace(a + b, c, text) == Replace(a, c, text) + Replace(b, c, text)
  {
    if a == "" {
      assert a + b == b;
    } else {
      assert (a + b)[1..] == a[1..] + b;
      ReplaceConcat(a[1..], b, c, text);
    }
  }

  lemma {:induction false} ReplaceChar(a: string, x: char, c: char, text: string)
    requires a == [x]
    ensures Replace(a, c, text) == if x == c then text else a
  {
    assert a[1..] == "";
  }

  lemma {:induction false} ReplacePair(a: string, x: char, y: char, c: char, text: string)
    requires a == [x, y] && x != c && y != c
    ensures Replace(a, c, text) == a
  {
    assert a == [x] + [y];
    ReplaceConcat([x], [y], c, text);
    ReplaceChar([x], x, c, text);
    ReplaceChar([y], y, c, text);
  }

  lemma {:induction false} EscapedChar(a: string, x: char)
    requires a == [x]
    ensures Escaped(a) == EscapeChar(x)
  {
    ReplaceChar(a, x, '\\', "\\\\");
    ReplaceChar(a, x, '"', "\\\"");
    ReplaceChar(a, x, '\n', "\\n");
    if x == '\\' {
      ReplacePair("\\\\", '\\', '\\', '"', "\\\"");
      ReplacePair("\\\\", '\\', '\\', '\n', "\\n");
    } else if x == '"' {
      ReplacePair("\\\"", '\\', '"', '\n', "\\n");
    }
  }

  lemma {:induction false} EscapedConcat(a: string, b: string)
    ensures Escaped(a + b) == Escaped(a) + Escaped(b)
  {
    ReplaceConcat(a, b, '\\', "\\\\");
    var a1, b1 := Replace(a, '\\', "\\\\"), Replace(b, '\\', "\\\\");
    ReplaceConcat(a1, b1, '"', "\\\"");
    ReplaceConcat(Replace(a1, '"', "\\\""), Replace(b1, '"', "\\\""), '\n', "\\n");
  }

  /** The three replacements, one after the other, escape every character on its
      own: no replacement touches what an earlier one inserted. */
  lemma {:induction false} EscapedCharwise(v: string)
    ensures Escaped(v) == EscapedByChar(v)
  {
    if v != "" {
      assert v == v[..1] + v[1..];
      EscapedConcat(v[..1], v[1..]);
      EscapedChar(v[..1], v[0]);
      EscapedCharwise(v[1..]);
    }
  }

  predicate OneLine(s: string) {
    forall i :: 0 <= i < |s| ==> s[i] != '\n'
  }

  lemma {:induction false} EscapedIsOneLine(v: string)
    ensures OneLine(Escaped(v))
  {
    EscapedCharwise(v);
    if v != "" {
      EscapedIsOneLine(v[1..]);
      EscapedCharwise(v[1..]);
    }
  }

  // ----- a reader of label values and names -----

  /** What a reader got, and what is left of the input. */
  datatype Cut<T> = Cut(got: T, rest: string)

  function ReadName(s: string): (r: Cut<string>)
    ensures |r.rest| <= |s|
  {
    if s != "" && IsNameChar(s[0]) then
      var c := ReadName(s[1..]);
      Cut([s[0]] + c.got, c.rest)
    else Cut("", s)
  }

  /** A label value up to its closing quote, with escapes undone; a line break or
      an unknown escape is an error. */
  function ReadValue(s: string): (r: Option<Cut<string>>)
    ensures r.Some? ==> |r.value.rest| < |s|
  {
    if s == "" || s[0] == '\n' then None
    else if s[0] == '"' then Some(Cut("", s[1..]))
    else if s[0] != '\\' then Prepend(s[0], ReadValue(s[1..]))
    else if |s| < 2 then None
    else if s[1] == 'n' then Prepend('\n', ReadValue(s[2..]))
    else if s[1] == '\\' || s[1] == '"' then Prepend(s[1], ReadValue(s[2..]))
    else None
  }

  function Prepend(c: char, r: Option<Cut<string>>): Option<Cut<string>> {
    if r.None? then None else Some(Cut([c] + r.value.got, r.value.rest))
  }

  lemma {:induction false} NameIsRead(name: string, rest: string)
    requires forall i :: 0 <= i < |name| ==> IsNameChar(name[i])
    requires rest == "" || !IsNameChar(rest[0])
    ensures ReadName(name + rest) == Cut(name, rest)
  {
    if name == "" {
      assert name + rest == rest;
    } else {
      assert (name + rest)[1..] == name[1..] + rest;
      NameIsRead(name[1..], rest);
      assert name == [name[0]] + name[1..];
    }
  }

  /** Reading undoes escaping, for every label value. */
  lemma {:induction false} ValueIsRead(v: string, rest: string)
    ensures ReadValue(Escaped(v) + ("\"" + rest)) == Some(Cut(v, rest))
  {
    EscapedCharwise(v);
    var end := "\"" + rest;
    if v == "" {
      assert Escaped(v) + end == end;
      assert end[1..] == rest;
    } else {
      EscapedCharwise(v[1..]);
      Regroup(EscapeChar(v[0]), Escaped(v[1..]), end);
      ValueIsRead(v[1..], rest);
      EscapedCharIsRead(v[0], Escaped(v[1..]) + end);
      assert v == [v[0]] + v[1..];
    }
  }

  lemma {:induction false} Regroup(a: string, b: string, c: string)
    ensures a + b + c == a + (b + c)
  {
  }

  lemma {:induction false} EscapedCharIsRead(c: char, tail: string)
    ensures ReadValue(EscapeChar(c) + tail) == Prepend(c, ReadValue(tail))
  {
    var s := EscapeChar(c) + tail;
    if c == '\\' || c == '"' || c == '\n' {
      assert s[2..] == tail;
    } else {
      assert s[1..] == tail;
    }
  }

  // ----- sample lines -----

  datatype Pair = Pair(key: string, value: string)

  function PairText(p: Pair): string {
    Sanitized(p.key) + "=\"" + Escaped(p.value) + "\""
  }

  function Joined(labels: seq<Pair>): string {
    if labels == [] then ""
    else if |labels| == 1 then PairText(labels[0])
    else PairText(labels[0]) + "," + Joined(labels[1..])
  }

  /** One metric value as a line of text; `value` is the printed number. */
  function SampleLine(fqname: string, labels: seq<Pair>, value: string): string {
    if labels == [] then fqname + " " + value
    else fqname + "{" + Joined(labels) + "} " + value
  }

  datatype Sample = Sample(name: string, labels: seq<Pair>, value: string)

  function ReadPairs(s: string): (r: Option<Cut<seq<Pair>>>)
    decreases |s|
  {
    var k := ReadName(s);
    if !LegalName(k.got) || |k.rest| < 2 || k.rest[0] != '=' || k.rest[1] != '"' then None
    else
      var v := ReadValue(k.rest[2..]);
      if v.None? || v.value.rest == "" then None
      else
        var pair, rest := Pair(k.got, v.value.got), v.value.rest[1..];
        if v.value.rest[0] == '}' then Some(Cut([pair], rest))
        else if v.value.rest[0] == ',' then
          var more := ReadPairs(rest);
          if more.None? then None else Some(Cut([pair] + more.value.got, more.value.rest))
        else None
  }

  function ReadSample(line: string): Option<Sample> {
    var k := ReadName(line);
    if !LegalName(k.got) || k.rest == "" then None
    else if k.rest[0] == ' ' then Some(Sample(k.got, [], k.rest[1..]))
    else if k.rest[0] == '{' then
      var p := ReadPairs(k.rest[1..]);
      if p.None? || p.value.rest == "" || p.value.rest[0] != ' ' then None
      else Some(Sample(k.got, p.value.got, p.value.rest[1..]))
    else None
  }

  /** The labels a reader gets to see: sanitised keys, original values. */
  function Seen(labels: seq<Pair>): (r: seq<Pair>)
    ensures |r| == |labels|
    ensures forall i :: 0 <= i < |labels| ==> r[i] == Pair(Sanitized(labels[i].key), labels[i].value)
  {
    if labels == [] then [] else [Pair(Sanitized(labels[0].key), labels[0].value)] + Seen(labels[1..])
  }

  /** Does the input begin with this pair, followed by the rest? */
  predicate BeginsWith(s: string, p: Pair, rest: string) {
    var k := ReadName(s);
    && k.got == Sanitized(p.key) && LegalName(k.got)
    && |k.rest| >= 2 && k.rest[0] == '=' && k.rest[1] == '"'
    && ReadValue(k.rest[2..]) == Some(Cut(p.value, rest))
  }

  lemma {:induction false} PairIsRead(p: Pair, rest: string)
    ensures BeginsWith(PairText(p) + rest, p, rest)
  {
    SanitizedIsLegal(p.key);
    var value := Escaped(p.value) + ("\"" + rest);
    Regroup5(Sanitized(p.key), "=\"", Escaped(p.value), "\"", rest);
    NameIsRead(Sanitized(p.key), "=\"" + value);
    assert ("=\"" + value)[2..] == value;
    ValueIsRead(p.value, rest);
  }

  lemma {:induction false} Regroup5(a: string, b: string, c: string, d: string, e: string)
    ensures a + b + c + d + e == a + (b + (c + (d + e)))
  {
  }

  lemma {:induction false} LastPairIsRead(s: string, p: Pair, end: string, rest: string)
    requires BeginsWith(s, p, end) && end == "}" + rest
    ensures ReadPairs(s) == Some(Cut([Pair(Sanitized(p.key), p.value)], rest))
  {
    assert end[1..] == rest;
  }

  lemma {:induction false} NextPairIsRead(s: string, p: Pair, next: string, tail: string, more: Cut<seq<Pair>>)
    requires BeginsWith(s, p, next) && next == "," + tail && ReadPairs(tail) == Some(more)
    ensures ReadPairs(s) == Some(Cut([Pair(Sanitized(p.key), p.value)] + more.got, more.rest))
  {
    assert next[1..] == tail;
  }

  lemma {:induction false} FirstPairIsRead(p: Pair, joined: string, rest: string, more: Cut<seq<Pair>>)
    requires ReadPairs(joined + ("}" + rest)) == Some(more)
    ensures ReadPairs(PairText(p) + "," + joined + ("}" + rest)) == Some(Cut([Pair(Sanitized(p.key), p.value)] + more.got, more.rest))
  {
    var tail := joined + ("}" + rest);
    Regroup4(PairText(p), ",", joined, "}" + rest);
    PairIsRead(p, "," + tail);
    NextPairIsRead(PairText(p) + ("," + tail), p, "," + tail, tail, more);
  }

  lemma {:induction false} Regroup4(a: string, b: string, c: string, d: string)
    ensures a + b + c + d == a + (b + (c + d))
  {
  }

  lemma {:induction false} PairsAreRead(labels: seq<Pair>, rest: string)
    requires labels != []
    ensures ReadPairs(Joined(labels) + ("}" + rest)) == Some(Cut(Seen(labels), rest))
  {
    if |labels| == 1 {
      PairIsRead(labels[0], "}" + rest);
      LastPairIsRead(PairText(labels[0]) + ("}" + rest), labels[0], "}" + rest, rest);
      assert Seen(labels) == [Pair(Sanitized(labels[0].key), labels[0].value)];
    } else {
      PairsAreRead(labels[1..], rest);
      FirstPairIsRead(labels[0], Joined(labels[1..]), rest, Cut(Seen(labels[1..]), rest));
    }
  }

  /** Reading a sample line gives back its name, its labels in order - keys
      sanitised, values exactly as they were, whatever characters they hold - and
      the printed number. */
  lemma {:induction false} SampleIsRead(fqname: string, labels: seq<Pair>, value: string)
    requires LegalName(fqname)
    ensures ReadSample(SampleLine(fqname, labels, value)) == Some(Sample(fqname, Seen(labels), value))
  {
    var line := SampleLine(fqname, labels, value);
    assert (" " + value)[1..] == value;
    if labels == [] {
      assert line == fqname + (" " + value);
      NameIsRead(fqname, " " + value);
    } else {
      var tail := Joined(labels) + ("}" + (" " + value));
      RegroupLine(fqname, Joined(labels), value);
      NameIsRead(fqname, "{" + tail);
      PairsAreRead(labels, " " + value);
      LabelledIsRead(line, fqname, "{" + tail, tail, Seen(labels), " " + value);
    }
  }

  lemma {:induction false} RegroupLine(name: string, joined: string, value: string)
    ensures name + "{" + joined + "} " + value == name + ("{" + (joined + ("}" + (" " + value))))
  {
    assert "} " == "}" + " ";
  }

  lemma {:induction false} LabelledIsRead(
    line: string, name: string, braced: string, tail: string, labels: seq<Pair>, end: string)
    requires ReadName(line) == Cut(name, braced) && LegalName(name) && braced == "{" + tail
    requires ReadPairs(tail) == Some(Cut(labels, end)) && end != "" && end[0] == ' '
    ensures ReadSample(line) == Some(Sample(name, labels, end[1..]))
  {
    assert braced[1..] == tail;
  }

  lemma {:induction false} OneLineConcat(a: string, b: string)
    requires OneLine(a) && OneLine(b)
    ensures OneLine(a + b)
  {
  }

  lemma {:induction false} PairIsOneLine(p: Pair)
    ensures OneLine(PairText(p))
  {
    var key, value := Sanitized(p.key), Escaped(p.value);
    SanitizedIsLegal(p.key);
    EscapedIsOneLine(p.value);
    OneLineConcat(key, "=\"");
    OneLineConcat(key + "=\"", value);
    OneLineConcat(key + "=\"" + value, "\"");
  }

  lemma {:induction false} JoinedIsOneLine(labels: seq<Pair>)
    ensures OneLine(Joined(labels))
  {
    if labels != [] {
      PairIsOneLine(labels[0]);
      JoinedIsOneLine(labels[1..]);
      OneLineConcat(PairText(labels[0]), ",");
      OneLineConcat(PairText(labels[0]) + ",", Joined(labels[1..]));
    }
  }

  lemma {:induction false} SampleIsOneLine(fqname: string, labels: seq<Pair>, value: string)
    requires LegalName(fqname) && OneLine(value)
    ensures OneLine(SampleLine(fqname, labels, value))
  {
    JoinedIsOneLine(labels);
    if labels != [] {
      assert OneLine(fqname + "{" + Joined(labels));
    }
  }
}
