/** The whole exposition text (src/exporter/prometheus/mod.rs:71-100), and a reader
    of the text format, version 0.0.4, that takes it apart again. */
module PrometheusText {
  import opened Wrappers
  import opened MetricTypes
  import opened KeyOrder
  import opened PrometheusNames

  /** How numbers are printed is not part of this model, only that they fit on a
      line. */
  type Printer = f: real -> string | forall x :: OneLine(f(x)) witness (x => "")

  // ----- what is printed -----

  ghost function Pairs(labels: map<string, string>, keys: seq<string>, n: nat): (r: seq<Pair>)
    requires n <= |keys| && forall k :: k in keys ==> k in labels
    ensures |r| == n
  {
    if n == 0 then [] else Pairs(labels, keys, n - 1) + [Pair(keys[n - 1], labels[keys[n - 1]])]
  }

  /** The labels in key order. */
  ghost function LabelPairs(labels: map<string, string>): seq<Pair> {
    var keys := InOrder(labels.Keys);
    Pairs(labels, keys, |keys|)
  }

  method ListLabels(labels: map<string, string>) returns (r: seq<Pair>)
    ensures r == LabelPairs(labels)
  {
    var keys := Ascending(labels.Keys);
    r := [];
    for i := 0 to |keys|
      invariant r == Pairs(labels, keys, i)
    {
      r := r + [Pair(keys[i], labels[keys[i]])];
    }
  }

  function FqName(m: MetricValue): string { MetricName(m.name, m.unit) }

  function KindText(kind: MetricKind): string {
    if kind.Gauge? then "gauge" else "counter"
  }

  function HelpEscaped(s: string): string {
    Replace(Replace(s, '\\', "\\\\"), '\n', "\\n")
  }

  function HelpLine(fqname: string, description: string): string {
    "# HELP " + (fqname + (" " + HelpEscaped(description)))
  }

  function TypeLine(fqname: string, kind: MetricKind): string {
    "# TYPE " + (fqname + (" " + KindText(kind)))
  }

  /** The first n values of a family, a line each. */
  ghost function Lines(fqname: string, values: seq<MetricValue>, show: Printer, n: nat): string
    requires n <= |values|
  {
    if n == 0 then ""
    else Lines(fqname, values, show, n - 1) + (SampleLine(fqname, LabelPairs(values[n - 1].labels), show(values[n - 1].value)) + "\n")
  }

  /** A family with its metadata lines, taken from its first value. */
  ghost function FamilyText(fqname: string, values: seq<MetricValue>, show: Printer): string {
    if values == [] then "" else
    HelpLine(fqname, values[0].description) + "\n" + (TypeLine(fqname, values[0].kind) + "\n") + Lines(fqname, values, show, |values|)
  }

  /** Folded, for proofs about whole texts. */
  ghost predicate IsFamilyText(text: string, fqname: string, values: seq<MetricValue>, show: Printer) {
    forall b {:trigger Unfold(b)} :: Unfold(b) ==> values != [] && text == FamilyText(fqname, values, show)
  }

  method FormatMetricLine(fqname: string, labels: map<string, string>, value: real, show: Printer) returns (line: string)
    ensures line == SampleLine(fqname, LabelPairs(labels), show(value))
  {
    var pairs := ListLabels(labels);
    line := SampleLine(fqname, pairs, show(value));
  }

  method RenderLines(fqname: string, values: seq<MetricValue>, show: Printer) returns (buf: string)
    ensures buf == Lines(fqname, values, show, |values|)
  {
    buf := "";
    for i := 0 to |values|
      invariant buf == Lines(fqname, values, show, i)
    {
      var line := FormatMetricLine(fqname, values[i].labels, values[i].value, show);
      buf := buf + (line + "\n");
    }
  }

  method RenderFamily(fqname: string, values: seq<MetricValue>, show: Printer) returns (buf: string)
    requires values != []
    ensures IsFamilyText(buf, fqname, values, show)
  {
    var first := values[0];
    buf := HelpLine(fqname, first.description) + "\n";
    buf := buf + (TypeLine(fqname, first.kind) + "\n");
    var lines := RenderLines(fqname, values, show);
    buf := buf + lines;
  }

  // ----- grouping -----

  /** A metric with the name it is printed under. */
  datatype Row = Row(fqname: string, m: MetricValue)

  ghost predicate Rows(all: seq<MetricValue>, rows: seq<Row>) {
    forall b {:trigger Unfold(b)} :: Unfold(b) ==>
      |rows| == |all| && forall i :: 0 <= i < |all| ==> rows[i] == Row(FqName(all[i]), all[i])
  }

  /** The metrics of one name among the first n, in their order. */
  function Group(rows: seq<Row>, n: nat, fqname: string): seq<MetricValue>
    requires n <= |rows|
  {
    if n == 0 then []
    else Group(rows, n - 1, fqname) + if rows[n - 1].fqname == fqname then [rows[n - 1].m] else []
  }

  function Names(rows: seq<Row>, n: nat): (r: set<string>)
    requires n <= |rows|
  {
    if n == 0 then {} else Names(rows, n - 1) + {rows[n - 1].fqname}
  }

  lemma {:induction false} NamesHaveGroups(rows: seq<Row>, n: nat, fqname: string)
    requires n <= |rows|
    ensures fqname in Names(rows, n) <==> Group(rows, n, fqname) != []
  {
    if n > 0 {
      NamesHaveGroups(rows, n - 1, fqname);
    }
  }

  method NameAll(all: seq<MetricValue>) returns (rows: seq<Row>)
    ensures Rows(all, rows)
  {
    rows := [];
    for i := 0 to |all|
      invariant |rows| == i && forall j :: 0 <= j < i ==> rows[j] == Row(FqName(all[j]), all[j])
    {
      rows := rows + [Row(FqName(all[i]), all[i])];
    }
  }

  /** The groups of the first n rows; folded like `Rows`. */
  ghost predicate Grouped(rows: seq<Row>, n: nat, grouped: map<string, seq<MetricValue>>) {
    forall b {:trigger Unfold(b)} :: Unfold(b) ==>
      n <= |rows| && grouped.Keys == Names(rows, n) && forall f :: f in grouped ==> grouped[f] == Group(rows, n, f)
  }

  lemma {:induction false} GroupStep(rows: seq<Row>, k: nat, n: nat, grouped: map<string, seq<MetricValue>>)
    requires n == k + 1 <= |rows| && Grouped(rows, k, grouped)
    ensures var f := rows[k].fqname;
            Grouped(rows, n, grouped[f := (if f in grouped then grouped[f] else []) + [rows[k].m]])
  {
    assert Unfold(true);
    NamesHaveGroups(rows, k, rows[k].fqname);
  }

  method GroupByName(rows: seq<Row>) returns (grouped: map<string, seq<MetricValue>>)
    ensures Grouped(rows, |rows|, grouped)
  {
    grouped := map[];
    for i := 0 to |rows|
      invariant Grouped(rows, i, grouped)
    {
      var Row(fqname, m) := rows[i];
      GroupStep(rows, i, i + 1, grouped);
      grouped := grouped[fqname := (if fqname in grouped then grouped[fqname] else []) + [m]];
    }
  }

  /** The families of the first n names, one after the other. */
  ghost function FamilyTexts(names: seq<string>, rows: seq<Row>, show: Printer, n: nat): string
    requires n <= |names|
  {
    if n == 0 then ""
    else FamilyTexts(names, rows, show, n - 1) + FamilyText(names[n - 1], Group(rows, |rows|, names[n - 1]), show)
  }

  lemma {:induction false} FamilyNext(names: seq<string>, rows: seq<Row>, show: Printer, k: nat, n: nat, text: string)
    requires n == k + 1 <= |names| && IsFamilyText(text, names[k], Group(rows, |rows|, names[k]), show)
    ensures FamilyTexts(names, rows, show, n) == FamilyTexts(names, rows, show, k) + text
  {
    assert Unfold(true);
  }

  lemma {:induction false} GroupOf(rows: seq<Row>, grouped: map<string, seq<MetricValue>>, fqname: string)
    requires Grouped(rows, |rows|, grouped)
    ensures fqname in InOrder(grouped.Keys)
       ==> fqname in grouped && grouped[fqname] == Group(rows, |rows|, fqname) && grouped[fqname] != []
  {
    assert Unfold(true);
    NamesHaveGroups(rows, |rows|, fqname);
  }

  method RenderGroups(names: seq<string>, grouped: map<string, seq<MetricValue>>, ghost rows: seq<Row>, show: Printer)
    returns (buf: string)
    requires Grouped(rows, |rows|, grouped) && names == InOrder(grouped.Keys)
    ensures buf == FamilyTexts(names, rows, show, |names|)
  {
    buf := "";
    for i := 0 to |names|
      invariant buf == FamilyTexts(names, rows, show, i)
    {
      GroupOf(rows, grouped, names[i]);
      var family := RenderFamily(names[i], grouped[names[i]], show);
      FamilyNext(names, rows, show, i, i + 1, family);
      buf := buf + family;
    }
  }

  /** The text is one family after the other: one for each printed name, in
      ascending order, with all metrics of that name. */
  ghost predicate Rendering(rows: seq<Row>, show: Printer, text: string) {
    var names := InOrder(Names(rows, |rows|));
    text == FamilyTexts(names, rows, show, |names|)
  }

  ghost predicate IsRendering(all: seq<MetricValue>, show: Printer, text: string) {
    exists rows :: Rows(all, rows) && Rendering(rows, show, text)
  }

  /** Groups by printed name, then prints a family for every name, in order. */
  method RenderMetrics(all: seq<MetricValue>, show: Printer) returns (buf: string)
    ensures IsRendering(all, show, buf)
  {
    var rows := NameAll(all);
    var grouped := GroupByName(rows);
    var names := Ascending(grouped.Keys);
    buf := RenderGroups(names, grouped, rows, show);
    assert grouped.Keys == Names(rows, |rows|) by {
      assert Unfold(true);
    }
    assert Rendering(rows, show, buf);
  }
}
