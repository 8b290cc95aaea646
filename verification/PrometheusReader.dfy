/** Reading the exposition text back: a reader of the text format, version 0.0.4,
    recovers every family and every sample from what the exporter prints. */
module PrometheusReader {
  import opened Wrappers
  import opened MetricTypes
  import opened KeyOrder
  import opened PrometheusNames
  import opened PrometheusText

  // ----- the reader -----

  datatype Family = Family(name: string, help: string, kind: Option<MetricKind>, samples: seq<Sample>)

  function StripPrefix(prefix: string, line: string): Option<string> {
    if prefix <= line then Some(line[|prefix|..]) else None
  }

  /** The name and the remainder of a metadata line. */
  function ReadMeta(s: string): Option<Cut<string>> {
    var k := ReadName(s);
    if !LegalName(k.got) || k.rest == "" || k.rest[0] != ' ' then None else Some(Cut(k.got, k.rest[1..]))
  }

  function ReadHelp(s: string): Option<string> {
    if s == "" then Some("")
    else if s[0] != '\\' then PrependHelp(s[0], ReadHelp(s[1..]))
    else if |s| < 2 then None
    else if s[1] == 'n' then PrependHelp('\n', ReadHelp(s[2..]))
    else if s[1] == '\\' then PrependHelp('\\', ReadHelp(s[2..]))
    else None
  }

  function PrependHelp(c: char, r: Option<string>): Option<string> {
    if r.None? then None else Some([c] + r.value)
  }

  /** The type words this reader knows. */
  function ReadKind(s: string): Option<MetricKind> {
    if s == "counter" then Some(Counter) else if s == "gauge" then Some(Gauge) else None
  }

  /** One line: a help line starts a family, whose name must be new; a type line
      and samples belong to the family just started. */
  function ReadLine(fs: seq<Family>, line: string): Option<seq<Family>> {
    var help, kind := StripPrefix("# HELP ", line), StripPrefix("# TYPE ", line);
    if help.Some? then
      var m := ReadMeta(help.value);
      if m.None? || exists f :: f in fs && f.name == m.value.got then None
      else
        var d := ReadHelp(m.value.rest);
        if d.None? then None else Some(fs + [Family(m.value.got, d.value, None, [])])
    else if fs == [] then None
    else
      var last := fs[|fs| - 1];
      if kind.Some? then
        var m := ReadMeta(kind.value);
        if m.None? || m.value.got != last.name || last.kind.Some? || last.samples != [] then None
        else
          var k := ReadKind(m.value.rest);
          if k.None? then None else Some(fs[|fs| - 1 := last.(kind := k)])
      else
        var s := ReadSample(line);
        if s.None? || s.value.name != last.name then None
        else Some(fs[|fs| - 1 := last.(samples := last.samples + [s.value])])
  }

  /** The first line, without its end, and what comes after it. */
  function CutLine(s: string): (r: Cut<string>)
    ensures s != "" ==> |r.rest| < |s|
  {
    if s == "" then Cut("", "")
    else if s[0] == '\n' then Cut("", s[1..])
    else
      var c := CutLine(s[1..]);
      Cut([s[0]] + c.got, c.rest)
  }

  function ReadText(fs: seq<Family>, text: string): Option<seq<Family>>
    decreases |text|
  {
    if text == "" then Some(fs)
    else
      var c := CutLine(text);
      var next := ReadLine(fs, c.got);
      if next.None? then None else ReadText(next.value, c.rest)
  }

  // ----- texts made of whole lines -----

  predicate WholeLines(s: string) {
    s == "" || s[|s| - 1] == '\n'
  }

  lemma {:induction false} LineIsCut(line: string, rest: string)
    requires OneLine(line)
    ensures CutLine(line + "\n" + rest) == Cut(line, rest)
  {
    var s := line + "\n" + rest;
    if line == "" {
      assert s[1..] == rest;
    } else {
      assert s[1..] == line[1..] + "\n" + rest;
      LineIsCut(line[1..], rest);
      assert line == [line[0]] + line[1..];
    }
  }

  lemma {:induction false} CutKeepsRest(a: string, b: string)
    requires a != "" && WholeLines(a)
    ensures CutLine(a + b).got == CutLine(a).got
    ensures CutLine(a + b).rest == CutLine(a).rest + b && WholeLines(CutLine(a).rest)
  {
    if a[0] == '\n' {
      assert (a + b)[1..] == a[1..] + b;
    } else {
      assert (a + b)[1..] == a[1..] + b;
      CutKeepsRest(a[1..], b);
    }
  }

  /** Reading whole lines and then more is reading the two parts in turn. */
  lemma {:induction false} ReadInTurn(fs: seq<Family>, a: string, b: string)
    requires WholeLines(a) && ReadText(fs, a).Some?
    ensures ReadText(fs, a + b) == ReadText(ReadText(fs, a).value, b)
    decreases |a|
  {
    if a == "" {
      assert a + b == b;
    } else {
      CutKeepsRest(a, b);
      var c := CutLine(a);
      ReadInTurn(ReadLine(fs, c.got).value, c.rest, b);
    }
  }

  lemma {:induction false} LineIsRead(fs: seq<Family>, line: string, next: seq<Family>)
    requires OneLine(line) && ReadLine(fs, line) == Some(next)
    ensures ReadText(fs, line + "\n") == Some(next) && WholeLines(line + "\n")
  {
    LineIsCut(line, "");
    assert line + "\n" + "" == line + "\n";
    var none := CutLine(line + "\n").rest;
    assert ReadText(next, none) == Some(next);
  }

  // ----- metadata lines -----

  function HelpByChar(s: string): string {
    if s == "" then "" else HelpChar(s[0]) + HelpByChar(s[1..])
  }

  function HelpChar(c: char): string {
    if c == '\\' then "\\\\" else if c == '\n' then "\\n" else [c]
  }

  lemma {:induction false} HelpEscapedChar(a: string, x: char)
    requires a == [x]
    ensures HelpEscaped(a) == HelpChar(x)
  {
    ReplaceChar(a, x, '\\', "\\\\");
    ReplaceChar(a, x, '\n', "\\n");
    if x == '\\' {
      ReplacePair("\\\\", '\\', '\\', '\n', "\\n");
    }
  }

  lemma {:induction false} HelpCharwise(s: string)
    ensures HelpEscaped(s) == HelpByChar(s)
  {
    if s != "" {
      assert s == s[..1] + s[1..];
      ReplaceConcat(s[..1], s[1..], '\\', "\\\\");
      ReplaceConcat(Replace(s[..1], '\\', "\\\\"), Replace(s[1..], '\\', "\\\\"), '\n', "\\n");
      HelpEscapedChar(s[..1], s[0]);
      HelpCharwise(s[1..]);
    }
  }

  /** Reading undoes the escaping of descriptions. */
  lemma {:induction false} HelpIsRead(s: string)
    ensures ReadHelp(HelpEscaped(s)) == Some(s) && OneLine(HelpEscaped(s))
  {
    HelpCharwise(s);
    if s != "" {
      HelpIsRead(s[1..]);
      HelpCharwise(s[1..]);
      var tail := HelpByChar(s[1..]);
      if s[0] == '\\' || s[0] == '\n' {
        assert (HelpChar(s[0]) + tail)[2..] == tail;
      } else {
        assert (HelpChar(s[0]) + tail)[1..] == tail;
      }
      assert s == [s[0]] + s[1..];
    }
  }

  lemma {:induction false} MetaIsRead(name: string, rest: string)
    requires LegalName(name)
    ensures ReadMeta(name + (" " + rest)) == Some(Cut(name, rest))
  {
    NameIsRead(name, " " + rest);
    assert (" " + rest)[1..] == rest;
  }

  lemma {:induction false} PrefixIsStripped(prefix: string, rest: string)
    ensures StripPrefix(prefix, prefix + rest) == Some(rest)
  {
    assert (prefix + rest)[|prefix|..] == rest;
  }

  lemma {:induction false} HelpLineIsRead(fs: seq<Family>, name: string, description: string)
    requires LegalName(name) && forall f :: f in fs ==> f.name != name
    ensures ReadLine(fs, HelpLine(name, description)) == Some(fs + [Family(name, description, None, [])])
    ensures OneLine(HelpLine(name, description))
  {
    HelpIsRead(description);
    var rest := name + (" " + HelpEscaped(description));
    PrefixIsStripped("# HELP ", rest);
    MetaIsRead(name, HelpEscaped(description));
  }

  lemma {:induction false} NoHelpPrefix(rest: string)
    ensures StripPrefix("# HELP ", "# TYPE " + rest) == None
  {
    var line := "# TYPE " + rest;
    assert line[2] == 'T' && "# HELP "[2] == 'H';
  }

  lemma {:induction false} KindIsRead(kind: MetricKind)
    ensures ReadKind(KindText(kind)) == Some(kind) && OneLine(KindText(kind))
  {
    assert "gauge" != "counter" by {
      assert |"gauge"| == 5 && |"counter"| == 7;
    }
  }

  lemma {:induction false} TypeLineIsRead(fs: seq<Family>, f: Family, kind: MetricKind)
    requires LegalName(f.name) && f.kind.None? && f.samples == []
    ensures ReadLine(fs + [f], TypeLine(f.name, kind)) == Some(fs + [f.(kind := Some(kind))])
    ensures OneLine(TypeLine(f.name, kind))
  {
    var rest := f.name + (" " + KindText(kind));
    PrefixIsStripped("# TYPE ", rest);
    NoHelpPrefix(rest);
    MetaIsRead(f.name, KindText(kind));
    KindIsRead(kind);
    assert (fs + [f])[|fs| := f.(kind := Some(kind))] == fs + [f.(kind := Some(kind))];
  }

  lemma {:induction false} SampleLineIsRead(fs: seq<Family>, f: Family, labels: seq<Pair>, value: string)
    requires LegalName(f.name)
    ensures ReadLine(fs + [f], SampleLine(f.name, labels, value))
         == Some(fs + [f.(samples := f.samples + [Sample(f.name, Seen(labels), value)])])
  {
    var line := SampleLine(f.name, labels, value);
    assert line[0] == f.name[0] && "# HELP "[0] == "# TYPE "[0] == '#';
    SampleIsRead(f.name, labels, value);
    var g := f.(samples := f.samples + [Sample(f.name, Seen(labels), value)]);
    assert (fs + [f])[|fs| := g] == fs + [g];
  }

  // ----- families and whole texts -----

  ghost function SampleOf(fqname: string, m: MetricValue, show: Printer): Sample {
    Sample(fqname, Seen(LabelPairs(m.labels)), show(m.value))
  }

  ghost function SamplesOf(fqname: string, values: seq<MetricValue>, show: Printer, n: nat): (r: seq<Sample>)
    requires n <= |values|
    ensures |r| == n
  {
    if n == 0 then [] else SamplesOf(fqname, values, show, n - 1) + [SampleOf(fqname, values[n - 1], show)]
  }

  lemma {:induction false} WholeLinesJoin(a: string, b: string)
    requires WholeLines(a) && WholeLines(b)
    ensures WholeLines(a + b)
  {
    if b == "" {
      assert a + b == a;
    }
  }

  lemma {:induction false} NextIsRead(fs: seq<Family>, a: string, mid: seq<Family>, b: string, next: seq<Family>)
    requires WholeLines(a) && ReadText(fs, a) == Some(mid)
    requires WholeLines(b) && ReadText(mid, b) == Some(next)
    ensures WholeLines(a + b) && ReadText(fs, a + b) == Some(next)
  {
    ReadInTurn(fs, a, b);
    WholeLinesJoin(a, b);
  }

  lemma {:induction false} LinesAreRead(fs: seq<Family>, f: Family, values: seq<MetricValue>, show: Printer, n: nat)
    requires n <= |values| && LegalName(f.name) && f.samples == []
    ensures ReadText(fs + [f], Lines(f.name, values, show, n)) == Some(fs + [f.(samples := SamplesOf(f.name, values, show, n))])
    ensures WholeLines(Lines(f.name, values, show, n))
  {
    if n == 0 {
      assert f.(samples := []) == f;
    } else {
      LinesAreRead(fs, f, values, show, n - 1);
      var g := f.(samples := SamplesOf(f.name, values, show, n - 1));
      var m := values[n - 1];
      var labels, value := LabelPairs(m.labels), show(m.value);
      var line, h := SampleLine(f.name, labels, value), f.(samples := SamplesOf(f.name, values, show, n));
      SampleLineIsRead(fs, g, labels, value);
      SampleIsOneLine(f.name, labels, value);
      LineIsRead(fs + [g], line, fs + [h]);
      NextIsRead(fs + [f], Lines(f.name, values, show, n - 1), fs + [g], line + "\n", fs + [h]);
    }
  }

  /** What a reader should find for one name: the description and type of its first
      value, and every value. */
  ghost function FamilyOf(fqname: string, values: seq<MetricValue>, show: Printer): Family
    requires values != []
  {
    Family(fqname, values[0].description, Some(values[0].kind), SamplesOf(fqname, values, show, |values|))
  }

  /** Folded, for proofs about whole texts. */
  ghost predicate IsFamily(f: Family, fqname: string, values: seq<MetricValue>, show: Printer) {
    f.name == fqname && forall b {:trigger Unfold(b)} :: Unfold(b) ==> values != [] && f == FamilyOf(fqname, values, show)
  }

  lemma {:induction false} FamilyIsRead(fs: seq<Family>, text: string, fqname: string, values: seq<MetricValue>, show: Printer)
    returns (f: Family)
    requires IsFamilyText(text, fqname, values, show) && LegalName(fqname) && forall f :: f in fs ==> f.name != fqname
    ensures IsFamily(f, fqname, values, show) && ReadText(fs, text) == Some(fs + [f]) && WholeLines(text)
  {
    assert Unfold(true);
    var first := values[0];
    var help, kind := HelpLine(fqname, first.description), TypeLine(fqname, first.kind);
    var f0 := Family(fqname, first.description, None, []);
    var f1 := f0.(kind := Some(first.kind));
    HelpLineIsRead(fs, fqname, first.description);
    LineIsRead(fs, help, fs + [f0]);
    TypeLineIsRead(fs, f0, first.kind);
    LineIsRead(fs + [f0], kind, fs + [f1]);
    NextIsRead(fs, help + "\n", fs + [f0], kind + "\n", fs + [f1]);
    LinesAreRead(fs, f1, values, show, |values|);
    NextIsRead(fs, help + "\n" + (kind + "\n"), fs + [f1],
               Lines(fqname, values, show, |values|), fs + [FamilyOf(fqname, values, show)]);
    f := FamilyOf(fqname, values, show);
  }

  /** Family by family: the i-th is named names[i] and holds all rows of that
      name. */
  ghost predicate Families(fs: seq<Family>, names: seq<string>, rows: seq<Row>, show: Printer) {
    |fs| <= |names| && forall i :: 0 <= i < |fs| ==> IsFamily(fs[i], names[i], Group(rows, |rows|, names[i]), show)
  }

  /** Whole lines, read as these families; folded. */
  ghost predicate ReadsAs(start: seq<Family>, text: string, fs: seq<Family>) {
    forall b {:trigger Unfold(b)} :: Unfold(b) ==> WholeLines(text) && ReadText(start, text) == Some(fs)
  }

  lemma {:induction false} ReadsInFull(start: seq<Family>, text: string, fs: seq<Family>)
    requires ReadsAs(start, text, fs)
    ensures WholeLines(text) && ReadText(start, text) == Some(fs)
  {
    assert Unfold(true);
  }

  lemma {:induction false} NextFamilyIsRead(
    start: seq<Family>, before: string, fs: seq<Family>, text: string, name: string, values: seq<MetricValue>, show: Printer)
    returns (f: Family)
    requires ReadsAs(start, before, fs)
    requires IsFamilyText(text, name, values, show) && LegalName(name) && forall g :: g in fs ==> g.name != name
    ensures ReadsAs(start, before + text, fs + [f])
    ensures IsFamily(f, name, values, show)
  {
    f := FamilyIsRead(fs, text, name, values, show);
    ReadsInFull(start, before, fs);
    NextIsRead(start, before, fs, text, fs + [f]);
  }

  /** Legal names, each once; folded. */
  ghost predicate NameList(names: seq<string>) {
    forall b {:trigger Unfold(b)} :: Unfold(b) ==>
      && (forall i :: 0 <= i < |names| ==> LegalName(names[i]))
      && (forall i, j :: 0 <= i < j < |names| ==> names[i] != names[j])
  }

  lemma {:induction false} NextNameIsNew(fs: seq<Family>, names: seq<string>, rows: seq<Row>, show: Printer)
    requires NameList(names) && Families(fs, names, rows, show) && |fs| < |names|
    ensures LegalName(names[|fs|]) && forall g :: g in fs ==> g.name != names[|fs|]
  {
    assert Unfold(true);
    forall g | g in fs ensures g.name != names[|fs|] {
      var i :| 0 <= i < |fs| && fs[i] == g;
      assert names[i] != names[|fs|];
    }
  }

  lemma {:induction false} FamiliesExtended(fs: seq<Family>, f: Family, names: seq<string>, rows: seq<Row>, show: Printer)
    requires Families(fs, names, rows, show) && |fs| < |names|
    requires IsFamily(f, names[|fs|], Group(rows, |rows|, names[|fs|]), show)
    ensures Families(fs + [f], names, rows, show)
  {
  }

  /** Names that have a group; folded. */
  ghost predicate NamesRows(names: seq<string>, rows: seq<Row>) {
    forall b {:trigger Unfold(b)} :: Unfold(b) ==> forall i :: 0 <= i < |names| ==> names[i] in Names(rows, |rows|)
  }

  lemma {:induction false} NextText(names: seq<string>, rows: seq<Row>, show: Printer, k: nat, n: nat) returns (text: string)
    requires n == k + 1 <= |names| && NamesRows(names, rows)
    ensures IsFamilyText(text, names[k], Group(rows, |rows|, names[k]), show)
    ensures FamilyTexts(names, rows, show, n) == FamilyTexts(names, rows, show, k) + text
  {
    assert Unfold(true);
    NamesHaveGroups(rows, |rows|, names[k]);
    text := FamilyText(names[k], Group(rows, |rows|, names[k]), show);
  }

  /** The texts of the first n families read as these families. */
  ghost predicate ReadsFamilies(start: seq<Family>, names: seq<string>, rows: seq<Row>, show: Printer, n: nat, fs: seq<Family>) {
    && n == |fs| <= |names| && Families(fs, names, rows, show)
    && ReadsAs(start, FamilyTexts(names, rows, show, n), fs)
  }

  lemma {:induction false} NextTextIsRead(
    start: seq<Family>, names: seq<string>, rows: seq<Row>, show: Printer, k: nat, n: nat, before: seq<Family>)
    returns (f: Family)
    requires NamesRows(names, rows) && NameList(names) && n == k + 1 <= |names|
    requires ReadsFamilies(start, names, rows, show, k, before)
    ensures IsFamily(f, names[k], Group(rows, |rows|, names[k]), show)
    ensures ReadsAs(start, FamilyTexts(names, rows, show, n), before + [f])
  {
    NextNameIsNew(before, names, rows, show);
    var text := NextText(names, rows, show, k, n);
    f := NextFamilyIsRead(start, FamilyTexts(names, rows, show, k), before, text, names[k], Group(rows, |rows|, names[k]), show);
  }

  lemma {:induction false} TextsAreRead(start: seq<Family>, names: seq<string>, rows: seq<Row>, show: Printer, n: nat)
    returns (fs: seq<Family>)
    requires start == [] && n <= |names| && NamesRows(names, rows) && NameList(names)
    ensures ReadsFamilies(start, names, rows, show, n, fs)
    decreases n
  {
    if n == 0 {
      fs := start;
    } else {
      var before := TextsAreRead(start, names, rows, show, n - 1);
      var f := NextTextIsRead(start, names, rows, show, n - 1, n, before);
      FamiliesExtended(before, f, names, rows, show);
      fs := before + [f];
    }
  }

  lemma {:induction false} RowNames(all: seq<MetricValue>, rows: seq<Row>, n: nat, name: string)
    requires Rows(all, rows) && n <= |rows| && name in Names(rows, n)
    ensures LegalName(name) && exists i :: 0 <= i < n <= |all| && FqName(all[i]) == name
  {
    assert Unfold(true);
    if rows[n - 1].fqname == name {
      MetricNameIsLegal(all[n - 1].name, all[n - 1].unit);
    } else {
      RowNames(all, rows, n - 1, name);
    }
  }

  lemma {:induction false} RenderingIsRead(all: seq<MetricValue>, rows: seq<Row>, show: Printer, text: string)
    returns (fs: seq<Family>)
    requires Rows(all, rows) && Rendering(rows, show, text)
    ensures ReadText([], text) == Some(fs)
    ensures |fs| == |InOrder(Names(rows, |rows|))| && Families(fs, InOrder(Names(rows, |rows|)), rows, show)
  {
    var names := InOrder(Names(rows, |rows|));
    forall i | 0 <= i < |names| ensures LegalName(names[i]) {
      assert names[i] in names;
      RowNames(all, rows, |rows|, names[i]);
    }
    forall i, j | 0 <= i < j < |names| ensures names[i] != names[j] {
      InOrderIsSorted(Names(rows, |rows|), i, j);
    }
    assert NameList(names) && NamesRows(names, rows);
    fs := TextsAreRead([], names, rows, show, |names|);
    ReadsInFull([], text, fs);
  }

  /** A reader of the whole text finds one family for every printed name, in
      ascending order of names, with the description and type of its first metric
      and with all metrics of that name, every label and value intact. It accepts
      only texts with a single HELP and TYPE for every name. */
  lemma {:induction false} TextIsRead(
    all: seq<MetricValue>, show: Printer, text: string)
    returns (fs: seq<Family>, rows: seq<Row>)
    requires IsRendering(all, show, text)
    ensures Rows(all, rows) && ReadText([], text) == Some(fs)
    ensures |fs| == |InOrder(Names(rows, |rows|))| && Families(fs, InOrder(Names(rows, |rows|)), rows, show)
  {
    var named :| Rows(all, named) && Rendering(named, show, text);
    rows := named;
    fs := RenderingIsRead(all, rows, show, text);
  }

  // ----- every metric once -----

  /** The i-th metric is in its group behind the earlier metrics of its name. */
  lemma {:induction false} GroupHolds(rows: seq<Row>, i: nat, n: nat)
    requires i < n <= |rows|
    ensures var f := rows[i].fqname;
            |Group(rows, i, f)| < |Group(rows, n, f)| && Group(rows, n, f)[|Group(rows, i, f)|] == rows[i].m
  {
    if i < n - 1 {
      GroupHolds(rows, i, n - 1);
    }
  }

  function Total(rows: seq<Row>, n: nat, names: seq<string>, k: nat): nat
    requires n <= |rows| && k <= |names|
  {
    if k == 0 then 0 else Total(rows, n, names, k - 1) + |Group(rows, n, names[k - 1])|
  }

  lemma {:induction false} TotalGrows(rows: seq<Row>, n: nat, names: seq<string>, k: nat)
    requires 0 < n <= |rows| && k <= |names| && forall i, j :: 0 <= i < j < |names| ==> names[i] != names[j]
    ensures Total(rows, n, names, k) == Total(rows, n - 1, names, k) + (if rows[n - 1].fqname in names[..k] then 1 else 0)
  {
    if k > 0 {
      TotalGrows(rows, n, names, k - 1);
      assert names[..k] == names[..k - 1] + [names[k - 1]];
    }
  }

  lemma {:induction false} TotalIsCount(rows: seq<Row>, n: nat, names: seq<string>)
    requires n <= |rows| && forall i, j :: 0 <= i < j < |names| ==> names[i] != names[j]
    requires forall i :: 0 <= i < n ==> rows[i].fqname in names
    ensures Total(rows, n, names, |names|) == n
  {
    if n == 0 {
      TotalOfNothing(rows, n, names, |names|);
    } else {
      TotalIsCount(rows, n - 1, names);
      TotalGrows(rows, n, names, |names|);
      assert names[..|names|] == names;
    }
  }

  lemma {:induction false} TotalOfNothing(rows: seq<Row>, n: nat, names: seq<string>, k: nat)
    requires n == 0 && k <= |names|
    ensures Total(rows, n, names, k) == 0
  {
    if k > 0 {
      TotalOfNothing(rows, n, names, k - 1);
    }
  }

  lemma {:induction false} NamesCover(rows: seq<Row>, i: nat, n: nat)
    requires i < n <= |rows|
    ensures rows[i].fqname in Names(rows, n)
  {
    if i < n - 1 {
      NamesCover(rows, i, n - 1);
    }
  }

  lemma {:induction false} NamesAreListed(rows: seq<Row>)
    ensures var names := InOrder(Names(rows, |rows|));
            && (forall i :: 0 <= i < |rows| ==> rows[i].fqname in names)
            && (forall a, b :: 0 <= a < b < |names| ==> names[a] != names[b])
  {
    var names := InOrder(Names(rows, |rows|));
    forall i | 0 <= i < |rows| ensures rows[i].fqname in names {
      NamesCover(rows, i, |rows|);
    }
    forall a, b | 0 <= a < b < |names| ensures names[a] != names[b] {
      InOrderIsSorted(Names(rows, |rows|), a, b);
    }
  }

  /** Where the i-th metric is printed within its family: behind the earlier metrics of
      its name. */
  function Place(rows: seq<Row>, i: nat): nat
    requires i < |rows|
  {
    |Group(rows, i, rows[i].fqname)|
  }

  /** Every metric is printed: its name has a family, and there it stands at its
      place. */
  lemma {:induction false} EveryMetricPrinted(rows: seq<Row>, i: nat)
    requires i < |rows|
    ensures var f := rows[i].fqname;
            && f in InOrder(Names(rows, |rows|))
            && Place(rows, i) < |Group(rows, |rows|, f)|
            && Group(rows, |rows|, f)[Place(rows, i)] == rows[i].m
  {
    NamesCover(rows, i, |rows|);
    GroupHolds(rows, i, |rows|);
  }

  /** No two metrics share a place. */
  lemma {:induction false} PlacesDiffer(rows: seq<Row>, i: nat, j: nat)
    requires i < j < |rows| && rows[i].fqname == rows[j].fqname
    ensures Place(rows, i) < Place(rows, j)
  {
    GroupHolds(rows, i, j);
  }

  /** And nothing else is printed: the families together have as many samples as there
      are metrics. */
  lemma {:induction false} NothingElsePrinted(rows: seq<Row>)
    ensures var names := InOrder(Names(rows, |rows|)); Total(rows, |rows|, names, |names|) == |rows|
  {
    NamesAreListed(rows);
    TotalIsCount(rows, |rows|, InOrder(Names(rows, |rows|)));
  }

  // ----- what is found, spelled out -----

  /** The name a metric is printed under. */
  function PrintedName(m: MetricValue): string {
    "bus_" + Sanitized(m.name) + if m.unit == "" then "" else "_" + Sanitized(m.unit)
  }

  lemma {:induction false} NameIsSpelled(m: MetricValue)
    ensures FqName(m) == PrintedName(m)
  {
    if m.unit == "" {
      assert "bus_" + Sanitized(m.name) + "" == "bus_" + Sanitized(m.name);
    } else {
      assert "bus_" + Sanitized(m.name) + ("_" + Sanitized(m.unit)) == "bus_" + Sanitized(m.name) + "_" + Sanitized(m.unit);
    }
  }

  /** The labels in ascending order of their keys, each once, keys sanitised. */
  ghost predicate ListsLabels(pairs: seq<Pair>, labels: map<string, string>, keys: seq<string>) {
    && |pairs| == |keys| == |labels|
    && (forall key :: key in keys <==> key in labels)
    && (forall a, b :: 0 <= a < b < |keys| ==> Less(keys[a], keys[b]))
    && forall a :: 0 <= a < |keys| ==> pairs[a] == Pair(Sanitized(keys[a]), labels[keys[a]])
  }

  lemma {:induction false} PairsAt(labels: map<string, string>, keys: seq<string>, n: nat, a: nat)
    requires a < n <= |keys| && forall k :: k in keys ==> k in labels
    ensures Pairs(labels, keys, n)[a] == Pair(keys[a], labels[keys[a]])
  {
    if a < n - 1 {
      PairsAt(labels, keys, n - 1, a);
    }
  }

  lemma {:induction false} LabelsAreListed(labels: map<string, string>) returns (keys: seq<string>)
    ensures ListsLabels(Seen(LabelPairs(labels)), labels, keys)
  {
    keys := InOrder(labels.Keys);
    forall a, b | 0 <= a < b < |keys| ensures Less(keys[a], keys[b]) {
      InOrderIsSorted(labels.Keys, a, b);
    }
    forall a | 0 <= a < |keys| ensures LabelPairs(labels)[a] == Pair(keys[a], labels[keys[a]]) {
      PairsAt(labels, keys, |keys|, a);
    }
  }

  /** The sample of one metric: its printed name, its labels, its printed value. */
  ghost predicate IsSampleOf(s: Sample, m: MetricValue, show: Printer) {
    && s.name == PrintedName(m) && s.value == show(m.value)
    && exists keys :: ListsLabels(s.labels, m.labels, keys)
  }

  lemma {:induction false} SamplesAt(fqname: string, values: seq<MetricValue>, show: Printer, n: nat, j: nat)
    requires j < n <= |values|
    ensures SamplesOf(fqname, values, show, n)[j] == SampleOf(fqname, values[j], show)
  {
    if j < n - 1 {
      SamplesAt(fqname, values, show, n - 1, j);
    }
  }

  lemma {:induction false} SampleIsOf(fqname: string, m: MetricValue, show: Printer)
    requires fqname == FqName(m)
    ensures IsSampleOf(SampleOf(fqname, m, show), m, show)
  {
    NameIsSpelled(m);
    var keys := LabelsAreListed(m.labels);
    assert ListsLabels(SampleOf(fqname, m, show).labels, m.labels, keys);
  }

  lemma {:induction false} InFamily(f: Family, rows: seq<Row>, i: nat, show: Printer)
    requires i < |rows| && rows[i].fqname == FqName(rows[i].m)
    requires IsFamily(f, rows[i].fqname, Group(rows, |rows|, rows[i].fqname), show)
    ensures Place(rows, i) < |f.samples| && IsSampleOf(f.samples[Place(rows, i)], rows[i].m, show)
    ensures |f.samples| == |Group(rows, |rows|, rows[i].fqname)|
  {
    assert Unfold(true);
    var name := rows[i].fqname;
    var values := Group(rows, |rows|, name);
    EveryMetricPrinted(rows, i);
    SamplesAt(name, values, show, |values|, Place(rows, i));
    SampleIsOf(name, rows[i].m, show);
  }

  /** Every metric of the store is found in the text: in the family of its printed
      name there is a sample with its labels and its value. */
  lemma {:induction false} MetricIsFound(all: seq<MetricValue>, show: Printer, text: string, i: nat)
    returns (fs: seq<Family>, k: nat, j: nat)
    requires IsRendering(all, show, text) && i < |all|
    ensures ReadText([], text) == Some(fs) && k < |fs| && j < |fs[k].samples|
    ensures fs[k].name == PrintedName(all[i]) && IsSampleOf(fs[k].samples[j], all[i], show)
  {
    var rows;
    fs, rows := TextIsRead(all, show, text);
    assert rows[i] == Row(FqName(all[i]), all[i]) by {
      assert Unfold(true);
    }
    NameIsSpelled(all[i]);
    EveryMetricPrinted(rows, i);
    var names := InOrder(Names(rows, |rows|));
    k :| 0 <= k < |names| && names[k] == rows[i].fqname;
    j := Place(rows, i);
    InFamily(fs[k], rows, i, show);
  }

  lemma {:induction false} GroupStarts(rows: seq<Row>, n: nat, fqname: string) returns (i: nat)
    requires n <= |rows| && Group(rows, n, fqname) != []
    ensures i < n && rows[i].fqname == fqname && Group(rows, n, fqname)[0] == rows[i].m
    ensures forall j :: 0 <= j < i ==> rows[j].fqname != fqname
  {
    if Group(rows, n - 1, fqname) == [] {
      i := n - 1;
      forall j | 0 <= j < i ensures rows[j].fqname != fqname {
        if rows[j].fqname == fqname {
          NamesCover(rows, j, n - 1);
          NamesHaveGroups(rows, n - 1, fqname);
        }
      }
    } else {
      i := GroupStarts(rows, n - 1, fqname);
    }
  }

  /** Every family of the text has the name, description and type of some metric of
      the store: the first one printed under that name. */
  lemma {:induction false} FamilyIsHeaded(all: seq<MetricValue>, show: Printer, text: string, k: nat)
    returns (fs: seq<Family>, i: nat)
    requires IsRendering(all, show, text)
    ensures ReadText([], text) == Some(fs)
    ensures k < |fs| ==>
              && i < |all| && fs[k].name == PrintedName(all[i])
              && (forall j :: 0 <= j < i ==> PrintedName(all[j]) != fs[k].name)
              && fs[k].help == all[i].description && fs[k].kind == Some(all[i].kind)
  {
    var rows;
    fs, rows := TextIsRead(all, show, text);
    i := 0;
    if k < |fs| {
      var name := InOrder(Names(rows, |rows|))[k];
      assert IsFamily(fs[k], name, Group(rows, |rows|, name), show);
      assert Unfold(true);
      i := GroupStarts(rows, |rows|, name);
      forall j | 0 <= j <= i ensures PrintedName(all[j]) == rows[j].fqname {
        NameIsSpelled(all[j]);
      }
    }
  }
}
