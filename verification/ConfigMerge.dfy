/** How the metric list of a collector comes together from its metrics files and
    its inline metrics (src/config.rs:669-805). */
module ConfigMerge {
  import opened Wrappers
  import opened MetricTypes

  /** A metric as written in a file; fields left out take the file's defaults. */
  datatype RawMetric = RawMetric(
    name: string, description: Option<string>, kind: Option<MetricKind>, registerType: Option<RegisterType>,
    address: Option<word>, dataType: Option<DataType>, byteOrder: Option<ByteOrder>,
    scale: Option<real>, offset: Option<real>, unit: Option<string>)

  datatype Defaults = Defaults(
    description: Option<string>, kind: Option<MetricKind>, registerType: Option<RegisterType>,
    dataType: Option<DataType>, byteOrder: Option<ByteOrder>,
    scale: Option<real>, offset: Option<real>, unit: Option<string>)

  /** What reading and parsing a metrics file comes to. */
  datatype File = Unreadable | Unparsable | Parsed(defaults: Defaults, metrics: seq<RawMetric>)

  datatype MergeError = ReadFailed | ParseFailed | NoMetrics | MissingType(name: string) | MissingDataType(name: string)

  function OrElse<T>(a: Option<T>, b: Option<T>): Option<T> {
    if a.Some? then a else b
  }

  function UnwrapOr<T>(a: Option<T>, d: T): T {
    if a.Some? then a.value else d
  }

  /** The full metric: its own fields, then the file's defaults, then the built-in
      ones. Type and data type have no built-in default. */
  function IntoMetric(raw: RawMetric, d: Defaults): Result<MetricConfig, MergeError> {
    var kind, dataType := OrElse(raw.kind, d.kind), OrElse(raw.dataType, d.dataType);
    if kind.None? then Err(MissingType(raw.name))
    else if dataType.None? then Err(MissingDataType(raw.name))
    else Ok(MetricConfig(
      raw.name,
      UnwrapOr(OrElse(raw.description, d.description), ""),
      kind.value,
      OrElse(raw.registerType, d.registerType),
      raw.address,
      dataType.value,
      UnwrapOr(OrElse(raw.byteOrder, d.byteOrder), BigEndian),
      UnwrapOr(OrElse(raw.scale, d.scale), 1.0),
      UnwrapOr(OrElse(raw.offset, d.offset), 0.0),
      UnwrapOr(OrElse(raw.unit, d.unit), "")))
  }

  // ----- the reference: everything in order, or the first error -----

  /** The first n metrics of a file. */
  function FileItems(d: Defaults, raws: seq<RawMetric>, n: nat): Result<seq<MetricConfig>, MergeError>
    requires n <= |raws|
  {
    if n == 0 then Ok([])
    else
      var before := FileItems(d, raws, n - 1);
      if before.Err? then before
      else
        var m := IntoMetric(raws[n - 1], d);
        if m.Err? then Err(m.error) else Ok(before.value + [m.value])
  }

  /** The metrics of one file. */
  function ItemsOf(file: File): Result<seq<MetricConfig>, MergeError> {
    match file
    case Unreadable => Err(ReadFailed)
    case Unparsable => Err(ParseFailed)
    case Parsed(d, raws) => if raws == [] then Err(NoMetrics) else FileItems(d, raws, |raws|)
  }

  /** The metrics of the first n files. */
  function Items(files: seq<File>, n: nat): Result<seq<MetricConfig>, MergeError>
    requires n <= |files|
  {
    if n == 0 then Ok([])
    else
      var before := Items(files, n - 1);
      if before.Err? then before
      else
        var items := ItemsOf(files[n - 1]);
        if items.Err? then items else Ok(before.value + items.value)
  }

  lemma {:induction false} FirstErrorStays(files: seq<File>, i: nat, n: nat)
    requires i <= n <= |files| && Items(files, i).Err?
    ensures Items(files, n) == Items(files, i)
  {
    if i < n {
      FirstErrorStays(files, i, n - 1);
    }
  }

  lemma {:induction false} FirstFileErrorStays(d: Defaults, raws: seq<RawMetric>, i: nat, n: nat)
    requires i <= n <= |raws| && FileItems(d, raws, i).Err?
    ensures FileItems(d, raws, n) == FileItems(d, raws, i)
  {
    if i < n {
      FirstFileErrorStays(d, raws, i, n - 1);
    }
  }

  // ----- which value a field gets -----

  /** The own value if there is one, otherwise the file's default, otherwise the
      built-in one. */
  predicate Chosen<T(==)>(got: T, own: Option<T>, byFile: Option<T>, builtIn: T) {
    match own
    case Some(v) => got == v
    case None =>
      match byFile
      case Some(v) => got == v
      case None => got == builtIn
  }

  /** The same for a field without a built-in value. */
  predicate Given<T(==)>(got: T, own: Option<T>, byFile: Option<T>) {
    match own
    case Some(v) => got == v
    case None => byFile == Some(got)
  }

  /** Is this the full metric of that entry of a file? Name and address are always its
      own. */
  predicate FromEntry(m: MetricConfig, raw: RawMetric, d: Defaults) {
    && m.name == raw.name && m.address == raw.address
    && Given(m.kind, raw.kind, d.kind) && Given(m.dataType, raw.dataType, d.dataType)
    && (m.registerType.None? ==> raw.registerType.None? && d.registerType.None?)
    && (m.registerType.Some? ==> Given(m.registerType.value, raw.registerType, d.registerType))
    && Chosen(m.description, raw.description, d.description, "")
    && Chosen(m.byteOrder, raw.byteOrder, d.byteOrder, BigEndian)
    && Chosen(m.scale, raw.scale, d.scale, 1.0)
    && Chosen(m.offset, raw.offset, d.offset, 0.0)
    && Chosen(m.unit, raw.unit, d.unit, "")
  }

  lemma {:induction false} EntryIsTaken(raw: RawMetric, d: Defaults, m: MetricConfig)
    ensures IntoMetric(raw, d) == Ok(m) <==> FromEntry(m, raw, d)
  {
  }

  /** One entry of a file, with the defaults of that file. */
  datatype Entry = Entry(raw: RawMetric, defaults: Defaults)

  function FileEntries(d: Defaults, raws: seq<RawMetric>, n: nat): (r: seq<Entry>)
    requires n <= |raws|
    ensures |r| == n && forall i :: 0 <= i < n ==> r[i] == Entry(raws[i], d)
  {
    if n == 0 then [] else FileEntries(d, raws, n - 1) + [Entry(raws[n - 1], d)]
  }

  /** The entries of the first n files, file by file. */
  function Entries(files: seq<File>, n: nat): seq<Entry>
    requires n <= |files|
  {
    if n == 0 then []
    else
      Entries(files, n - 1)
      + match files[n - 1]
        case Parsed(d, raws) => FileEntries(d, raws, |raws|)
        case _ => []
  }

  predicate AllFrom(items: seq<MetricConfig>, entries: seq<Entry>) {
    |items| == |entries| && forall k :: 0 <= k < |items| ==> FromEntry(items[k], entries[k].raw, entries[k].defaults)
  }

  lemma {:induction false} FileItemsFrom(d: Defaults, raws: seq<RawMetric>, n: nat)
    requires n <= |raws| && FileItems(d, raws, n).Ok?
    ensures AllFrom(FileItems(d, raws, n).value, FileEntries(d, raws, n))
  {
    if n > 0 {
      FileItemsFrom(d, raws, n - 1);
      EntryIsTaken(raws[n - 1], d, IntoMetric(raws[n - 1], d).value);
    }
  }

  /** The items of all files are their entries, in order, field by field. */
  lemma {:induction false} ItemsFrom(files: seq<File>, n: nat)
    requires n <= |files| && Items(files, n).Ok?
    ensures AllFrom(Items(files, n).value, Entries(files, n))
  {
    if n > 0 {
      ItemsFrom(files, n - 1);
      match files[n - 1] {
        case Parsed(d, raws) => FileItemsFrom(d, raws, |raws|);
      }
    }
  }

  // ----- which error is reported -----

  /** The entry lacks what no default supplies; a missing type is noticed first. */
  predicate Lacks(raw: RawMetric, d: Defaults, e: MergeError) {
    if raw.kind.None? && d.kind.None? then e == MissingType(raw.name)
    else raw.dataType.None? && d.dataType.None? && e == MissingDataType(raw.name)
  }

  predicate EntryFails(raw: RawMetric, d: Defaults) {
    (raw.kind.None? && d.kind.None?) || (raw.dataType.None? && d.dataType.None?)
  }

  /** Is this the error of that file? Among its entries the first one that fails
      counts. */
  ghost predicate FailsWith(file: File, e: MergeError) {
    match file
    case Unreadable => e == ReadFailed
    case Unparsable => e == ParseFailed
    case Parsed(d, raws) => if raws == [] then e == NoMetrics else exists i: nat :: FirstLack(d, raws, i, e)
  }

  predicate FirstLack(d: Defaults, raws: seq<RawMetric>, i: nat, e: MergeError) {
    i < |raws| && Lacks(raws[i], d, e) && forall j :: 0 <= j < i ==> !EntryFails(raws[j], d)
  }

  /** The error is that of the first file that is not complete. */
  ghost predicate FailsFirst(files: seq<File>, e: MergeError) {
    exists i :: 0 <= i < |files| && FailsWith(files[i], e) && forall j :: 0 <= j < i ==> Complete(files[j])
  }

  lemma {:induction false} FileItemsLack(d: Defaults, raws: seq<RawMetric>, n: nat) returns (i: nat)
    requires n <= |raws| && FileItems(d, raws, n).Err?
    ensures i < n && FirstLack(d, raws, i, FileItems(d, raws, n).error)
  {
    if FileItems(d, raws, n - 1).Err? {
      i := FileItemsLack(d, raws, n - 1);
    } else {
      i := n - 1;
      FileItemsFail(d, raws, n - 1);
    }
  }

  /** The error reported is that of the first file that fails. */
  lemma {:induction false} ItemsError(files: seq<File>, n: nat) returns (i: nat)
    requires n <= |files| && Items(files, n).Err?
    ensures i < n && FailsWith(files[i], Items(files, n).error)
    ensures forall j :: 0 <= j < i ==> Complete(files[j])
  {
    if Items(files, n - 1).Err? {
      i := ItemsError(files, n - 1);
    } else {
      i := n - 1;
      ItemsFail(files, n - 1);
      match files[i] {
        case Parsed(d, raws) =>
          if raws != [] {
            var k := FileItemsLack(d, raws, |raws|);
          }
        case _ =>
      }
    }
  }

  // ----- the insertion-ordered map -----

  /** Inserting replaces the metric of the same name where it stands, or appends. */
  function Inserted(ms: seq<MetricConfig>, m: MetricConfig): seq<MetricConfig> {
    if ms == [] then [m]
    else if ms[0].name == m.name then [m] + ms[1..]
    else [ms[0]] + Inserted(ms[1..], m)
  }

  function Merged(items: seq<MetricConfig>, n: nat): seq<MetricConfig>
    requires n <= |items|
  {
    if n == 0 then [] else Inserted(Merged(items, n - 1), items[n - 1])
  }

  method Insert(ms: seq<MetricConfig>, m: MetricConfig) returns (r: seq<MetricConfig>)
    ensures r == Inserted(ms, m)
  {
    var i := 0;
    while i < |ms| && ms[i].name != m.name
      invariant i <= |ms| && forall k :: 0 <= k < i ==> ms[k].name != m.name
    {
      i := i + 1;
    }
    InsertedAt(ms, m, i);
    r := if i < |ms| then ms[i := m] else ms + [m];
  }

  lemma {:induction false} InsertedAt(ms: seq<MetricConfig>, m: MetricConfig, i: nat)
    requires i <= |ms| && (forall k :: 0 <= k < i ==> ms[k].name != m.name) && (i < |ms| ==> ms[i].name == m.name)
    ensures Inserted(ms, m) == if i < |ms| then ms[i := m] else ms + [m]
  {
    if i > 0 {
      InsertedAt(ms[1..], m, i - 1);
      assert ms == [ms[0]] + ms[1..];
    }
  }

  // ----- what a merge is: two independent definitions -----

  /** The names in the order in which they first occur, each once. */
  function FirstNames(items: seq<MetricConfig>, n: nat): (r: seq<string>)
    requires n <= |items|
  {
    if n == 0 then [] else Noticed(FirstNames(items, n - 1), items[n - 1].name)
  }

  function Noticed(names: seq<string>, name: string): seq<string> {
    if name in names then names else names + [name]
  }

  /** The last item of a name. */
  function LastItem(items: seq<MetricConfig>, n: nat, name: string): Option<MetricConfig>
    requires n <= |items|
  {
    if n == 0 then None
    else if items[n - 1].name == name then Some(items[n - 1])
    else LastItem(items, n - 1, name)
  }

  function NamesOf(ms: seq<MetricConfig>): (r: seq<string>)
    ensures |r| == |ms| && forall i :: 0 <= i < |ms| ==> r[i] == ms[i].name
  {
    if ms == [] then [] else [ms[0].name] + NamesOf(ms[1..])
  }

  function Lookup(ms: seq<MetricConfig>, name: string): Option<MetricConfig> {
    if ms == [] then None else if ms[0].name == name then Some(ms[0]) else Lookup(ms[1..], name)
  }

  lemma {:induction false} InsertedNames(ms: seq<MetricConfig>, m: MetricConfig)
    ensures NamesOf(Inserted(ms, m)) == Noticed(NamesOf(ms), m.name)
  {
    if ms != [] && ms[0].name != m.name {
      InsertedNames(ms[1..], m);
      assert NamesOf(ms) == [ms[0].name] + NamesOf(ms[1..]);
      assert Inserted(ms, m)[1..] == Inserted(ms[1..], m);
    } else if ms != [] {
      assert ([m] + ms[1..])[1..] == ms[1..];
      assert NamesOf(ms)[0] == m.name;
    }
  }

  lemma {:induction false} InsertedLookup(ms: seq<MetricConfig>, m: MetricConfig, name: string)
    ensures Lookup(Inserted(ms, m), name) == if name == m.name then Some(m) else Lookup(ms, name)
  {
    if ms != [] && ms[0].name != m.name {
      InsertedLookup(ms[1..], m, name);
      assert Inserted(ms, m)[1..] == Inserted(ms[1..], m);
    } else if ms != [] {
      assert ([m] + ms[1..])[1..] == ms[1..];
    }
  }

  /** The merged list has every name once, in the order in which the names first
      occur. */
  lemma {:induction false} MergedNames(items: seq<MetricConfig>, n: nat)
    requires n <= |items|
    ensures NamesOf(Merged(items, n)) == FirstNames(items, n)
  {
    if n > 0 {
      MergedNames(items, n - 1);
      InsertedNames(Merged(items, n - 1), items[n - 1]);
    }
  }

  /** Under each name it has the last item of that name. */
  lemma {:induction false} MergedLookup(items: seq<MetricConfig>, n: nat, name: string)
    requires n <= |items|
    ensures Lookup(Merged(items, n), name) == LastItem(items, n, name)
  {
    if n > 0 {
      MergedLookup(items, n - 1, name);
      InsertedLookup(Merged(items, n - 1), items[n - 1], name);
    }
  }

  lemma {:induction false} FirstNamesUnique(items: seq<MetricConfig>, n: nat, i: nat, j: nat)
    requires n <= |items| && i < j < |FirstNames(items, n)|
    ensures FirstNames(items, n)[i] != FirstNames(items, n)[j]
  {
    var before := FirstNames(items, n - 1);
    if j < |before| {
      FirstNamesUnique(items, n - 1, i, j);
    } else {
      assert before[i] in before;
    }
  }

  lemma {:induction false} LookupAt(ms: seq<MetricConfig>, k: nat)
    requires k < |ms| && forall i :: 0 <= i < k ==> ms[i].name != ms[k].name
    ensures Lookup(ms, ms[k].name) == Some(ms[k])
  {
    if k > 0 {
      LookupAt(ms[1..], k - 1);
    }
  }

  /** Entry by entry: the k-th metric is the last item of the k-th name to occur,
      and no two metrics share a name. */
  lemma {:induction false} MergedEntry(items: seq<MetricConfig>, n: nat, k: nat)
    requires n <= |items| && k < |FirstNames(items, n)|
    ensures |Merged(items, n)| == |FirstNames(items, n)|
    ensures LastItem(items, n, FirstNames(items, n)[k]) == Some(Merged(items, n)[k])
    ensures forall i :: 0 <= i < k ==> Merged(items, n)[i].name != Merged(items, n)[k].name
  {
    var r, name := Merged(items, n), FirstNames(items, n)[k];
    MergedNames(items, n);
    MergedLookup(items, n, name);
    assert NamesOf(r)[k] == name;
    forall i | 0 <= i < k ensures r[i].name != name {
      FirstNamesUnique(items, n, i, k);
      assert NamesOf(r)[i] == r[i].name;
    }
    LookupAt(r, k);
  }

  // ----- where each metric of the list comes from -----

  function EntryNames(entries: seq<Entry>, n: nat): (r: seq<string>)
    requires n <= |entries|
    ensures |r| == n && forall i :: 0 <= i < n ==> r[i] == entries[i].raw.name
  {
    if n == 0 then [] else EntryNames(entries, n - 1) + [entries[n - 1].raw.name]
  }

  /** The names of all entries and then of the inline metrics. */
  function Listing(entries: seq<Entry>, inline: seq<MetricConfig>): seq<string> {
    EntryNames(entries, |entries|) + NamesOf(inline)
  }

  /** Place j is the last one of its name. */
  predicate LastOfName(names: seq<string>, j: nat) {
    j < |names| && forall l :: j < l < |names| ==> names[l] != names[j]
  }

  predicate FirstOfName(names: seq<string>, j: nat) {
    j < |names| && forall l :: 0 <= l < j ==> names[l] != names[j]
  }

  /** The metric is that of place j of the listing: an inline metric as it is, an entry
      with its defaults. */
  predicate ComesFrom(m: MetricConfig, entries: seq<Entry>, inline: seq<MetricConfig>, j: nat) {
    && j < |entries| + |inline|
    && if j < |entries| then FromEntry(m, entries[j].raw, entries[j].defaults) else m == inline[j - |entries|]
  }

  /** The metric is that of the last place of its name. */
  ghost predicate Sourced(m: MetricConfig, entries: seq<Entry>, inline: seq<MetricConfig>) {
    exists j: nat :: LastOfName(Listing(entries, inline), j) && ComesFrom(m, entries, inline, j)
  }

  /** Metric k first occurs at this place. */
  predicate Begins(r: seq<MetricConfig>, k: nat, names: seq<string>, f: nat) {
    k < |r| && FirstOfName(names, f) && names[f] == r[k].name
  }

  /** The resolved list: every name of the listing once, in the order of their first
      places, each with the metric of its last place. */
  ghost predicate Resolved(r: seq<MetricConfig>, entries: seq<Entry>, inline: seq<MetricConfig>) {
    && (forall k :: 0 <= k < |r| ==> Sourced(r[k], entries, inline))
    && (forall name :: name in NamesOf(r) <==> name in Listing(entries, inline))
    && (forall k: nat, l: nat, f: nat, g: nat {:trigger Begins(r, k, Listing(entries, inline), f), Begins(r, l, Listing(entries, inline), g)} ::
          Begins(r, k, Listing(entries, inline), f) && Begins(r, l, Listing(entries, inline), g) && k < l ==> f < g)
  }

  lemma {:induction false} ListingNames(items: seq<MetricConfig>, entries: seq<Entry>, inline: seq<MetricConfig>)
    requires AllFrom(items, entries)
    ensures Listing(entries, inline) == NamesOf(items + inline)
  {
    var all, names := items + inline, Listing(entries, inline);
    forall i | 0 <= i < |all| ensures names[i] == NamesOf(all)[i] {
    }
  }

  lemma {:induction false} LastItemIsLast(items: seq<MetricConfig>, n: nat, name: string) returns (j: nat)
    requires n <= |items| && LastItem(items, n, name).Some?
    ensures j < n && items[j].name == name && LastItem(items, n, name) == Some(items[j])
    ensures forall l :: j < l < n ==> items[l].name != name
  {
    if items[n - 1].name == name {
      j := n - 1;
    } else {
      j := LastItemIsLast(items, n - 1, name);
    }
  }

  lemma {:induction false} FirstNameIsFirst(items: seq<MetricConfig>, n: nat, k: nat) returns (f: nat)
    requires n <= |items| && k < |FirstNames(items, n)|
    ensures f < n && items[f].name == FirstNames(items, n)[k]
    ensures forall l :: 0 <= l < f ==> items[l].name != items[f].name
    ensures forall l :: 0 <= l < k ==> FirstNames(items, n)[l] in FirstNames(items, f)
  {
    var before := FirstNames(items, n - 1);
    if k < |before| {
      f := FirstNameIsFirst(items, n - 1, k);
    } else {
      f := n - 1;
      forall l | 0 <= l < f ensures items[l].name != items[f].name {
        NameIsNoticed(items, f, l);
      }
    }
  }

  lemma {:induction false} NameIsNoticed(items: seq<MetricConfig>, n: nat, l: nat)
    requires l < n <= |items|
    ensures items[l].name in FirstNames(items, n)
  {
    if l < n - 1 {
      NameIsNoticed(items, n - 1, l);
    }
  }

  lemma {:induction false} NoticedBefore(items: seq<MetricConfig>, n: nat, name: string) returns (l: nat)
    requires n <= |items| && name in FirstNames(items, n)
    ensures l < n && items[l].name == name
  {
    if items[n - 1].name == name {
      l := n - 1;
    } else {
      l := NoticedBefore(items, n - 1, name);
    }
  }

  lemma {:induction false} PlaceIsSource(items: seq<MetricConfig>, entries: seq<Entry>, inline: seq<MetricConfig>, j: nat)
    requires AllFrom(items, entries) && j < |items| + |inline|
    ensures ComesFrom((items + inline)[j], entries, inline, j)
  {
  }

  lemma {:induction false} LastIsSource(
    items: seq<MetricConfig>, entries: seq<Entry>, inline: seq<MetricConfig>, name: string, m: MetricConfig)
    requires AllFrom(items, entries) && LastItem(items + inline, |items + inline|, name) == Some(m)
    ensures Sourced(m, entries, inline)
  {
    var all := items + inline;
    var j := LastItemIsLast(all, |all|, name);
    PlaceIsSource(items, entries, inline, j);
    LastIsListed(items, entries, inline, j);
  }

  lemma {:induction false} LastIsListed(items: seq<MetricConfig>, entries: seq<Entry>, inline: seq<MetricConfig>, j: nat)
    requires AllFrom(items, entries) && j < |items + inline|
    requires forall l :: j < l < |items + inline| ==> (items + inline)[l].name != (items + inline)[j].name
    ensures LastOfName(Listing(entries, inline), j)
  {
    ListingNames(items, entries, inline);
  }

  lemma {:induction false} PlacesAscend(items: seq<MetricConfig>, r: seq<MetricConfig>, k: nat, l: nat, f: nat, g: nat)
    requires r == Merged(items, |items|) && k < l < |r|
    requires Begins(r, k, NamesOf(items), f) && Begins(r, l, NamesOf(items), g)
    ensures f < g
  {
    MergedNames(items, |items|);
    assert NamesOf(r)[k] == r[k].name && NamesOf(r)[l] == r[l].name;
    var h := FirstNameIsFirst(items, |items|, l);
    assert h == g;
    var e := NoticedBefore(items, h, r[k].name);
    assert f <= e;
  }

  lemma {:induction false} NamesAreKept(items: seq<MetricConfig>, name: string)
    ensures name in FirstNames(items, |items|) <==> name in NamesOf(items)
  {
    if name in NamesOf(items) {
      var i :| 0 <= i < |items| && NamesOf(items)[i] == name;
      NameIsNoticed(items, |items|, i);
    }
    if name in FirstNames(items, |items|) {
      var l := NoticedBefore(items, |items|, name);
      assert NamesOf(items)[l] == name;
    }
  }

  /** The merge of all entries and inline metrics is the resolved list. */
  lemma {:induction false} MergeResolves(items: seq<MetricConfig>, entries: seq<Entry>, inline: seq<MetricConfig>)
    requires AllFrom(items, entries)
    ensures Resolved(Merged(items + inline, |items + inline|), entries, inline)
  {
    var all, names := items + inline, Listing(entries, inline);
    var r := Merged(all, |all|);
    MergedNames(all, |all|);
    forall k | 0 <= k < |r| ensures Sourced(r[k], entries, inline) {
      MergedEntry(all, |all|, k);
      LastIsSource(items, entries, inline, FirstNames(all, |all|)[k], r[k]);
    }
    ListingNames(items, entries, inline);
    forall name ensures name in NamesOf(r) <==> name in names {
      NamesAreKept(all, name);
    }
    forall k: nat, l: nat, f: nat, g: nat | Begins(r, k, names, f) && Begins(r, l, names, g) && k < l ensures f < g {
      PlacesAscend(all, r, k, l, f, g);
    }
  }

  // ----- the collector's list -----

  class Collector {
    const files: seq<File>
    var metrics: seq<MetricConfig>

    constructor (files: seq<File>, metrics: seq<MetricConfig>)
      ensures this.files == files && this.metrics == metrics
    {
      this.files := files;
      this.metrics := metrics;
    }

    /** Merges one file into the map. */
    method MergeFile(d: Defaults, raws: seq<RawMetric>, merged: seq<MetricConfig>, ghost items: seq<MetricConfig>)
      returns (r: Result<seq<MetricConfig>, MergeError>)
      requires merged == Merged(items, |items|)
      ensures var file := FileItems(d, raws, |raws|);
              r == if file.Err? then Err(file.error)
                   else Ok(Merged(items + file.value, |items + file.value|))
    {
      var ms := merged;
      ghost var all := items;
      for i := 0 to |raws|
        invariant FileItems(d, raws, i).Ok? && all == items + FileItems(d, raws, i).value
        invariant ms == Merged(all, |all|)
      {
        var m := IntoMetric(raws[i], d);
        if m.Err? {
          FirstFileErrorStays(d, raws, i + 1, |raws|);
          return Err(m.error);
        }
        MergedExtended(all, m.value);
        ms := Insert(ms, m.value);
        all := all + [m.value];
      }
      r := Ok(ms);
    }

    /** Merges all files, in order. */
    method MergeFiles() returns (r: Result<seq<MetricConfig>, MergeError>)
      ensures var items := Items(files, |files|);
              r == if items.Err? then Err(items.error) else Ok(Merged(items.value, |items.value|))
    {
      var merged: seq<MetricConfig> := [];
      ghost var all: seq<MetricConfig> := [];
      for i := 0 to |files|
        invariant Items(files, i) == Ok(all) && merged == Merged(all, |all|)
      {
        match files[i] {
          case Unreadable =>
            FirstErrorStays(files, i + 1, |files|);
            return Err(ReadFailed);
          case Unparsable =>
            FirstErrorStays(files, i + 1, |files|);
            return Err(ParseFailed);
          case Parsed(d, raws) =>
            if raws == [] {
              FirstErrorStays(files, i + 1, |files|);
              return Err(NoMetrics);
            }
            var next := MergeFile(d, raws, merged, all);
            if next.Err? {
              FirstErrorStays(files, i + 1, |files|);
              return Err(next.error);
            }
            merged := next.value;
            all := all + FileItems(d, raws, |raws|).value;
        }
      }
      r := Ok(merged);
    }

    /** Files first, in order, then the inline metrics: the resolved list. It comes
        together exactly if every file is complete; otherwise the error is that of the
        first file that is not, and the metric list is what it was. */
    method ResolveMetricsFiles() returns (r: Option<MergeError>)
      modifies this
      ensures var items := Items(files, |files|);
              if items.Err? then r == Some(items.error) && metrics == old(metrics)
              else r == None && var all := items.value + old(metrics); metrics == Merged(all, |all|)
      ensures r == None <==> forall i :: 0 <= i < |files| ==> Complete(files[i])
      ensures r == None ==> Resolved(metrics, Entries(files, |files|), old(metrics))
      ensures r.Some? ==> FailsFirst(files, r.value)
    {
      Outcome(files, metrics);
      var merged := MergeFiles();
      if merged.Err? {
        return Some(merged.error);
      }
      var inline := metrics;
      metrics := [];
      MergeInline(inline, merged.value, Items(files, |files|).value);
      r := None;
    }

    method MergeInline(inline: seq<MetricConfig>, merged: seq<MetricConfig>, ghost items: seq<MetricConfig>)
      requires merged == Merged(items, |items|)
      modifies this
      ensures metrics == Merged(items + inline, |items + inline|)
    {
      var ms := merged;
      ghost var all := items;
      for i := 0 to |inline|
        invariant all == items + inline[..i] && ms == Merged(all, |all|)
      {
        MergedExtended(all, inline[i]);
        ms := Insert(ms, inline[i]);
        all := all + [inline[i]];
        assert all == items + inline[..i + 1];
      }
      assert inline[..|inline|] == inline;
      metrics := ms;
    }
  }

  /** What resolving comes to, whether it succeeds or not. */
  lemma {:induction false} Outcome(files: seq<File>, inline: seq<MetricConfig>)
    ensures var items := Items(files, |files|);
            && (items.Ok? <==> forall i :: 0 <= i < |files| ==> Complete(files[i]))
            && (items.Ok? ==> var all := items.value + inline; Resolved(Merged(all, |all|), Entries(files, |files|), inline))
            && (items.Err? ==> FailsFirst(files, items.error))
  {
    ItemsFail(files, |files|);
    if Items(files, |files|).Ok? {
      ItemsFrom(files, |files|);
      MergeResolves(Items(files, |files|).value, Entries(files, |files|), inline);
    } else {
      var i := ItemsError(files, |files|);
    }
  }

  lemma {:induction false} MergedPrefix(items: seq<MetricConfig>, more: seq<MetricConfig>, n: nat)
    requires n <= |items| && items <= more
    ensures Merged(items, n) == Merged(more, n)
    decreases n
  {
    if n > 0 {
      MergedPrefix(items, more, n - 1);
      assert items[n - 1] == more[n - 1];
    }
  }

  lemma {:induction false} MergedExtended(items: seq<MetricConfig>, m: MetricConfig)
    ensures Merged(items + [m], |items| + 1) == Inserted(Merged(items, |items|), m)
  {
    MergedPrefix(items, items + [m], |items|);
  }

  /** Can the file be read and parsed, has it metrics, and has each of them a type and a
      data type, of its own or by default? */
  predicate Complete(file: File) {
    file.Parsed? && file.metrics != []
    && forall i :: 0 <= i < |file.metrics| ==>
         !EntryFails(file.metrics[i], file.defaults)
  }

  lemma {:induction false} FileItemsFail(d: Defaults, raws: seq<RawMetric>, n: nat)
    requires n <= |raws|
    ensures FileItems(d, raws, n).Ok? <==>
            forall i :: 0 <= i < n ==> !EntryFails(raws[i], d)
  {
    if n > 0 {
      FileItemsFail(d, raws, n - 1);
    }
  }

  /** The list comes together exactly if every file is complete. */
  lemma {:induction false} ItemsFail(files: seq<File>, n: nat)
    requires n <= |files|
    ensures Items(files, n).Ok? <==> forall i :: 0 <= i < n ==> Complete(files[i])
  {
    if n > 0 {
      ItemsFail(files, n - 1);
      var file := files[n - 1];
      if file.Parsed? {
        FileItemsFail(file.defaults, file.metrics, |file.metrics|);
      }
    }
  }
}
