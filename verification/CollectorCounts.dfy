/** The books of a collector task: the poll counters agree with what happened in
    the history, and no read error is lost or counted twice. */
module CollectorCounts {
  import opened Wrappers
  import opened MetricTypes
  import opened CollectorTrace
  import opened CollectorOrder

  // ----- which cycles failed -----

  /** A read fails if a configured metric got an error, and finds the connection
      gone if the reader says so after one of these errors. */
  predicate ErrorAt(cfg: CollectorConfig, results: seq<Entry>, k: nat) {
    k < |results| && Known(cfg, results[k].name) && results[k].reply.Failed?
  }

  ghost predicate ReadFails(cfg: CollectorConfig, results: seq<Entry>) {
    exists k: nat :: ErrorAt(cfg, results, k)
  }

  predicate LossAt(cfg: CollectorConfig, results: seq<Entry>, k: nat) {
    ErrorAt(cfg, results, k) && !results[k].reply.connected
  }

  ghost predicate ReadLoses(cfg: CollectorConfig, results: seq<Entry>) {
    exists k: nat :: LossAt(cfg, results, k)
  }

  lemma {:induction false} DigestFails(cfg: CollectorConfig, counts: map<string, nat>, results: seq<Entry>, n: nat)
    requires n <= |results|
    ensures Failures(Digest(cfg, counts, results, n)) > 0 <==> exists k: nat :: k < n && ErrorAt(cfg, results, k)
    ensures Digest(cfg, counts, results, n).lost <==> exists k: nat :: k < n && LossAt(cfg, results, k)
  {
    if n > 0 {
      DigestFails(cfg, counts, results, n - 1);
      assert ErrorAt(cfg, results, n - 1) <==> Known(cfg, results[n - 1].name) && results[n - 1].reply.Failed?;
      assert LossAt(cfg, results, n - 1) <==> ErrorAt(cfg, results, n - 1) && !results[n - 1].reply.connected;
    }
  }

  lemma {:induction false} DigestMeaning(cfg: CollectorConfig, counts: map<string, nat>, results: seq<Entry>)
    ensures Failures(Digest(cfg, counts, results, |results|)) > 0 <==> ReadFails(cfg, results)
    ensures Digest(cfg, counts, results, |results|).lost <==> ReadLoses(cfg, results)
  {
    DigestFails(cfg, counts, results, |results|);
  }

  ghost predicate FailedCycle(cfg: CollectorConfig, e: Event) {
    e == PrePoll(false) || (e.Read? && ReadFails(cfg, e.results))
  }

  ghost predicate CleanRead(cfg: CollectorConfig, e: Event) {
    e.Read? && !ReadFails(cfg, e.results)
  }

  // ----- poll accounting -----

  /** What a shared counter stands at after n events. */
  function Counted(t: seq<Event>, n: nat, c: Counter): nat
    requires n <= |t|
  {
    if n == 0 then 0 else Counted(t, n - 1, c) + if t[n - 1] == Count(c) then 1 else 0
  }

  lemma {:induction false} CountersCounted(cfg: CollectorConfig, t: seq<Event>, n: nat)
    requires n <= |t|
    ensures After(cfg, t, n).total == Counted(t, n, PollsTotal)
    ensures After(cfg, t, n).success == Counted(t, n, PollsSuccess)
    ensures After(cfg, t, n).error == Counted(t, n, PollsError)
    ensures After(cfg, t, n).readErrors == Counted(t, n, Counter.ReadErrors)
  {
    if n > 0 {
      CountersCounted(cfg, t, n - 1);
    }
  }

  ghost function Cycles(t: seq<Event>, n: nat): nat
    requires n <= |t|
  {
    if n == 0 then 0 else Cycles(t, n - 1) + if t[n - 1] == CycleStart then 1 else 0
  }

  ghost function CleanReads(cfg: CollectorConfig, t: seq<Event>, n: nat): nat
    requires n <= |t|
  {
    if n == 0 then 0 else CleanReads(cfg, t, n - 1) + if CleanRead(cfg, t[n - 1]) then 1 else 0
  }

  ghost function FailedCycles(cfg: CollectorConfig, t: seq<Event>, n: nat): nat
    requires n <= |t|
  {
    if n == 0 then 0 else FailedCycles(cfg, t, n - 1) + if FailedCycle(cfg, t[n - 1]) then 1 else 0
  }

  /** A cycle that is over but not yet accounted for. */
  predicate Owed(s: Summary) { s.InCycle() && !s.started }

  ghost predicate InStep(s: Summary, cycles: nat, clean: nat, failed: nat) {
    && (s.Settled() || s.InCycle())
    && cycles == s.total + (if s.started && s.Settled() then 1 else 0)
    && clean == s.success + (if Owed(s) && !s.failed then 1 else 0)
    && failed == s.error + (if Owed(s) && s.failed then 1 else 0)
  }

  lemma {:induction false} StepKeepsCounts(cfg: CollectorConfig, s: Summary, e: Event, cycles: nat, clean: nat, failed: nat)
    requires cfg.observed && Permitted(cfg, s, e) && InStep(s, cycles, clean, failed)
    ensures InStep(Observe(cfg, s, e),
                   cycles + (if e == CycleStart then 1 else 0),
                   clean + (if CleanRead(cfg, e) then 1 else 0),
                   failed + (if FailedCycle(cfg, e) then 1 else 0))
  {
    if e.Read? {
      DigestMeaning(cfg, s.counts, e.results);
    }
  }

  ghost predicate InStepAt(cfg: CollectorConfig, t: seq<Event>, n: nat) {
    forall b {:trigger Unfold(b)} :: Unfold(b) ==>
      n <= |t| && InStep(After(cfg, t, n), Cycles(t, n), CleanReads(cfg, t, n), FailedCycles(cfg, t, n))
  }

  lemma {:induction false} CountsStayInStep(cfg: CollectorConfig, t: seq<Event>, m: nat, n: nat)
    requires cfg.observed && Legal(cfg, t) && n == m + 1 <= |t| && InStepAt(cfg, t, m)
    ensures InStepAt(cfg, t, n)
  {
    assert Unfold(true);
    assert PermittedAt(cfg, t, m);
    StepKeepsCounts(cfg, After(cfg, t, m), t[m], Cycles(t, m), CleanReads(cfg, t, m), FailedCycles(cfg, t, m));
  }

  lemma {:induction false} NothingIsInStep(s: Summary, none: nat)
    requires s.Settled() && !s.started && s.total == s.success == s.error == none == 0
    ensures InStep(s, none, none, none)
  {
  }

  lemma {:induction false} StartInStep(cfg: CollectorConfig, t: seq<Event>, n: nat)
    requires n == 0
    ensures InStepAt(cfg, t, n)
  {
    NothingIsInStep(After(cfg, t, n), n);
  }

  lemma {:induction false} CountsInStep(cfg: CollectorConfig, t: seq<Event>, n: nat)
    requires cfg.observed && Legal(cfg, t) && n <= |t|
    ensures InStepAt(cfg, t, n)
  {
    if n == 0 {
      StartInStep(cfg, t, n);
    } else {
      CountsInStep(cfg, t, n - 1);
      CountsStayInStep(cfg, t, n - 1, n);
    }
  }

  /** At every moment all started polls but at most the current one are accounted
      for. Whenever a new cycle starts, polls_total is the number of cycles so
      far, polls_success the number of reads without an error and polls_error
      the number of cycles that failed. */
  lemma {:induction false} PollAccounting(cfg: CollectorConfig, t: seq<Event>, n: nat)
    requires cfg.observed && Legal(cfg, t) && n <= |t|
    ensures var total, success, error := Counted(t, n, PollsTotal), Counted(t, n, PollsSuccess), Counted(t, n, PollsError);
            && success + error <= total <= success + error + 1
            && (n < |t| && t[n] == CycleStart ==>
                  && total == success + error == Cycles(t, n)
                  && success == CleanReads(cfg, t, n) && error == FailedCycles(cfg, t, n))
  {
    CountsInStep(cfg, t, n);
    CountersCounted(cfg, t, n);
    assert Unfold(true);
    if n < |t| {
      assert PermittedAt(cfg, t, n);
    }
  }

  lemma {:induction false} CountsAfterCancel(cfg: CollectorConfig, t: seq<Event>, i: nat, n: nat)
    requires Legal(cfg, t) && i <= n <= |t| && After(cfg, t, i).cancelled
    ensures var a, b := After(cfg, t, i), After(cfg, t, n);
            b.cancelled && b.total == a.total && b.success == a.success && b.error == a.error
  {
    if i < n {
      CountsAfterCancel(cfg, t, i, n - 1);
      assert PermittedAt(cfg, t, n - 1);
    }
  }

  /** A cycle has started before n and has not come to its read or the failure of its
      pre-poll. */
  ghost predicate MidCycle(t: seq<Event>, n: nat) {
    exists i: nat :: LastStart(t, i, n)
  }

  lemma {:induction false} StartedIsMidCycle(cfg: CollectorConfig, t: seq<Event>, n: nat)
    requires n <= |t|
    ensures After(cfg, t, n).started <==> MidCycle(t, n)
  {
    if After(cfg, t, n).started {
      var i := FindStart(cfg, t, n);
    } else if MidCycle(t, n) {
      var i: nat :| LastStart(t, i, n);
      StartLasts(cfg, t, i, n);
    }
  }

  /** A run ends with one poll unaccounted for if and only if it was cancelled
      between the start of a cycle and its read; otherwise its books are closed. */
  lemma {:induction false} FinalBalance(cfg: CollectorConfig, t: seq<Event>, i: nat)
    requires cfg.observed && Legal(cfg, t) && i < |t| && t[i].Cancel?
    ensures t[i] == Cancel(BeforeRead) <==> MidCycle(t, i)
    ensures Counted(t, |t|, PollsTotal)
         == Counted(t, |t|, PollsSuccess) + Counted(t, |t|, PollsError) + if MidCycle(t, i) then 1 else 0
  {
    assert PermittedAt(cfg, t, i);
    StartedIsMidCycle(cfg, t, i);
    CountsAfterCancel(cfg, t, i + 1, |t|);
    CountersCounted(cfg, t, |t|);
  }

  // ----- error conservation -----

  ghost function Sum(counts: map<string, nat>): nat {
    if counts == map[] then 0
    else
      var name :| name in counts;
      counts[name] + Sum(counts - {name})
  }

  lemma {:induction false} SumWithout(counts: map<string, nat>, name: string)
    requires name in counts
    ensures Sum(counts) == counts[name] + Sum(counts - {name})
    decreases |counts|
  {
    var pick :| pick in counts && Sum(counts) == counts[pick] + Sum(counts - {pick});
    if pick != name {
      SumWithout(counts - {pick}, name);
      SumWithout(counts - {name}, pick);
      assert counts - {pick} - {name} == counts - {name} - {pick};
    }
  }

  lemma {:induction false} SumOfCharged(counts: map<string, nat>, name: string)
    ensures Sum(Charged(counts, name)) == Sum(counts) + 1
  {
    var charged := Charged(counts, name);
    SumWithout(charged, name);
    if name in counts {
      SumWithout(counts, name);
      assert charged - {name} == counts - {name};
    } else {
      assert charged - {name} == counts;
    }
  }

  lemma {:induction false} DigestCharges(cfg: CollectorConfig, counts: map<string, nat>, results: seq<Entry>, n: nat)
    requires n <= |results|
    ensures var p := Digest(cfg, counts, results, n); Sum(p.counts) == Sum(counts) + p.errors
  {
    if n > 0 {
      DigestCharges(cfg, counts, results, n - 1);
      SumOfCharged(Digest(cfg, counts, results, n - 1).counts, results[n - 1].name);
    }
  }

  lemma {:induction false} DigestAddsUp(cfg: CollectorConfig, counts: map<string, nat>, results: seq<Entry>, n: nat, name: string)
    requires n <= |results|
    ensures var p := Digest(cfg, counts, results, n);
            && CountOf(counts, name) <= CountOf(p.counts, name)
            && (name in counts ==> name in p.counts)
            && (name in p.counts ==> name in counts || Known(cfg, name))
  {
    if n > 0 {
      DigestAddsUp(cfg, counts, results, n - 1, name);
    }
  }

  /** Every error entered into the counts is in the count of one metric. */
  lemma {:induction false} ErrorsAreCharged(cfg: CollectorConfig, t: seq<Event>, n: nat)
    requires n <= |t|
    ensures After(cfg, t, n).errors == Sum(After(cfg, t, n).counts)
  {
    if n > 0 {
      ErrorsAreCharged(cfg, t, n - 1);
      if t[n - 1].Read? {
        DigestCharges(cfg, After(cfg, t, n - 1).counts, t[n - 1].results, |t[n - 1].results|);
      }
    }
  }

  /** The reads that found the connection gone. */
  ghost function LostReads(cfg: CollectorConfig, t: seq<Event>, n: nat): nat
    requires n <= |t|
  {
    if n == 0 then 0 else LostReads(cfg, t, n - 1) + if t[n - 1].Read? && ReadLoses(cfg, t[n - 1].results) then 1 else 0
  }

  lemma {:induction false} AbortedCounted(cfg: CollectorConfig, t: seq<Event>, n: nat)
    requires n <= |t|
    ensures After(cfg, t, n).aborted == LostReads(cfg, t, n)
  {
    if n > 0 {
      AbortedCounted(cfg, t, n - 1);
      if t[n - 1].Read? {
        DigestMeaning(cfg, After(cfg, t, n - 1).counts, t[n - 1].results);
      }
    }
  }

  /** This result is an error charged to this metric: no earlier result of the read
      revealed a lost connection, and neither does this one. */
  ghost predicate ChargedAt(cfg: CollectorConfig, results: seq<Entry>, k: nat, name: string) {
    && ErrorAt(cfg, results, k) && results[k] == Entry(name, Failed(true))
    && forall j: nat :: j < k ==> !LossAt(cfg, results, j)
  }

  ghost predicate ChargedBefore(cfg: CollectorConfig, results: seq<Entry>, n: nat, name: string) {
    exists k: nat :: k < n && ChargedAt(cfg, results, k, name)
  }

  ghost predicate Charges(cfg: CollectorConfig, e: Event, name: string) {
    e.Read? && ChargedBefore(cfg, e.results, |e.results|, name)
  }

  /** The reads so far that charged an error to a metric. */
  ghost function ErrorsOf(cfg: CollectorConfig, t: seq<Event>, n: nat, name: string): nat
    requires n <= |t|
  {
    if n == 0 then 0 else ErrorsOf(cfg, t, n - 1, name) + if Charges(cfg, t[n - 1], name) then 1 else 0
  }

  lemma {:induction false} NextCharge(cfg: CollectorConfig, counts: map<string, nat>, results: seq<Entry>, m: nat, name: string)
    requires m < |results| && Distinct(results)
    ensures var here := !Digest(cfg, counts, results, m).lost && ErrorAt(cfg, results, m) && results[m] == Entry(name, Failed(true));
            && (here <==> ChargedAt(cfg, results, m, name))
            && (ChargedBefore(cfg, results, m + 1, name) <==> ChargedBefore(cfg, results, m, name) || here)
            && !(ChargedBefore(cfg, results, m, name) && here)
  {
    DigestFails(cfg, counts, results, m);
    assert ChargedBefore(cfg, results, m + 1, name) <==> ChargedBefore(cfg, results, m, name) || ChargedAt(cfg, results, m, name);
  }

  lemma {:induction false} DigestCounts(cfg: CollectorConfig, counts: map<string, nat>, results: seq<Entry>, n: nat, name: string)
    requires n <= |results| && Distinct(results)
    ensures var p, charged := Digest(cfg, counts, results, n), ChargedBefore(cfg, results, n, name);
            && CountOf(p.counts, name) == CountOf(counts, name) + (if charged then 1 else 0)
            && (name in p.counts <==> name in counts || charged)
  {
    if n > 0 {
      DigestCounts(cfg, counts, results, n - 1, name);
      NextCharge(cfg, counts, results, n - 1, name);
    }
  }

  /** The count a task keeps for a metric is the number of reads that charged an
      error to it; it has one as soon as there is such a read. */
  lemma {:induction false} ErrorsCounted(cfg: CollectorConfig, t: seq<Event>, n: nat, name: string)
    requires Legal(cfg, t) && n <= |t|
    ensures CountOf(After(cfg, t, n).counts, name) == ErrorsOf(cfg, t, n, name)
    ensures name in After(cfg, t, n).counts <==> ErrorsOf(cfg, t, n, name) > 0
  {
    if n > 0 {
      ErrorsCounted(cfg, t, n - 1, name);
      if t[n - 1].Read? {
        assert PermittedAt(cfg, t, n - 1);
        var results := t[n - 1].results;
        DigestCounts(cfg, After(cfg, t, n - 1).counts, results, |results|, name);
      }
    }
  }

  /** Only configured metrics are charged, and what is charged to them never
      decreases. */
  lemma {:induction false} ErrorsGrow(cfg: CollectorConfig, t: seq<Event>, m: nat, n: nat, name: string)
    requires m <= n <= |t|
    ensures ErrorsOf(cfg, t, m, name) <= ErrorsOf(cfg, t, n, name)
    ensures ErrorsOf(cfg, t, n, name) > 0 ==> ErrorsOf(cfg, t, m, name) > 0 || Known(cfg, name)
  {
    if m < n {
      ErrorsGrow(cfg, t, m, n - 1, name);
    }
  }

  ghost function Names(metrics: seq<MetricConfig>): set<string> {
    if metrics == [] then {} else {metrics[0].name} + Names(metrics[1..])
  }

  lemma {:induction false} KnownIsNamed(metrics: seq<MetricConfig>, name: string)
    ensures Find(metrics, name).Some? <==> name in Names(metrics)
  {
    if metrics != [] {
      KnownIsNamed(metrics[1..], name);
    }
  }

  /** The errors of all metrics that have any. */
  ghost function ErrorTable(cfg: CollectorConfig, t: seq<Event>, n: nat): map<string, nat>
    requires n <= |t|
  {
    map name | name in Names(cfg.metrics) && ErrorsOf(cfg, t, n, name) > 0 :: ErrorsOf(cfg, t, n, name)
  }

  lemma {:induction false} CountsAreErrors(cfg: CollectorConfig, t: seq<Event>, n: nat)
    requires Legal(cfg, t) && n <= |t|
    ensures After(cfg, t, n).counts == ErrorTable(cfg, t, n)
  {
    var counts, table := After(cfg, t, n).counts, ErrorTable(cfg, t, n);
    forall name: string
      ensures name in counts <==> name in table
      ensures name in counts ==> counts[name] == table[name]
    {
      ErrorsCounted(cfg, t, n, name);
      ErrorsGrow(cfg, t, 0, n, name);
      KnownIsNamed(cfg.metrics, name);
    }
  }

  /** Whenever a cycle starts, a snapshot is published or a run ends, read_errors is the sum
      of the errors charged to all metrics plus the reads cut short by a lost
      connection. */
  lemma {:induction false} ErrorConservation(cfg: CollectorConfig, t: seq<Event>, n: nat)
    requires cfg.observed && Legal(cfg, t) && n < |t| && (t[n] == CycleStart || t[n].Publish? || t[n].Cancel?)
    ensures Counted(t, n, Counter.ReadErrors) == Sum(ErrorTable(cfg, t, n)) + LostReads(cfg, t, n)
  {
    assert PermittedAt(cfg, t, n);
    ErrorsAreCharged(cfg, t, n);
    CountsAreErrors(cfg, t, n);
    AbortedCounted(cfg, t, n);
    CountersCounted(cfg, t, n);
  }
}
