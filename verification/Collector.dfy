/** One collector task (`run_collector` and `reconnect_with_init_writes`,
    src/collector.rs:30-399). Each loop iteration of the source is one method;
    everything outside the task answers arbitrarily, through `World`. */
module Collector {
  import opened Wrappers
  import opened MetricTypes
  import opened CollectorTrace

  function AfterConnect(s: Summary, ok: bool): Summary {
    s.(connected := ok, closed := false, lost := false, rested := false, initialised := false, spoiled := false,
       waits := if ok then 0 else s.waits, streak := if ok then 0 else s.streak)
  }

  function AfterWait(s: Summary): Summary {
    s.(rested := true, waits := s.waits + 1, looked := false)
  }

  /** Nobody has asked for the end yet. */
  predicate Running(s: Summary) { !s.signalled && !s.cancelled }

  function AfterLook(s: Summary): Summary {
    s.(looked := true)
  }

  function AfterShutdown(s: Summary): Summary {
    s.(looked := true, signalled := true)
  }

  function AfterCancel(s: Summary): Summary {
    s.(cancelled := true)
  }

  /** A wait cut short by the shutdown request. */
  function AfterStop(s: Summary): Summary {
    s.(rested := true, waits := s.waits + 1, looked := true, signalled := true, cancelled := true)
  }

  /** A wait that was not. */
  function AfterRest(s: Summary): Summary {
    s.(rested := true, waits := s.waits + 1, looked := true)
  }

  lemma {:induction false} RestsOrStops(s: Summary)
    ensures AfterLook(AfterWait(s)) == AfterRest(s)
    ensures AfterCancel(AfterShutdown(AfterWait(s))) == AfterStop(s)
  {
  }

  function AfterPrePoll(s: Summary, ok: bool): Summary {
    s.(started := s.started && ok, prePolled := ok, failed := !ok, streak := if ok then 0 else s.streak + 1)
  }

  function AfterPublish(s: Summary, snapshot: map<string, MetricValue>): Summary
    requires s.pending.Some?
  {
    s.(latest := s.latest + s.pending.value, pending := None, published := snapshot, looked := false)
  }

  function AfterCount(s: Summary, counter: Counter): Summary {
    match counter
    case PollsTotal => s.(total := s.total + 1)
    case PollsSuccess => s.(success := s.success + 1)
    case PollsError => s.(error := s.error + 1)
    case ReadErrors => s.(readErrors := s.readErrors + 1)
  }

  lemma {:induction false} CountIs(cfg: CollectorConfig, s: Summary, counter: Counter)
    ensures Observe(cfg, s, Count(counter)) == AfterCount(s, counter)
  {
  }

  /** The client, writer, store, clock and shutdown signal of one task. Every
      call is recorded; its answer is arbitrary. */
  class World {
    const cfg: CollectorConfig
    ghost var trace: seq<Event>
    ghost var seen: Summary

    /** The history obeys the rules and `seen` sums it up. The guard keeps the
        history folded in proofs that only pass this on. */
    ghost predicate Valid()
      reads this
    {
      forall b {:trigger Unfold(b)} :: Unfold(b) ==> seen == After(cfg, trace, |trace|) && Legal(cfg, trace)
    }

    constructor (cfg: CollectorConfig)
      ensures Valid() && trace == [] && this.cfg == cfg && seen == Start
    {
      this.cfg := cfg;
      trace := [];
      seen := Start;
    }

    /** Adds an event the rules permit. The calls below spell out what this comes to
        for each of them. */
    ghost method Record(e: Event)
      requires Valid() && Permitted(cfg, seen, e)
      modifies this
      ensures Valid() && trace == old(trace) + [e] && seen == Observe(cfg, old(seen), e)
    {
      assert Unfold(true);
      Extends(cfg, trace, e);
      trace := trace + [e];
      seen := Observe(cfg, seen, e);
    }

    method Connect() returns (ok: bool)
      requires Valid() && Running(seen) && !seen.connected && seen.rested && seen.looked && !seen.started
      modifies this
      ensures Valid() && trace == old(trace) + [Event.Connect(ok)] && seen == AfterConnect(old(seen), ok)
    {
      ok := *;
      Record(Event.Connect(ok));
    }

    method Disconnect()
      requires Valid() && (seen.cancelled || (!seen.signalled && !seen.started && seen.pending.None? && seen.Broken()))
      modifies this
      ensures Valid() && trace == old(trace) + [Event.Disconnect]
      ensures seen == old(seen).(connected := false, closed := true, lost := false, initialised := false, spoiled := false)
    {
      Record(Event.Disconnect);
    }

    method ExecuteInitWrites() returns (ok: bool)
      requires Valid() && Running(seen) && seen.connected && cfg.NeedsInit() && !seen.started
      requires !seen.initialised && !seen.spoiled
      modifies this
      ensures Valid() && trace == old(trace) + [InitWrites(ok)] && seen == old(seen).(initialised := ok, spoiled := !ok)
    {
      ok := *;
      Record(InitWrites(ok));
    }

    method ExecutePrePoll() returns (ok: bool)
      requires Valid() && Permitted(cfg, seen, PrePoll(true))
      modifies this
      ensures Valid() && trace == old(trace) + [PrePoll(ok)] && seen == AfterPrePoll(old(seen), ok)
    {
      ok := *;
      Record(PrePoll(ok));
    }

    /** The results come in any order, one per metric name. */
    method Read() returns (results: seq<Entry>)
      requires Valid() && Permitted(cfg, seen, Event.Read([]))
      modifies this
      ensures Valid() && trace == old(trace) + [Event.Read(results)] && seen == Observe(cfg, old(seen), Event.Read(results))
      ensures Distinct(results)
    {
      results :| Distinct(results);
      Record(Event.Read(results));
    }

    method Publish(snapshot: map<string, MetricValue>)
      requires Valid() && Permitted(cfg, seen, Event.Publish(snapshot))
      modifies this
      ensures Valid() && trace == old(trace) + [Event.Publish(snapshot)] && seen == AfterPublish(old(seen), snapshot)
    {
      Record(Event.Publish(snapshot));
    }

    /** A backoff wait; `stop` when the shutdown signal came first. */
    method Sleep(secs: nat) returns (stop: bool)
      requires Valid() && Running(seen) && !seen.connected && secs == Backoff(seen.waits)
      modifies this
      ensures Valid() && trace == old(trace) + [Wait(secs)] + [Look(stop)]
      ensures stop ==> seen == AfterShutdown(AfterWait(old(seen)))
      ensures !stop ==> seen == AfterLook(AfterWait(old(seen)))
    {
      Record(Wait(secs));
      stop := ShutdownRequested();
    }

    /** A look at the shutdown signal, or a pause between cycles cut short by it. */
    method ShutdownRequested() returns (stop: bool)
      requires Valid() && Running(seen)
      modifies this
      ensures Valid() && trace == old(trace) + [Look(stop)]
      ensures stop ==> seen == AfterShutdown(old(seen))
      ensures !stop ==> seen == AfterLook(old(seen))
    {
      stop := *;
      Record(Look(stop));
    }

    method StartCycle()
      requires Valid() && Permitted(cfg, seen, CycleStart)
      modifies this
      ensures Valid() && trace == old(trace) + [CycleStart]
      ensures seen == old(seen).(started := true, prePolled := false, failed := false, looked := false)
    {
      Record(CycleStart);
    }

    /** Adds one to a shared counter. */
    method Increment(counter: Counter)
      requires Valid() && Permitted(cfg, seen, Count(counter))
      modifies this
      ensures Valid() && trace == old(trace) + [Count(counter)] && seen == AfterCount(old(seen), counter)
    {
      CountIs(cfg, seen, counter);
      Record(Count(counter));
    }

    method CancelReads(at: Exit)
      requires Valid() && seen.signalled && !seen.cancelled && seen.pending.None?
      requires seen.started == (at == BeforeRead)
      requires if seen.started && cfg.observed then seen.InCycle() else seen.Settled()
      requires cfg.observed ==> seen.readErrors == seen.errors + seen.aborted
      modifies this
      ensures Valid() && trace == old(trace) + [Cancel(at)] && seen == AfterCancel(old(seen))
    {
      Record(Cancel(at));
    }
  }

  /** The summary once the read errors met so far have been counted; folded
      like `World.Valid`. */
  ghost predicate Noted(cfg: CollectorConfig, s: Summary, p: Progress, seen: Summary) {
    forall b {:trigger Unfold(b)} :: Unfold(b) ==>
      seen == if cfg.observed then s.(readErrors := s.readErrors + Failures(p)) else s
  }

  lemma {:induction false} NotedWithoutError(cfg: CollectorConfig, s: Summary, p: Progress, e: Entry, seen: Summary)
    requires Noted(cfg, s, p, seen) && (e.reply.Failed? ==> !Known(cfg, e.name))
    ensures Noted(cfg, s, Note(cfg, p, e), seen) && Failures(Note(cfg, p, e)) == Failures(p)
  {
    assert Unfold(true);
  }

  lemma {:induction false} NotedError(cfg: CollectorConfig, s: Summary, p: Progress, e: Entry, seen: Summary)
    requires Noted(cfg, s, p, seen) && !p.lost && Known(cfg, e.name) && e.reply.Failed?
    ensures Noted(cfg, s, Note(cfg, p, e), Tallied(cfg, seen)) && Failures(Note(cfg, p, e)) == Failures(p) + 1
  {
    assert Unfold(true);
  }

  lemma {:induction false} NotedKeeps(cfg: CollectorConfig, s: Summary, p: Progress, seen: Summary)
    requires Noted(cfg, s, p, seen)
    ensures seen == if cfg.observed then s.(readErrors := s.readErrors + Failures(p)) else s
  {
    assert Unfold(true);
  }

  /** One more read error, if they are kept. */
  function Tallied(cfg: CollectorConfig, s: Summary): Summary {
    if cfg.observed then s.(readErrors := s.readErrors + 1) else s
  }

  datatype Phase = Connecting | Polling | Reconnecting | Done

  /** The fields of a task between two calls fit the history. */
  predicate Fits(cfg: CollectorConfig, s: Summary, phase: Phase, backoff: nat, failures: nat,
                 counts: map<string, nat>, cache: map<string, MetricValue>)
  {
    && counts == s.counts && cache == s.published
    && (cfg.observed ==> s.readErrors == s.errors + s.aborted)
    && (phase == Done ==> Finished(s))
    && (phase != Done ==> Running(s) && !s.started && s.Settled())
    && (phase == Connecting ==> !s.connected && !s.lost && s.rested && !s.initialised && !s.spoiled && s.streak == 0)
    && (phase == Reconnecting ==> s.Broken())
    && (phase == Connecting || phase == Reconnecting ==> backoff == Backoff(s.waits))
    && (phase == Polling ==>
         && s.connected && !s.lost && !s.spoiled && (cfg.NeedsInit() ==> s.initialised)
         && backoff == INITIAL_BACKOFF && s.waits == 0
         && failures == s.streak < MAX_PRE_POLL_FAILURES)
  }

  lemma {:induction false} StartFits(cfg: CollectorConfig, s: Summary, phase: Phase, backoff: nat, failures: nat,
                 counts: map<string, nat>, cache: map<string, MetricValue>)
    requires s == Start && phase == Connecting && backoff == INITIAL_BACKOFF && counts == map[] && cache == map[]
    ensures Fits(cfg, s, phase, backoff, failures, counts, cache) && s.pending.None? && s.looked
  {
  }

  lemma {:induction false} RestFits(cfg: CollectorConfig, s: Summary, backoff: nat, failures: nat,
                 counts: map<string, nat>, cache: map<string, MetricValue>)
    requires Running(s) && !s.started && s.Settled() && !s.connected && !s.lost && !s.initialised && !s.spoiled && s.streak == 0
    requires counts == s.counts && cache == s.published && backoff == Backoff(s.waits)
    requires cfg.observed ==> s.readErrors == s.errors + s.aborted
    ensures Fits(cfg, AfterRest(s), Connecting, Double(backoff), failures, counts, cache)
    ensures s.closed ==> Fits(cfg, AfterStop(s), Done, backoff, failures, counts, cache)
  {
  }

  lemma {:induction false} PublishFits(cfg: CollectorConfig, s: Summary, phase: Phase, backoff: nat, failures: nat,
                 counts: map<string, nat>, cache: map<string, MetricValue>, snapshot: map<string, MetricValue>)
    requires Fits(cfg, s, phase, backoff, failures, counts, cache) && s.pending.Some? && phase == Polling
    ensures Fits(cfg, AfterPublish(s, snapshot), phase, backoff, failures, counts, snapshot)
  {
  }

  class Task {
    const world: World
    var phase: Phase
    var backoff: nat
    var prePollFailures: nat
    var errorCounts: map<string, nat>
    var prevCache: map<string, MetricValue>

    /** What holds whenever the task is between two loop iterations. */
    ghost predicate Valid()
      reads this, world
    {
      Calm() && (phase == Connecting || phase == Polling ==> world.seen.looked)
    }

    /** The same, but perhaps without a look for shutdown since the last publish. */
    ghost predicate Calm()
      reads this, world
    {
      Steady() && world.seen.pending.None?
    }

    /** The same, with samples perhaps still to be published. */
    ghost predicate Steady()
      reads this, world
    {
      Fits(world.cfg, world.seen, phase, backoff, prePollFailures, errorCounts, prevCache)
    }

    constructor (world: World)
      requires world.seen == Start
      ensures Valid() && this.world == world && phase == Connecting
    {
      this.world := world;
      phase := Connecting;
      backoff := INITIAL_BACKOFF;
      prePollFailures := 0;
      errorCounts := map[];
      prevCache := map[];
      new;
      StartFits(world.cfg, world.seen, phase, backoff, prePollFailures, errorCounts, prevCache);
    }

    /** The init writes, where a writer and steps for it exist. */
    method Initialise() returns (ok: bool)
      requires world.Valid() && Running(world.seen) && world.seen.connected && !world.seen.started
      requires !world.seen.initialised && !world.seen.spoiled
      modifies world
      ensures world.Valid() && old(world.trace) <= world.trace
      ensures world.cfg.NeedsInit() ==> world.seen == old(world.seen).(initialised := ok, spoiled := !ok)
      ensures !world.cfg.NeedsInit() ==> world.seen == old(world.seen)
      ensures !world.cfg.NeedsInit() ==> ok
    {
      ok := true;
      if world.cfg.NeedsInit() {
        ok := world.ExecuteInitWrites();
      }
    }

    /** Waits out the backoff and doubles it, unless shutdown is requested. */
    method AwaitRetry(at: Exit) returns (stop: bool)
      requires world.Valid() && Running(world.seen) && !world.seen.connected && backoff == Backoff(world.seen.waits)
      requires world.seen.pending.None? && world.seen.Settled() && !world.seen.started && at != BeforeRead
      requires world.cfg.observed ==> world.seen.readErrors == world.seen.errors + world.seen.aborted
      modifies this`backoff, world
      ensures world.Valid() && old(world.trace) < world.trace
      ensures stop ==> world.seen == AfterStop(old(world.seen))
      ensures !stop ==> world.seen == AfterRest(old(world.seen))
      ensures backoff == if stop then old(backoff) else Double(old(backoff))
    {
      RestsOrStops(world.seen);
      stop := world.Sleep(backoff);
      if stop {
        world.CancelReads(at);
      } else {
        backoff := Double(backoff);
      }
    }

    /** One attempt of the initial connect loop. */
    method AttemptConnect()
      requires Valid() && world.Valid() && phase == Connecting
      modifies this, world
      ensures Valid() && world.Valid() && old(world.trace) < world.trace
      ensures phase == Connecting || phase == Polling || phase == Done
      ensures phase == Polling <==> world.seen.connected
    {
      var ok := world.Connect();
      if ok {
        backoff := INITIAL_BACKOFF;
        var ready := Initialise();
        if !ready {
          world.Disconnect();
          Postpone();
          return;
        }
        prePollFailures := 0;
        phase := Polling;
      } else {
        var stop := AwaitRetry(WhileConnecting);
        if stop {
          world.Disconnect();
          phase := Done;
        }
      }
    }

    /** The wait after failed init writes. */
    method Postpone()
      requires phase == Connecting && Waiting() && world.Valid()
      requires world.seen.closed && !world.seen.initialised && !world.seen.spoiled && world.seen.streak == 0
      modifies this, world
      ensures Valid() && world.Valid() && old(world.trace) < world.trace
      ensures phase == if world.seen.cancelled then Done else Connecting
      ensures !world.seen.connected
    {
      RestFits(world.cfg, world.seen, backoff, prePollFailures, errorCounts, prevCache);
      var stop := AwaitRetry(WhileConnecting);
      if stop {
        phase := Done;
      }
    }

    /** What holds between a disconnect or a failed connect and the next connect. */
    ghost predicate Waiting()
      reads this, world
    {
      var cfg, s := world.cfg, world.seen;
      && Running(s) && !s.connected && s.looked && !s.started && !s.lost && s.pending.None? && s.Settled()
      && errorCounts == s.counts && prevCache == s.published
      && (cfg.observed ==> s.readErrors == s.errors + s.aborted)
      && backoff == Backoff(s.waits)
    }

    /** One attempt of the reconnect loop. */
    method AttemptReconnect()
      requires Valid() && world.Valid() && phase == Reconnecting
      modifies this, world
      ensures Valid() && world.Valid() && old(world.trace) < world.trace
      ensures phase == Reconnecting || phase == Polling || phase == Done
      ensures phase == Polling <==> world.seen.connected && !world.seen.spoiled
    {
      world.Disconnect();
      var stop := AwaitRetry(WhileReconnecting);
      if stop {
        world.Disconnect();
        phase := Done;
        return;
      }
      Reopen();
    }

    /** The connect of a reconnect, with its init writes. */
    method Reopen()
      requires phase == Reconnecting && Waiting() && world.seen.rested && world.Valid()
      modifies this, world
      ensures Valid() && world.Valid() && old(world.trace) <= world.trace
      ensures phase == Reconnecting || phase == Polling
      ensures phase == Polling <==> world.seen.connected && !world.seen.spoiled
    {
      var ok := world.Connect();
      if ok {
        backoff := INITIAL_BACKOFF;
        prePollFailures := 0;
        var ready := Initialise();
        if ready {
          phase := Polling;
        }
      }
    }

    // ----- the poll loop -----

    /** What holds inside a cycle, from its start to its accounting. */
    ghost predicate InCycle()
      reads this, world
    {
      var cfg, s := world.cfg, world.seen;
      && phase == Polling && Running(s) && s.connected && !s.lost && !s.spoiled && (cfg.NeedsInit() ==> s.initialised)
      && s.started && s.pending.None?
      && errorCounts == s.counts && prevCache == s.published
      && (cfg.observed ==> s.readErrors == s.errors + s.aborted)
      && (if cfg.observed then s.InCycle() else s.Settled())
      && backoff == INITIAL_BACKOFF && s.waits == 0 && prePollFailures == s.streak < MAX_PRE_POLL_FAILURES
    }

    /** The same, after the look for shutdown. */
    ghost predicate MidCycle()
      reads this, world
    {
      InCycle() && world.seen.looked
    }

    /** One iteration of the poll loop. */
    method PollCycle()
      requires Valid() && world.Valid() && phase == Polling
      modifies this, world
      ensures Valid() && world.Valid() && old(world.trace) < world.trace
      ensures phase == Polling || phase == Reconnecting || phase == Done
    {
      BeginCycle();
      var stop := world.ShutdownRequested();
      if stop {
        Finish(BeforeRead);
        return;
      }
      var ready := RunPrePoll();
      if ready {
        ReadAndPublish();
      }
    }

    method BeginCycle()
      requires Valid() && world.Valid() && phase == Polling
      modifies world
      ensures InCycle() && world.Valid() && old(world.trace) < world.trace
    {
      world.StartCycle();
      Account(PollsTotal);
    }

    /** The pre-poll writes. A failure skips the rest of the cycle, and its pause if the
        cycle is late already; the third in a row asks for a reconnect. */
    method RunPrePoll() returns (ready: bool)
      requires MidCycle() && world.Valid()
      modifies this, world
      ensures world.Valid() && old(world.trace) <= world.trace
      ensures ready ==> MidCycle() && (world.cfg.NeedsPrePoll() ==> world.seen.prePolled)
      ensures ready ==> prePollFailures == (if world.cfg.NeedsPrePoll() then 0 else old(prePollFailures))
      ensures !ready ==> Valid() && (phase == Polling || phase == Reconnecting || phase == Done)
      ensures !ready ==> prePollFailures == old(prePollFailures) + 1 && (phase == Reconnecting <==> prePollFailures == 3)
    {
      if !world.cfg.NeedsPrePoll() {
        return true;
      }
      var ok := world.ExecutePrePoll();
      if ok {
        prePollFailures := 0;
        return true;
      }
      prePollFailures := prePollFailures + 1;
      Account(PollsError);
      ready := false;
      if prePollFailures >= MAX_PRE_POLL_FAILURES {
        phase := Reconnecting;
      } else {
        var late: bool := *;
        if !late {
          Rest();
        }
      }
    }

    /** The pause until the next cycle is due. */
    method Rest()
      requires Calm() && world.Valid() && phase == Polling
      modifies this`phase, world
      ensures Valid() && world.Valid() && old(world.trace) <= world.trace
      ensures phase == Polling || phase == Done
    {
      var stop := world.ShutdownRequested();
      if stop {
        Finish(AfterCycle);
      }
    }

    /** The way out of the poll loop. */
    method Finish(at: Exit)
      requires world.Valid() && errorCounts == world.seen.counts && prevCache == world.seen.published
      requires world.seen.signalled && !world.seen.cancelled && world.seen.pending.None? && world.seen.started == (at == BeforeRead)
      requires if world.seen.started && world.cfg.observed then world.seen.InCycle() else world.seen.Settled()
      requires world.cfg.observed ==> world.seen.readErrors == world.seen.errors + world.seen.aborted
      modifies this`phase, world
      ensures Valid() && world.Valid() && phase == Done && old(world.trace) < world.trace
    {
      world.CancelReads(at);
      world.Disconnect();
      phase := Done;
    }

    /** Accounts for the current cycle, if anybody keeps count. */
    method Account(counter: Counter)
      requires world.Valid() && (world.cfg.observed ==> Permitted(world.cfg, world.seen, Count(counter)))
      modifies world
      ensures world.Valid() && old(world.trace) <= world.trace
      ensures world.cfg.observed ==> world.seen == AfterCount(old(world.seen), counter)
      ensures !world.cfg.observed ==> world.seen == old(world.seen)
    {
      if world.cfg.observed {
        world.Increment(counter);
      }
    }

    /** Reads, and goes through the results. */
    method ReadMetrics() returns (local: map<string, MetricValue>, lost: bool, failed: bool)
      requires MidCycle() && world.Valid()
      requires world.cfg.NeedsPrePoll() ==> world.seen.prePolled
      modifies this`errorCounts, world
      ensures world.Valid() && old(world.trace) < world.trace
      ensures var s := world.seen;
              && s.pending == (if lost then None else Some(local)) && s.failed == failed && s.lost == lost && (lost ==> failed) && !s.started
              && errorCounts == s.counts && prevCache == s.published
              && (world.cfg.observed ==> s.readErrors == s.errors + s.aborted)
              && s == old(world.seen).(pending := s.pending, failed := failed, lost := lost, started := false, counts := s.counts,
                                       readErrors := s.readErrors, errors := s.errors, aborted := s.aborted)
    {
      var results := world.Read();
      ghost var s := world.seen;
      ghost var p := Digest(world.cfg, errorCounts, results, |results|);
      local, lost, failed := Process(results);
      NotedKeeps(world.cfg, s, p, world.seen);
    }

    method ReadAndPublish()
      requires MidCycle() && world.Valid()
      requires world.cfg.NeedsPrePoll() ==> world.seen.prePolled
      modifies this, world
      ensures Valid() && world.Valid() && old(world.trace) < world.trace
      ensures phase == Polling || phase == Reconnecting || phase == Done
    {
      var local, lost, failed := ReadMetrics();
      if lost {
        Account(PollsError);
        phase := Reconnecting;
        return;
      }
      backoff := INITIAL_BACKOFF;
      CloseCycle(local, failed);
      Rest();
    }

    /** What holds after a read that kept its connection. */
    ghost predicate HasRead(local: map<string, MetricValue>, failed: bool)
      reads this, world
    {
      var cfg, s := world.cfg, world.seen;
      && phase == Polling && Running(s) && s.connected && !s.lost && !s.spoiled && (cfg.NeedsInit() ==> s.initialised)
      && !s.started && s.pending == Some(local) && s.failed == failed
      && errorCounts == s.counts && prevCache == s.published
      && (cfg.observed ==> s.readErrors == s.errors + s.aborted)
      && (if cfg.observed then s.InCycle() else s.Settled())
      && backoff == INITIAL_BACKOFF && s.waits == 0 && prePollFailures == s.streak < MAX_PRE_POLL_FAILURES
    }

    /** Accounts for a finished read and publishes what it brought. */
    method CloseCycle(local: map<string, MetricValue>, failed: bool)
      requires HasRead(local, failed) && world.Valid()
      modifies this`prevCache, world
      ensures Calm() && world.Valid() && phase == Polling && old(world.trace) < world.trace
    {
      Account(if failed then PollsError else PollsSuccess);
      PublishCache(local);
    }

    /** Merges this cycle's samples into the retained cache, enters the error
        counters, publishes the result and retains it. */
    method PublishCache(local: map<string, MetricValue>)
      requires Steady() && world.Valid() && phase == Polling && world.seen.pending == Some(local)
      modifies this`prevCache, world
      ensures Overlaid(old(prevCache) + local, errorCounts, errorCounts.Keys, prevCache)
      ensures world.trace == old(world.trace) + [Event.Publish(prevCache)]
      ensures world.seen == AfterPublish(old(world.seen), prevCache)
      ensures Calm() && world.Valid() && phase == Polling
    {
      var merged := CarryForward(prevCache, local);
      var snapshot := EnterErrors(merged, errorCounts);
      PublishFits(world.cfg, world.seen, phase, backoff, prePollFailures, errorCounts, prevCache, snapshot);
      world.Publish(snapshot);
      prevCache := snapshot;
    }

    /** Counts a read error; unless the connection is gone it is charged to its
        metric. */
    method NoteError(name: string, connected: bool)
      requires world.Valid() && Running(world.seen)
      modifies this`errorCounts, world
      ensures old(world.trace) <= world.trace
      ensures world.Valid() && world.seen == Tallied(world.cfg, old(world.seen))
      ensures errorCounts == if connected then Charged(old(errorCounts), name) else old(errorCounts)
    {
      if world.cfg.observed {
        world.Increment(ReadErrors);
      }
      if connected {
        errorCounts := Charged(errorCounts, name);
      }
    }

    /** One read result: a value into the fresh cache, an error into the counts. */
    method NoteResult(e: Entry, local: map<string, MetricValue>, failed: bool, ghost s: Summary, ghost p: Progress)
      returns (local': map<string, MetricValue>, lost: bool, failed': bool)
      requires world.Valid() && Noted(world.cfg, s, p, world.seen) && Running(world.seen)
      requires p.samples == local && p.counts == errorCounts && !p.lost && failed == (Failures(p) > 0)
      modifies this`errorCounts, world
      ensures old(world.trace) <= world.trace
      ensures world.Valid() && Noted(world.cfg, s, Note(world.cfg, p, e), world.seen)
      ensures var next := Note(world.cfg, p, e);
              next.samples == local' && next.counts == errorCounts && next.lost == lost && failed' == (Failures(next) > 0)
      ensures Running(world.seen)
    {
      local', lost, failed' := local, false, failed;
      match Find(world.cfg.metrics, e.name) {
        case None => NotedWithoutError(world.cfg, s, p, e, world.seen);
        case Some(m) =>
          match e.reply {
            case Value(v) =>
              NotedWithoutError(world.cfg, s, p, e, world.seen);
              local' := local[e.name := SampleOf(m, v)];
            case Failed(connected) =>
              NotedError(world.cfg, s, p, e, world.seen);
              NoteError(e.name, connected);
              lost, failed' := !connected, true;
          }
      }
    }

    /** Goes through the results of a read until the connection turns out to be
        lost. */
    method Process(results: seq<Entry>) returns (local: map<string, MetricValue>, lost: bool, failed: bool)
      requires world.Valid() && Running(world.seen)
      modifies this`errorCounts, world
      ensures old(world.trace) <= world.trace
      ensures world.Valid()
      ensures var p := Digest(world.cfg, old(errorCounts), results, |results|);
              && p.samples == local && p.counts == errorCounts && p.lost == lost && failed == (Failures(p) > 0)
              && Noted(world.cfg, old(world.seen), p, world.seen)
    {
      local, lost, failed := map[], false, false;
      ghost var counts, seen := errorCounts, world.seen;
      ghost var p := Digest(world.cfg, counts, results, 0);
      var i := 0;
      while i < |results| && !lost
        invariant i <= |results| && world.Valid() && old(world.trace) <= world.trace
        invariant p == Digest(world.cfg, counts, results, i) && Noted(world.cfg, seen, p, world.seen)
        invariant p.samples == local && p.counts == errorCounts && p.lost == lost && failed == (Failures(p) > 0)
        invariant Running(world.seen)
      {
        local, lost, failed := NoteResult(results[i], local, failed, seen, p);
        p := Note(world.cfg, p, results[i]);
        i := i + 1;
      }
      LostStays(world.cfg, counts, results, i, |results|);
    }

    /** Fills in the retained samples of metrics that were not read this time. */
    method CarryForward(prev: map<string, MetricValue>, local: map<string, MetricValue>) returns (r: map<string, MetricValue>)
      ensures r == prev + local
    {
      r := local;
      var rest := prev.Keys;
      CarryNone(prev, local);
      while rest != {}
        invariant rest <= prev.Keys && Carried(prev, local, rest, r)
        decreases |rest|
      {
        var name :| name in rest;
        CarryStep(prev, local, rest, name, r);
        if name !in r {
          r := r[name := prev[name]];
        }
        rest := rest - {name};
      }
      CarryAll(prev, local, r);
    }

    /** Enters the error counter of every metric that has failed. */
    method EnterErrors(cache: map<string, MetricValue>, counts: map<string, nat>) returns (r: map<string, MetricValue>)
      ensures Overlaid(cache, counts, counts.Keys, r)
    {
      r := cache;
      var rest := counts.Keys;
      while rest != {}
        invariant rest <= counts.Keys
        invariant Overlaid(cache, counts, counts.Keys - rest, r)
        decreases |rest|
      {
        var name :| name in rest;
        OverlayStep(cache, counts, counts.Keys - rest, name, r);
        assert counts.Keys - (rest - {name}) == (counts.Keys - rest) + {name};
        r := WithError(r, name, counts[name]);
        rest := rest - {name};
      }
    }

    /** At most so many loop iterations of a task; a run that does not end in
        them has made at least one call in each. */
    method Run(iterations: nat)
      requires Valid() && world.Valid()
      modifies this, world
      ensures Valid() && world.Valid() && old(world.trace) <= world.trace
      ensures phase == Done || |world.trace| >= |old(world.trace)| + iterations
    {
      var i := 0;
      while i < iterations && phase != Done
        invariant i <= iterations && Valid() && world.Valid()
        invariant old(world.trace) <= world.trace && |world.trace| >= |old(world.trace)| + i
      {
        match phase {
          case Connecting => AttemptConnect();
          case Polling => PollCycle();
          case Reconnecting => AttemptReconnect();
        }
        i := i + 1;
      }
    }
  }

  /** The samples of this cycle with all previous ones but the rest filled in; folded
      like `World.Valid`. */
  ghost predicate Carried(
    prev: map<string, MetricValue>, local: map<string, MetricValue>, rest: set<string>, r: map<string, MetricValue>) {
    forall b {:trigger Unfold(b)} :: Unfold(b) ==> r == prev - rest + local
  }

  lemma {:induction false} CarryNone(prev: map<string, MetricValue>, local: map<string, MetricValue>)
    ensures Carried(prev, local, prev.Keys, local)
  {
    assert prev - prev.Keys == map[];
  }

  lemma {:induction false} CarryStep(
    prev: map<string, MetricValue>, local: map<string, MetricValue>, rest: set<string>, name: string, r: map<string, MetricValue>)
    requires name in rest && rest <= prev.Keys && Carried(prev, local, rest, r)
    ensures Carried(prev, local, rest - {name}, if name in r then r else r[name := prev[name]])
  {
    assert Unfold(true);
  }

  lemma {:induction false} CarryAll(prev: map<string, MetricValue>, local: map<string, MetricValue>, r: map<string, MetricValue>)
    requires Carried(prev, local, {}, r)
    ensures r == prev + local
  {
    assert Unfold(true);
    assert prev - {} == prev;
  }

  lemma {:induction false} OverlayStep(
    cache: map<string, MetricValue>, counts: map<string, nat>, names: set<string>, name: string, r: map<string, MetricValue>)
    requires names <= counts.Keys && name in counts && name !in names
    requires Overlaid(cache, counts, names, r)
    ensures Overlaid(cache, counts, names + {name}, WithError(r, name, counts[name]))
  {
    ErrorNamesDiffer(names, name);
    var key, all, next := ErrorName(name), names + {name}, WithError(r, name, counts[name]);
    assert forall k :: Errored(all, k) <==> Errored(names, k) || k == key by {
      assert name in all && ErrorName(name) == key;
    }
    assert !Errored(names, key);
  }

  lemma {:induction false} ErrorNamesDiffer(names: set<string>, name: string)
    requires name !in names
    ensures forall n :: n in names ==> ErrorName(n) != ErrorName(name)
  {
    forall n | n in names ensures ErrorName(n) != ErrorName(name) {
      assert ErrorName(n)[..|n|] == n && ErrorName(name)[..|name|] == name;
    }
  }
}
