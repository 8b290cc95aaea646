/** What the order of calls in a legal history guarantees: set-up before every
    read, bounded retries, and a clean end. */
module CollectorOrder {
  import opened Wrappers
  import opened MetricTypes
  import opened CollectorTrace

  // ----- set-up before every read -----

  predicate Lifecycle(e: Event) { e.Connect? || e.Disconnect? }

  /** The event at i is the last one before n of its kind. */
  predicate LastConnect(t: seq<Event>, i: nat, n: nat) {
    i < n <= |t| && t[i] == Connect(true) && forall k :: i < k < n ==> !Lifecycle(t[k])
  }

  predicate LastInit(t: seq<Event>, i: nat, n: nat) {
    i < n <= |t| && t[i] == InitWrites(true) && forall k :: i < k < n ==> !Lifecycle(t[k]) && !t[k].InitWrites?
  }

  predicate LastStart(t: seq<Event>, i: nat, n: nat) {
    i < n <= |t| && t[i] == CycleStart && forall k :: i < k < n ==> !EndsCycle(t[k]) && t[k] != CycleStart
  }

  /** A cycle is over when its read is made or its pre-poll fails. */
  predicate EndsCycle(e: Event) { e.Read? || e == PrePoll(false) }

  predicate LastPrePoll(t: seq<Event>, i: nat, n: nat) {
    i < n <= |t| && t[i] == PrePoll(true) && forall k :: i < k < n ==> t[k] != CycleStart && !t[k].PrePoll?
  }

  lemma {:induction false} FindConnect(cfg: CollectorConfig, t: seq<Event>, n: nat) returns (i: nat)
    requires n <= |t| && After(cfg, t, n).connected
    ensures LastConnect(t, i, n)
  {
    if Lifecycle(t[n - 1]) {
      i := n - 1;
    } else {
      i := FindConnect(cfg, t, n - 1);
    }
  }

  lemma {:induction false} FindInit(cfg: CollectorConfig, t: seq<Event>, n: nat) returns (i: nat)
    requires n <= |t| && After(cfg, t, n).initialised
    ensures LastInit(t, i, n)
  {
    if t[n - 1].InitWrites? {
      i := n - 1;
    } else {
      i := FindInit(cfg, t, n - 1);
    }
  }

  lemma {:induction false} FindStart(cfg: CollectorConfig, t: seq<Event>, n: nat) returns (i: nat)
    requires n <= |t| && After(cfg, t, n).started
    ensures LastStart(t, i, n)
    ensures forall k :: i < k <= n ==> After(cfg, t, k).started
  {
    if t[n - 1] == CycleStart {
      i := n - 1;
    } else {
      i := FindStart(cfg, t, n - 1);
    }
  }

  lemma {:induction false} StartLasts(cfg: CollectorConfig, t: seq<Event>, i: nat, n: nat)
    requires LastStart(t, i, n)
    ensures After(cfg, t, n).started
  {
    if i < n - 1 {
      StartLasts(cfg, t, i, n - 1);
    }
  }

  lemma {:induction false} FindPrePoll(cfg: CollectorConfig, t: seq<Event>, n: nat) returns (i: nat)
    requires n <= |t| && After(cfg, t, n).prePolled
    ensures LastPrePoll(t, i, n)
  {
    if t[n - 1].PrePoll? {
      i := n - 1;
    } else {
      i := FindPrePoll(cfg, t, n - 1);
    }
  }

  /** Every read follows, in this order and with no lifecycle call since the
      first of them: a successful connect, successful init writes where they are
      configured, the start of its own cycle, and successful pre-poll writes of
      that cycle where they are configured. */
  lemma {:induction false} ReadsAreSetUp(cfg: CollectorConfig, t: seq<Event>, n: nat)
    returns (connect: nat, init: nat, start: nat, prePoll: nat)
    requires Legal(cfg, t) && n < |t| && t[n].Read?
    ensures LastConnect(t, connect, n) && LastStart(t, start, n) && connect < start
    ensures cfg.NeedsInit() ==> LastInit(t, init, n) && connect < init < start
    ensures cfg.NeedsPrePoll() ==> LastPrePoll(t, prePoll, n) && start < prePoll
  {
    assert PermittedAt(cfg, t, n);
    connect := FindConnect(cfg, t, n);
    start := FindStart(cfg, t, n);
    assert PermittedAt(cfg, t, connect);
    init, prePoll := 0, 0;
    if cfg.NeedsInit() {
      init := FindInit(cfg, t, n);
      assert PermittedAt(cfg, t, init);
    }
    if cfg.NeedsPrePoll() {
      prePoll := FindPrePoll(cfg, t, n);
    }
  }

  // ----- backoff -----

  function Pow2(j: nat): nat {
    if j == 0 then 1 else 2 * Pow2(j - 1)
  }

  function Min(a: nat, b: nat): nat {
    if a < b then a else b
  }

  lemma {:induction false} BackoffIsCappedPower(j: nat)
    ensures Backoff(j) == Min(Pow2(j), 60)
  {
    if j > 0 {
      BackoffIsCappedPower(j - 1);
    }
  }

  /** The waits after the i-th event and before the n-th. */
  function Waits(t: seq<Event>, i: int, n: nat): nat
    requires -1 <= i < n <= |t|
  {
    if i == n - 1 then 0 else Waits(t, i, n - 1) + if t[n - 1].Wait? then 1 else 0
  }

  /** Event i is the last successful connect before n, or i == -1 and there is
      none. */
  predicate LastReset(t: seq<Event>, i: int, n: nat) {
    -1 <= i < n <= |t| && (i >= 0 ==> t[i] == Connect(true)) && forall k :: i < k < n ==> t[k] != Connect(true)
  }

  lemma {:induction false} WaitsCounted(cfg: CollectorConfig, t: seq<Event>, i: int, n: nat)
    requires LastReset(t, i, n)
    ensures After(cfg, t, n).waits == Waits(t, i, n)
  {
    if i < n - 1 {
      WaitsCounted(cfg, t, i, n - 1);
    }
  }

  /** The j-th wait since the last successful connect (or the beginning) takes
      min(2^(j-1), 60) seconds. A successful connect resets the backoff even when
      the init writes that follow it fail. */
  lemma {:induction false} WaitsBackOff(cfg: CollectorConfig, t: seq<Event>, i: int, n: nat)
    requires Legal(cfg, t) && n < |t| && t[n].Wait? && -1 <= i < n && LastReset(t, i, n)
    ensures t[n] == Wait(Min(Pow2(Waits(t, i, n)), 60))
  {
    assert PermittedAt(cfg, t, n);
    WaitsCounted(cfg, t, i, n);
    BackoffIsCappedPower(Waits(t, i, n));
  }

  /** A cycle only starts with a fresh backoff, and so does every first wait after a
      successful connect, no poll cycle being needed in between: a device whose
      init writes always fail is tried again every second. */
  lemma {:induction false} ConnectResetsBackoff(cfg: CollectorConfig, t: seq<Event>, i: nat, n: nat)
    requires Legal(cfg, t) && i < n < |t| && LastReset(t, i, n)
    ensures t[n] == CycleStart ==> Waits(t, i, n) == 0
    ensures t[n].Wait? && (forall k :: i < k < n ==> !t[k].Wait?) ==> t[n] == Wait(1)
  {
    assert PermittedAt(cfg, t, n);
    WaitsCounted(cfg, t, i, n);
    if forall k :: i < k < n ==> !t[k].Wait? {
      NoWaits(t, i, n);
    }
  }

  lemma {:induction false} NoWaits(t: seq<Event>, i: nat, n: nat)
    requires i < n <= |t| && forall k :: i < k < n ==> !t[k].Wait?
    ensures Waits(t, i, n) == 0
  {
    if i < n - 1 {
      NoWaits(t, i, n - 1);
    }
  }

  /** Between two connect attempts the task waits. */
  lemma {:induction false} ConnectsAreSpaced(cfg: CollectorConfig, t: seq<Event>, i: nat, n: nat)
    requires Legal(cfg, t) && i < n < |t| && t[i].Connect? && t[n].Connect?
    ensures exists k :: i < k < n && t[k].Wait?
  {
    assert PermittedAt(cfg, t, n);
    if forall k :: i < k < n ==> !t[k].Wait? {
      Unrested(cfg, t, i, n);
      assert false;
    }
  }

  lemma {:induction false} Unrested(cfg: CollectorConfig, t: seq<Event>, i: nat, n: nat)
    requires i < n <= |t| && t[i].Connect? && forall k :: i < k < n ==> !t[k].Wait?
    ensures !After(cfg, t, n).rested
  {
    if i < n - 1 {
      Unrested(cfg, t, i, n - 1);
    }
  }

  // ----- pre-poll failures -----

  /** The failed pre-polls among events i up to n. */
  function PrePollFailures(t: seq<Event>, i: nat, n: nat): nat
    requires i <= n <= |t|
  {
    if i == n then 0 else PrePollFailures(t, i, n - 1) + if t[n - 1] == PrePoll(false) then 1 else 0
  }

  /** No event from i up to n ends a streak of failures. */
  predicate Unrelieved(t: seq<Event>, i: nat, n: nat) {
    i <= n <= |t| && forall k :: i <= k < n ==> t[k] != PrePoll(true) && t[k] != Connect(true)
  }

  lemma {:induction false} StreakCounted(cfg: CollectorConfig, t: seq<Event>, i: nat, n: nat)
    requires Unrelieved(t, i, n)
    ensures After(cfg, t, n).streak >= PrePollFailures(t, i, n)
  {
    if i < n {
      StreakCounted(cfg, t, i, n - 1);
    }
  }

  /** Three failed pre-polls in a row force a reconnect: no further cycle, pre-poll
      or read comes before the next successful connect. */
  lemma {:induction false} ThreeFailuresForceReconnect(cfg: CollectorConfig, t: seq<Event>, i: nat, n: nat)
    requires Legal(cfg, t) && i <= n < |t| && Unrelieved(t, i, n)
    requires t[n] == CycleStart || t[n].PrePoll? || t[n].Read?
    ensures PrePollFailures(t, i, n) <= 2
  {
    assert PermittedAt(cfg, t, n);
    StreakCounted(cfg, t, i, n);
    if t[n].Read? {
      StreakBelowLimit(cfg, t, n);
    }
  }

  /** A cycle only runs while the streak is below the limit. */
  lemma {:induction false} StreakBelowLimit(cfg: CollectorConfig, t: seq<Event>, n: nat)
    requires Legal(cfg, t) && n <= |t|
    ensures After(cfg, t, n).streak <= MAX_PRE_POLL_FAILURES
    ensures After(cfg, t, n).started ==> After(cfg, t, n).streak < MAX_PRE_POLL_FAILURES
  {
    if n > 0 {
      StreakBelowLimit(cfg, t, n - 1);
      assert PermittedAt(cfg, t, n - 1);
    }
  }

  // ----- shutdown -----

  lemma {:induction false} CancelIsFinal(cfg: CollectorConfig, t: seq<Event>, i: nat, n: nat)
    requires Legal(cfg, t) && i <= n <= |t| && After(cfg, t, i).cancelled
    ensures After(cfg, t, n).cancelled
    ensures forall k :: i <= k < n ==> t[k] == Disconnect
  {
    if i < n {
      CancelIsFinal(cfg, t, i, n - 1);
      assert PermittedAt(cfg, t, n - 1);
    }
  }

  lemma {:induction false} FindCancel(cfg: CollectorConfig, t: seq<Event>, n: nat) returns (i: nat)
    requires n <= |t| && After(cfg, t, n).cancelled
    ensures i < n && t[i].Cancel?
  {
    if t[n - 1].Cancel? {
      i := n - 1;
    } else {
      i := FindCancel(cfg, t, n - 1);
    }
  }

  lemma {:induction false} FindDisconnect(cfg: CollectorConfig, t: seq<Event>, n: nat) returns (i: nat)
    requires n <= |t| && After(cfg, t, n).closed
    ensures i < n && t[i] == Disconnect && forall k :: i < k < n ==> !Lifecycle(t[k])
  {
    if Lifecycle(t[n - 1]) {
      i := n - 1;
    } else {
      i := FindDisconnect(cfg, t, n - 1);
    }
  }

  /** The task does nothing between noticing the shutdown request and cancelling its
      reads, and it never cancels them without having noticed one. */
  lemma {:induction false} ShutdownIsObeyed(cfg: CollectorConfig, t: seq<Event>, n: nat)
    requires Legal(cfg, t) && n < |t|
    ensures n > 0 && t[n - 1] == Look(true) ==> t[n].Cancel?
    ensures t[n].Cancel? ==> n > 0 && t[n - 1] == Look(true)
  {
    assert PermittedAt(cfg, t, n);
    if n > 0 {
      assert PermittedAt(cfg, t, n - 1);
    }
  }

  lemma {:induction false} Unlooked(cfg: CollectorConfig, t: seq<Event>, i: nat, n: nat)
    requires i < n <= |t| && (t[i] == CycleStart || t[i].Publish? || t[i].Wait?)
    requires forall k :: i < k < n ==> !t[k].Look?
    ensures !After(cfg, t, n).looked
  {
    if i < n - 1 {
      Unlooked(cfg, t, i, n - 1);
    }
  }

  /** The task looks for a shutdown request between the start of a cycle and its writes
      and read, between a publish and the next cycle, and between a wait and the
      connect that follows. */
  lemma {:induction false} ShutdownIsLookedFor(cfg: CollectorConfig, t: seq<Event>, i: nat, n: nat)
    requires Legal(cfg, t) && i < n < |t|
    requires t[i] == CycleStart || t[i].Publish? || t[i].Wait?
    requires t[n] == CycleStart || t[n].PrePoll? || t[n].Read? || t[n].Connect?
    ensures exists k :: i < k < n && t[k].Look?
  {
    assert PermittedAt(cfg, t, n);
    if forall k :: i < k < n ==> !t[k].Look? {
      Unlooked(cfg, t, i, n);
      assert false;
    }
  }

  /** A finished run has cancelled its reads exactly once, has done nothing after
      that but disconnect, and its last lifecycle call is a disconnect. */
  lemma {:induction false} FinishedRunsAreClosed(cfg: CollectorConfig, t: seq<Event>) returns (cancel: nat, close: nat)
    requires Legal(cfg, t) && Finished(After(cfg, t, |t|))
    ensures cancel < |t| && t[cancel].Cancel? && forall k :: 0 <= k < |t| && t[k].Cancel? ==> k == cancel
    ensures forall k :: cancel < k < |t| ==> t[k] == Disconnect
    ensures close < |t| && t[close] == Disconnect && forall k :: close < k < |t| ==> !Lifecycle(t[k])
  {
    cancel := FindCancel(cfg, t, |t|);
    close := FindDisconnect(cfg, t, |t|);
    forall k | 0 <= k < |t| && t[k].Cancel? ensures k == cancel {
      CancelIsFinal(cfg, t, k + 1, |t|);
      CancelIsFinal(cfg, t, cancel + 1, |t|);
    }
    CancelIsFinal(cfg, t, cancel + 1, |t|);
  }
}
