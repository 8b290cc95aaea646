/** Why a collector task disconnects: exactly when a reconnect could mend something
    (src/collector.rs:41-73, 118-124, 178-233, 275-311). */
module CollectorReasons {
  import opened Wrappers
  import opened MetricTypes
  import opened CollectorTrace
  import opened CollectorOrder
  import opened CollectorCounts

  /** The third failed pre-poll in a row: no successful one and no successful connect
      among them. */
  predicate ThirdOf(t: seq<Event>, j: nat, i: nat) {
    j <= i < |t| && t[i] == PrePoll(false) && Unrelieved(t, j, i + 1) && PrePollFailures(t, j, i + 1) == 3
  }

  ghost predicate ThirdFailure(t: seq<Event>, i: nat) {
    exists j: nat :: ThirdOf(t, j, i)
  }

  /** A connect fails, init writes fail, a read finds the connection gone, or a pre-poll
      fails for the third time in a row. */
  ghost predicate Reason(cfg: CollectorConfig, t: seq<Event>, i: nat)
    requires i < |t|
  {
    || t[i] == Connect(false)
    || t[i] == InitWrites(false)
    || (t[i].Read? && ReadLoses(cfg, t[i].results))
    || ThirdFailure(t, i)
  }

  /** No lifecycle call after the i-th event and before the n-th. */
  predicate Untouched(t: seq<Event>, i: nat, n: nat) {
    i < n <= |t| && forall k :: i < k < n ==> !Lifecycle(t[k])
  }

  // ----- every disconnect has a reason -----

  lemma {:induction false} FindLoss(cfg: CollectorConfig, t: seq<Event>, n: nat) returns (i: nat)
    requires n <= |t| && After(cfg, t, n).lost
    ensures Untouched(t, i, n) && t[i].Read? && ReadLoses(cfg, t[i].results)
  {
    if t[n - 1].Read? {
      i := n - 1;
      DigestMeaning(cfg, After(cfg, t, i).counts, t[i].results);
    } else {
      i := FindLoss(cfg, t, n - 1);
    }
  }

  lemma {:induction false} FindSpoiled(cfg: CollectorConfig, t: seq<Event>, n: nat) returns (i: nat)
    requires n <= |t| && After(cfg, t, n).spoiled
    ensures Untouched(t, i, n) && t[i] == InitWrites(false)
  {
    if t[n - 1].InitWrites? {
      i := n - 1;
    } else {
      i := FindSpoiled(cfg, t, n - 1);
    }
  }

  lemma {:induction false} FindFailedConnect(cfg: CollectorConfig, t: seq<Event>, n: nat) returns (i: nat)
    requires n <= |t| && var s := After(cfg, t, n); !s.connected && !s.closed && !s.rested
    ensures Untouched(t, i, n) && t[i] == Connect(false)
  {
    if Lifecycle(t[n - 1]) {
      i := n - 1;
    } else {
      i := FindFailedConnect(cfg, t, n - 1);
    }
  }

  /** Where the current streak of failed pre-polls begins. */
  lemma {:induction false} FindStreak(cfg: CollectorConfig, t: seq<Event>, n: nat) returns (j: nat)
    requires n <= |t|
    ensures j <= n && Unrelieved(t, j, n) && PrePollFailures(t, j, n) == After(cfg, t, n).streak
  {
    if n == 0 || t[n - 1] == PrePoll(true) || t[n - 1] == Connect(true) {
      j := n;
    } else {
      j := FindStreak(cfg, t, n - 1);
    }
  }

  lemma {:induction false} FindThird(t: seq<Event>, j: nat, n: nat) returns (i: nat)
    requires Unrelieved(t, j, n) && PrePollFailures(t, j, n) == 3
    ensures j <= i < n && ThirdOf(t, j, i)
  {
    if t[n - 1] == PrePoll(false) {
      i := n - 1;
    } else {
      i := FindThird(t, j, n - 1);
    }
  }

  lemma {:induction false} StreakHasThird(cfg: CollectorConfig, t: seq<Event>, n: nat) returns (i: nat)
    requires Legal(cfg, t) && n <= |t| && After(cfg, t, n).connected && After(cfg, t, n).streak >= MAX_PRE_POLL_FAILURES
    ensures Untouched(t, i, n) && ThirdFailure(t, i)
  {
    StreakBelowLimit(cfg, t, n);
    var j := FindStreak(cfg, t, n);
    i := FindThird(t, j, n);
    var c := FindConnect(cfg, t, n);
    assert c < j;
  }

  /** Before shutdown the task never disconnects without a reason: the last lifecycle
      call before a disconnect is a connect that failed, or what happened since the
      last connect gave the reason. */
  lemma {:induction false} DisconnectsHaveReasons(cfg: CollectorConfig, t: seq<Event>, n: nat) returns (i: nat)
    requires Legal(cfg, t) && n < |t| && t[n] == Disconnect && forall k :: 0 <= k < n ==> !t[k].Cancel?
    ensures Untouched(t, i, n) && Reason(cfg, t, i)
  {
    assert PermittedAt(cfg, t, n);
    var s := After(cfg, t, n);
    if s.cancelled {
      var c := FindCancel(cfg, t, n);
      assert false;
    } else if !s.connected {
      i := FindFailedConnect(cfg, t, n);
    } else if s.lost {
      i := FindLoss(cfg, t, n);
    } else if s.spoiled {
      i := FindSpoiled(cfg, t, n);
    } else {
      i := StreakHasThird(cfg, t, n);
    }
  }

  // ----- every reason ends polling -----

  /** The connection is not fit for a cycle. */
  predicate Unfit(s: Summary) {
    !s.connected || s.lost || s.spoiled || s.streak >= MAX_PRE_POLL_FAILURES
  }

  lemma {:induction false} ReasonIsUnfit(cfg: CollectorConfig, t: seq<Event>, i: nat)
    requires Legal(cfg, t) && i < |t| && Reason(cfg, t, i)
    ensures Unfit(After(cfg, t, i + 1))
  {
    if t[i].Read? {
      DigestMeaning(cfg, After(cfg, t, i).counts, t[i].results);
    } else if t[i].PrePoll? {
      var j: nat :| ThirdOf(t, j, i);
      StreakCounted(cfg, t, j, i + 1);
    }
  }

  lemma {:induction false} UnfitLasts(cfg: CollectorConfig, s: Summary, e: Event)
    requires Permitted(cfg, s, e) && Unfit(s) && e != Connect(true)
    ensures Unfit(Observe(cfg, s, e))
  {
  }

  lemma {:induction false} UnfitUntilConnect(cfg: CollectorConfig, t: seq<Event>, i: nat, n: nat)
    requires Legal(cfg, t) && i <= n <= |t| && Unfit(After(cfg, t, i))
    requires forall k :: i <= k < n ==> t[k] != Connect(true)
    ensures Unfit(After(cfg, t, n))
  {
    if i < n {
      UnfitUntilConnect(cfg, t, i, n - 1);
      assert PermittedAt(cfg, t, n - 1);
      UnfitLasts(cfg, After(cfg, t, n - 1), t[n - 1]);
    }
  }

  /** After a reason no cycle starts before the next successful connect. */
  lemma {:induction false} ReasonsEndPolling(cfg: CollectorConfig, t: seq<Event>, i: nat, n: nat)
    requires Legal(cfg, t) && i < n < |t| && Reason(cfg, t, i) && t[n] == CycleStart
    ensures exists k :: i < k < n && t[k] == Connect(true)
  {
    assert PermittedAt(cfg, t, n);
    ReasonIsUnfit(cfg, t, i);
    if forall k :: i < k < n ==> t[k] != Connect(true) {
      UnfitUntilConnect(cfg, t, i + 1, n);
      assert false;
    }
  }
}
