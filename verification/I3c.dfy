/** Reading a register of an I3C device, with re-enumeration and backoff after
    transfer errors (src/reader/i3c/mod.rs:273-381). The bus, the address lookup
    in sysfs and the device lock answer arbitrarily; what is recorded is the
    sequence of things one call does. */
module I3c {
  import opened Wrappers
  import opened MetricTypes

  datatype AddressMode = Pid(pid: string) | Static(address: byte) | DeviceClass(dcr: string, instance: byte)

  /** What a transfer comes back with; only transfer errors are worth a retry. */
  datatype Reply = Data(bytes: seq<byte>) | Failed(retriable: bool)

  datatype Step =
    | Lookup(found: Option<byte>)
    | Transfer(address: byte, reply: Reply)
    | Backoff(ms: nat)
    | Poisoned

  const RETRIES: nat := 3

  /** The backoff before retry k. */
  function Wait(k: nat): nat
    requires k < RETRIES
  {
    if k == 0 then 100 else if k == 1 then 500 else 2000
  }

  // ----- the rules of one call -----

  /** What a call has done so far. */
  datatype State = State(
    cache: Option<byte>,   // the cached address
    tried: bool,           // a transfer since the last backoff
    transfers: nat, backoffs: nat, ms: nat,
    hopeless: bool,        // the first transfer failed for a reason no retry mends
    over: bool)            // a transfer succeeded, or the lock is gone

  function Begin(cache: Option<byte>): State {
    State(cache, false, 0, 0, 0, false, false)
  }

  function Observe(mode: AddressMode, s: State, e: Step): State {
    State(
      cache := if e.Lookup? then e.found else if e.Backoff? && !mode.Static? then None else s.cache,
      tried := e.Transfer? || (!e.Backoff? && s.tried),
      transfers := if e.Transfer? then s.transfers + 1 else s.transfers,
      backoffs := if e.Backoff? then s.backoffs + 1 else s.backoffs,
      ms := if e.Backoff? then s.ms + e.ms else s.ms,
      hopeless := s.hopeless || (e.Transfer? && s.transfers == 0 && s.backoffs == 0 && e.reply == Failed(false)),
      over := s.over || e.Poisoned? || (e.Transfer? && e.reply.Data?))
  }

  function After(mode: AddressMode, cache: Option<byte>, call: seq<Step>, n: nat): State
    requires n <= |call|
  {
    if n == 0 then Begin(cache) else Observe(mode, After(mode, cache, call, n - 1), call[n - 1])
  }

  /** An address is looked up only where none is cached, transfers go to the cached
      address, one in each round, and rounds are separated by the next backoff. */
  predicate Permitted(s: State, e: Step) {
    && !s.over && !s.hopeless
    && (e.Lookup? ==> s.cache.None?)
    && (e.Transfer? ==> s.cache == Some(e.address) && !s.tried)
    && (e.Backoff? ==> s.transfers > 0 && s.backoffs < RETRIES && e.ms == Wait(s.backoffs))
    && (e.Poisoned? ==> s.cache.Some?)
  }

  predicate PermittedAt(mode: AddressMode, cache: Option<byte>, call: seq<Step>, i: nat)
    requires i < |call|
  {
    Permitted(After(mode, cache, call, i), call[i])
  }

  ghost predicate Legal(mode: AddressMode, cache: Option<byte>, call: seq<Step>) {
    forall i {:trigger PermittedAt(mode, cache, call, i)} :: 0 <= i < |call| ==> PermittedAt(mode, cache, call, i)
  }

  /** A static address is always cached. */
  predicate CacheValid(mode: AddressMode, cache: Option<byte>) {
    mode.Static? ==> cache == Some(mode.address)
  }

  lemma {:induction false} AfterPrefix(mode: AddressMode, cache: Option<byte>, call: seq<Step>, longer: seq<Step>, n: nat)
    requires n <= |call| && call <= longer
    ensures After(mode, cache, call, n) == After(mode, cache, longer, n)
  {
    if n > 0 {
      AfterPrefix(mode, cache, call, longer, n - 1);
    }
  }

  lemma {:induction false} LegalExtended(mode: AddressMode, cache: Option<byte>, call: seq<Step>, e: Step)
    requires Legal(mode, cache, call) && Permitted(After(mode, cache, call, |call|), e)
    ensures Legal(mode, cache, call + [e])
    ensures After(mode, cache, call + [e], |call| + 1) == Observe(mode, After(mode, cache, call, |call|), e)
  {
    var longer := call + [e];
    forall i | 0 <= i < |longer| ensures PermittedAt(mode, cache, longer, i) {
      AfterPrefix(mode, cache, call, longer, i);
      if i < |call| {
        assert PermittedAt(mode, cache, call, i);
      }
    }
    AfterPrefix(mode, cache, call, longer, |call|);
  }

  // ----- what every call guarantees -----

  /** Total backoff after k rounds. */
  function Waited(k: nat): nat
    requires k <= 3
  {
    if k == 0 then 0 else Waited(k - 1) + Wait(k - 1)
  }

  /** No call makes more than four transfers or three backoffs, and it never waits
      longer than 2.6 seconds. A static address stays cached. */
  lemma {:induction false} CallsAreBounded(mode: AddressMode, cache: Option<byte>, call: seq<Step>, n: nat)
    requires Legal(mode, cache, call) && CacheValid(mode, cache) && n <= |call|
    ensures var s := After(mode, cache, call, n);
            && s.backoffs <= 3 && s.transfers <= s.backoffs + 1 && s.transfers <= 4
            && (!s.tried ==> s.transfers <= s.backoffs)
            && s.ms == Waited(s.backoffs) && s.ms <= 2600
            && CacheValid(mode, s.cache)
  {
    if n > 0 {
      CallsAreBounded(mode, cache, call, n - 1);
      assert PermittedAt(mode, cache, call, n - 1);
      WaitedIsBounded(After(mode, cache, call, n).backoffs);
    }
  }

  lemma {:induction false} WaitedIsBounded(k: nat)
    requires k <= 3
    ensures Waited(k) <= 2600
    ensures k > 0 ==> Waited(k) == Waited(k - 1) + Wait(k - 1)
  {
    if k > 0 {
      WaitedIsBounded(k - 1);
      if k > 1 {
        WaitedIsBounded(k - 2);
        if k > 2 {
          assert Waited(k - 3) == 0;
        }
      }
    }
  }

  function Backoffs(call: seq<Step>, n: nat): nat
    requires n <= |call|
  {
    if n == 0 then 0 else Backoffs(call, n - 1) + if call[n - 1].Backoff? then 1 else 0
  }

  lemma {:induction false} BackoffsCounted(mode: AddressMode, cache: Option<byte>, call: seq<Step>, n: nat)
    requires n <= |call|
    ensures After(mode, cache, call, n).backoffs == Backoffs(call, n)
  {
    if n > 0 {
      BackoffsCounted(mode, cache, call, n - 1);
    }
  }

  /** The waits before the first, second and third retry take 100, 500 and 2000
      milliseconds, and there is no fourth. */
  lemma {:induction false} BackoffsAreListed(mode: AddressMode, cache: Option<byte>, call: seq<Step>, n: nat)
    requires Legal(mode, cache, call) && n < |call| && call[n].Backoff?
    ensures Backoffs(call, n) < 3 && call[n].ms == [100, 500, 2000][Backoffs(call, n)]
  {
    assert PermittedAt(mode, cache, call, n);
    BackoffsCounted(mode, cache, call, n);
  }

  /** The last backoff before n. */
  predicate LastBackoff(call: seq<Step>, b: nat, n: nat) {
    b < n <= |call| && call[b].Backoff? && forall k :: b < k < n ==> !call[k].Backoff?
  }

  lemma {:induction false} CacheIsFresh(mode: AddressMode, cache: Option<byte>, call: seq<Step>, b: nat, n: nat) returns (l: nat)
    requires !mode.Static? && LastBackoff(call, b, n) && After(mode, cache, call, n).cache.Some?
    ensures b < l < n && call[l] == Lookup(After(mode, cache, call, n).cache)
  {
    if call[n - 1].Lookup? {
      l := n - 1;
    } else {
      l := CacheIsFresh(mode, cache, call, b, n - 1);
    }
  }

  /** In the dynamic modes a retry never uses an address from before the failure:
      it was looked up after the backoff that followed it. */
  lemma {:induction false} RetriesLookUp(mode: AddressMode, cache: Option<byte>, call: seq<Step>, b: nat, n: nat) returns (l: nat)
    requires !mode.Static? && Legal(mode, cache, call) && n < |call| && call[n].Transfer? && LastBackoff(call, b, n)
    ensures b < l < n && call[l] == Lookup(Some(call[n].address))
  {
    assert PermittedAt(mode, cache, call, n);
    l := CacheIsFresh(mode, cache, call, b, n);
  }

  /** In static mode nothing is ever looked up, and every transfer goes to the
      configured address. */
  lemma {:induction false} StaticModeStays(mode: AddressMode, cache: Option<byte>, call: seq<Step>, n: nat)
    requires mode.Static? && CacheValid(mode, cache) && Legal(mode, cache, call) && n < |call|
    ensures !call[n].Lookup? && (call[n].Transfer? ==> call[n].address == mode.address)
  {
    assert PermittedAt(mode, cache, call, n);
    CallsAreBounded(mode, cache, call, n);
  }

  lemma {:induction false} StillOpen(mode: AddressMode, cache: Option<byte>, call: seq<Step>, n: nat)
    requires Legal(mode, cache, call) && n < |call|
    ensures !After(mode, cache, call, n).over && !After(mode, cache, call, n).hopeless
  {
    assert PermittedAt(mode, cache, call, n);
  }

  /** A successful transfer is the last step, and its address is in the cache. A
      first error that is no transfer error is the last step, too; later errors
      are retried whatever their kind. */
  lemma {:induction false} SuccessEndsCall(mode: AddressMode, cache: Option<byte>, call: seq<Step>, n: nat)
    requires Legal(mode, cache, call) && n < |call| && call[n].Transfer?
    requires call[n].reply.Data? || (call[n].reply == Failed(false) && forall k :: 0 <= k < n ==> !call[k].Transfer?)
    ensures n == |call| - 1 && After(mode, cache, call, |call|).cache == Some(call[n].address)
  {
    assert PermittedAt(mode, cache, call, n);
    if !call[n].reply.Data? {
      FirstTransfer(mode, cache, call, n);
    }
    if n + 1 < |call| {
      StillOpen(mode, cache, call, n + 1);
    }
  }

  lemma {:induction false} FirstTransfer(mode: AddressMode, cache: Option<byte>, call: seq<Step>, n: nat)
    requires Legal(mode, cache, call) && n <= |call| && forall k :: 0 <= k < n ==> !call[k].Transfer?
    ensures After(mode, cache, call, n).transfers == 0 && After(mode, cache, call, n).backoffs == 0
  {
    if n > 0 {
      FirstTransfer(mode, cache, call, n - 1);
      assert PermittedAt(mode, cache, call, n - 1);
    }
  }

  /** The last transfer delivered these bytes from the cached address. */
  predicate Answered(call: seq<Step>, bytes: seq<byte>, cache: Option<byte>) {
    call != [] && var last := call[|call| - 1];
    last.Transfer? && last.reply == Data(bytes) && cache == Some(last.address)
  }

  /** No address was found to begin with, the lock was poisoned, the first transfer
      failed for good, or all retries have failed. */
  predicate GaveUp(call: seq<Step>, s: State) {
    call != [] && (
      || call == [Lookup(None)]
      || call[|call| - 1] == Poisoned
      || s.hopeless
      || (s.backoffs == 3 && !s.over))
  }

  // ----- the reader -----

  class Reader {
    const mode: AddressMode
    var resolved: Option<byte>
    /** What the current call has done, and the cache it started with. */
    ghost var call: seq<Step>
    ghost var start: Option<byte>

    ghost predicate Valid()
      reads this
    {
      && CacheValid(mode, resolved) && CacheValid(mode, start)
      && Legal(mode, start, call) && After(mode, start, call, |call|).cache == resolved
    }

    /** The state of the current call. */
    ghost function Now(): State
      reads this
    {
      After(mode, start, call, |call|)
    }

    constructor (mode: AddressMode)
      ensures Valid() && this.mode == mode
      ensures resolved == if mode.Static? then Some(mode.address) else None
    {
      this.mode := mode;
      resolved := if mode.Static? then Some(mode.address) else None;
      start := if mode.Static? then Some(mode.address) else None;
      call := [];
    }

    ghost method Record(e: Step)
      requires Legal(mode, start, call) && Permitted(Now(), e)
      modifies this`call
      ensures Legal(mode, start, call) && call == old(call) + [e] && Now() == Observe(mode, old(Now()), e)
    {
      LegalExtended(mode, start, call, e);
      call := call + [e];
    }

    /** The cached address, or a fresh one from sysfs. */
    method ResolveAddress() returns (r: Option<byte>)
      requires Valid() && !Now().over && !Now().hopeless
      modifies this`resolved, this`call
      ensures Valid() && r == resolved && start == old(start)
      ensures old(resolved).Some? ==> r == old(resolved) && call == old(call)
      ensures old(resolved).None? ==> call == old(call) + [Lookup(r)] && Now() == Observe(mode, old(Now()), Lookup(r))
    {
      if resolved.Some? {
        return resolved;
      }
      var found: Option<byte> := *;
      Record(Lookup(found));
      resolved := found;
      r := found;
    }

    /** Takes the device lock and transfers; None if the lock is poisoned. */
    method LockAndTransfer(address: byte) returns (reply: Option<Reply>)
      requires Valid() && Permitted(Now(), Transfer(address, Failed(true)))
      modifies this`call
      ensures Valid()
      ensures call == old(call) + [if reply.Some? then Transfer(address, reply.value) else Poisoned]
      ensures Now() == Observe(mode, old(Now()), call[|call| - 1])
    {
      var poisoned: bool := *;
      if poisoned {
        Record(Poisoned);
        return None;
      }
      var answer: Reply := *;
      Record(Transfer(address, answer));
      reply := Some(answer);
    }

    /** One retry: wait, forget a dynamic address, resolve, transfer. */
    method Retry(ms: nat) returns (reply: Option<Reply>)
      requires Valid() && Permitted(Now(), Backoff(ms))
      modifies this`resolved, this`call
      ensures Valid() && Now().backoffs == old(Now()).backoffs + 1
      ensures Now().transfers > 0 && !Now().hopeless
      ensures |call| > 0 && (reply == None <==> call[|call| - 1] == Poisoned)
      ensures reply.Some? && reply.value.Data? ==> Answered(call, reply.value.bytes, resolved)
      ensures Now().over <==> reply.None? || reply.value.Data?
    {
      Record(Backoff(ms));
      if !mode.Static? {
        resolved := None;
      }
      var address := ResolveAddress();
      if address.None? {
        return Some(Failed(true));
      }
      reply := LockAndTransfer(address.value);
    }

    /** The bytes of the register, or None for an error. */
    method ReadRegister() returns (r: Option<seq<byte>>)
      requires Valid()
      modifies this
      ensures Valid() && start == old(resolved)
      ensures r.Some? ==> Answered(call, r.value, resolved)
      ensures r.None? ==> GaveUp(call, Now())
    {
      start := resolved;
      call := [];
      var address := ResolveAddress();
      if address.None? {
        return None;
      }
      var reply := LockAndTransfer(address.value);
      if reply.None? {
        return None;
      }
      if reply.value.Data? {
        return Some(reply.value.bytes);
      }
      if !reply.value.retriable {
        return None;
      }
      for attempt := 0 to RETRIES
        invariant Valid() && start == old(resolved) && call != []
        invariant Now().backoffs == attempt && 0 < Now().transfers
        invariant !Now().over && !Now().hopeless
      {
        reply := Retry(Wait(attempt));
        if reply.None? {
          return None;
        }
        if reply.value.Data? {
          return Some(reply.value.bytes);
        }
      }
      r := None;
    }
  }
}
