// The connection rate limiter (server/network/rateLimiter.hpp): a token bucket per
// address, a global one, and a cleaner that deletes idle buckets. Tokens and seconds
// are reals; time 0 is the epoch of the steady clock.

module RateLimiting {
  import opened Errors
  import opened Reals

  type Address = int

  const IDLE_SECONDS := 60.0

  datatype TokenBucket = TokenBucket(tokens: real, lastUpdate: real)

  const NEW_BUCKET := TokenBucket(0.0, 0.0)

  datatype Limiter = Limiter(
    singleCapacity: real,
    globalCapacity: real,
    global: TokenBucket,
    buckets: map<Address, TokenBucket>)
  {
    function Entry(addr: Address): Option<TokenBucket> {
      if addr in buckets then Some(buckets[addr]) else None
    }

    function Bucket(addr: Address): TokenBucket {
      Existing(Entry(addr))
    }
  }

  /** An attempt from an address without a bucket creates one. */
  function Existing(entry: Option<TokenBucket>): TokenBucket {
    if entry.Some? then entry.value else NEW_BUCKET
  }

  function Fresh(singleCapacity: real, globalCapacity: real): Limiter {
    Limiter(singleCapacity, globalCapacity, NEW_BUCKET, map[])
  }

  function Min(a: real, b: real): real { if a <= b then a else b }

  function Refill(capacity: real, b: TokenBucket, now: real): real {
    Min(capacity, b.tokens + (now - b.lastUpdate) * capacity)
  }

  /** The address passes its own bucket. */
  predicate Passes(l: Limiter, addr: Address, now: real) {
    Refill(l.singleCapacity, l.Bucket(addr), now) > 0.0
  }

  /** The connection is let in: it passes its own bucket and then the global one. */
  predicate Allows(l: Limiter, addr: Address, now: real) {
    Passes(l, addr, now) && Refill(l.globalCapacity, l.global, now) > 0.0
  }

  /** A token is taken whether or not the attempt passes. */
  function Take(capacity: real, b: TokenBucket, now: real): TokenBucket {
    TokenBucket(Refill(capacity, b, now) - 1.0, now)
  }

  function AfterAttempt(l: Limiter, addr: Address, now: real): Limiter {
    var taken := l.(buckets := l.buckets[addr := Take(l.singleCapacity, l.Bucket(addr), now)]);
    if Passes(l, addr, now) then taken.(global := Take(l.globalCapacity, l.global, now)) else taken
  }

  /** The cleaner looking at one bucket: the clock is read again for each of them. */
  function AfterSweep(l: Limiter, addr: Address, now: real): Limiter {
    if addr in l.buckets && now - l.buckets[addr].lastUpdate >= IDLE_SECONDS
    then l.(buckets := l.buckets - {addr})
    else l
  }

  // ------------------------------------------------------------------------
  // The limiter
  // ------------------------------------------------------------------------

  class RateLimiter {
    var globalCapacity: real
    var globalToken: real
    var singleCapacity: real
    var lastUpdate: real
    var buckets: map<Address, TokenBucket>

    ghost function View(): Limiter
      reads this
    {
      Limiter(singleCapacity, globalCapacity, TokenBucket(globalToken, lastUpdate), buckets)
    }

    constructor (globalCapacity: real, singleCapacity: real)
      ensures View() == Fresh(singleCapacity, globalCapacity)
    {
      this.globalCapacity, this.singleCapacity := globalCapacity, singleCapacity;
      globalToken, lastUpdate, buckets := 0.0, 0.0, map[];
    }

    method AllowConnection(addr: Address, now: real) returns (allow: bool)
      modifies this
      ensures allow == Allows(old(View()), addr, now)
      ensures View() == AfterAttempt(old(View()), addr, now)
    {
      if addr !in buckets {
        buckets := buckets[addr := NEW_BUCKET];
      }
      var bucket := buckets[addr];
      assert bucket == old(View()).Bucket(addr);
      var tokens := Refill(singleCapacity, bucket, now);
      allow := tokens > 0.0;
      buckets := buckets[addr := TokenBucket(tokens - 1.0, now)];
      assert buckets == old(buckets)[addr := TokenBucket(tokens - 1.0, now)];
      if !allow {
        return;
      }
      var localGlobalToken := Refill(globalCapacity, TokenBucket(globalToken, lastUpdate), now);
      if localGlobalToken <= 0.0 {
        allow := false;
      }
      globalToken := localGlobalToken - 1.0;
      lastUpdate := now;
    }

    /** One pass of the cleaner, over `order`, its `i`-th look at the clock being `clock[i]`. */
    method AutoClean(order: seq<Address>, clock: seq<real>)
      requires |clock| == |order|
      modifies this
      ensures View() == RunFrom(old(View()), Sweeps(order, clock))
    {
      for i := 0 to |order|
        invariant View() == RunFrom(old(View()), Sweeps(order[..i], clock[..i]))
      {
        assert order[..i + 1][..i] == order[..i] && clock[..i + 1][..i] == clock[..i];
        if order[i] in buckets && clock[i] - buckets[order[i]].lastUpdate >= IDLE_SECONDS {
          buckets := buckets - {order[i]};
        }
      }
      assert order[..|order|] == order && clock[..|order|] == clock;
    }
  }

  function Sweeps(order: seq<Address>, clock: seq<real>): (evs: seq<Event>)
    requires |clock| == |order|
    ensures |evs| == |order|
  {
    if order == [] then []
    else
      var n := |order| - 1;
      Sweeps(order[..n], clock[..n]) + [Sweep(order[n], clock[n])]
  }

  /** Some look of the cleaner at the bucket finds it a minute old. */
  ghost predicate FoundIdle(l: Limiter, order: seq<Address>, clock: seq<real>, addr: Address)
    requires |clock| == |order| && addr in l.buckets
  {
    exists i :: 0 <= i < |order| && order[i] == addr && clock[i] - l.buckets[addr].lastUpdate >= 60.0
  }

  /** A cleaning erases the buckets it finds idle, and changes nothing else. */
  lemma {:induction false} SweepsErase(l: Limiter, order: seq<Address>, clock: seq<real>)
    requires |clock| == |order|
    ensures var l' := RunFrom(l, Sweeps(order, clock));
            && l' == l.(buckets := l'.buckets)
            && forall addr :: && (addr in l'.buckets <==> addr in l.buckets && !FoundIdle(l, order, clock, addr))
                              && (addr in l'.buckets ==> l'.buckets[addr] == l.buckets[addr])
  {
    if order != [] {
      var n := |order| - 1;
      SweepsErase(l, order[..n], clock[..n]);
      forall addr | addr in l.buckets
        ensures FoundIdle(l, order, clock, addr) <==>
                || FoundIdle(l, order[..n], clock[..n], addr)
                || (order[n] == addr && clock[n] - l.buckets[addr].lastUpdate >= 60.0)
      {
        OneMoreLook(l, order, clock, addr);
      }
      assert Sweeps(order, clock)[..n] == Sweeps(order[..n], clock[..n]);
    }
  }

  lemma OneMoreLook(l: Limiter, order: seq<Address>, clock: seq<real>, addr: Address)
    requires |clock| == |order| && order != [] && addr in l.buckets
    ensures var n := |order| - 1;
            FoundIdle(l, order, clock, addr) <==>
            || FoundIdle(l, order[..n], clock[..n], addr)
            || (order[n] == addr && clock[n] - l.buckets[addr].lastUpdate >= 60.0)
  {
    var n := |order| - 1;
    if i :| 0 <= i < |order| && order[i] == addr && clock[i] - l.buckets[addr].lastUpdate >= 60.0 {
      assert i < n ==> order[..n][i] == addr && clock[..n][i] == clock[i];
    }
    if i :| 0 <= i < n && order[..n][i] == addr && clock[..n][i] - l.buckets[addr].lastUpdate >= 60.0 {
      assert order[i] == addr && clock[i] == clock[..n][i];
    }
  }

  // ------------------------------------------------------------------------
  // Runs
  // ------------------------------------------------------------------------

  datatype Event = Attempt(addr: Address, now: real) | Sweep(addr: Address, now: real)

  function After(l: Limiter, e: Event): Limiter {
    match e
    case Attempt(addr, now) => AfterAttempt(l, addr, now)
    case Sweep(addr, now) => AfterSweep(l, addr, now)
  }

  function RunFrom(l: Limiter, evs: seq<Event>): (r: Limiter)
    ensures r.singleCapacity == l.singleCapacity && r.globalCapacity == l.globalCapacity
  {
    if evs == [] then l else After(RunFrom(l, evs[..|evs| - 1]), evs[|evs| - 1])
  }

  /** The clock never goes backwards, and ends at `end` at the latest. */
  predicate Timed(evs: seq<Event>, end: real) {
    && (forall i :: 0 <= i < |evs| ==> 0.0 <= evs[i].now <= end)
    && (forall i, j :: 0 <= i < j < |evs| ==> evs[i].now <= evs[j].now)
  }

  /** How often `addr` passes its bucket in [from, to]. */
  function PassCount(l: Limiter, evs: seq<Event>, addr: Address, from: real, to: real): nat {
    if evs == [] then 0
    else
      var before, e := evs[..|evs| - 1], evs[|evs| - 1];
      PassCount(l, before, addr, from, to)
      + (if e.Attempt? && e.addr == addr && from <= e.now <= to && Passes(RunFrom(l, before), addr, e.now)
          then 1 else 0)
  }

  /** How many connections of any address are let in during [from, to]. */
  function AllowCount(l: Limiter, evs: seq<Event>, from: real, to: real): nat {
    if evs == [] then 0
    else
      var before, e := evs[..|evs| - 1], evs[|evs| - 1];
      AllowCount(l, before, from, to)
      + (if e.Attempt? && from <= e.now <= to && Allows(RunFrom(l, before), e.addr, e.now) then 1 else 0)
  }

  // ------------------------------------------------------------------------
  // The bound over every window
  // ------------------------------------------------------------------------

  // What is earned by time `t` is `cap * t`. The steps below are linear in the amounts
  // earned by the moments that matter, so they take those amounts as plain reals.

  lemma RefillIs(cap: real, b: TokenBucket, now: real) returns (last: real, present: real)
    ensures last == cap * b.lastUpdate && present == cap * now
    ensures Refill(cap, b, now) == Min(cap, b.tokens + (present - last))
  {
    last, present := cap * b.lastUpdate, cap * now;
    Distribute(cap, now - b.lastUpdate, b.lastUpdate, (now - b.lastUpdate) * cap, last);
  }

  /** `p` passes since `from` and the tokens left are paid for by one bucketful and the refill since. */
  ghost predicate Covered(cap: real, tokens: real, p: real, earnedFrom: real, earnedLast: real) {
    p + tokens <= cap + earnedLast - earnedFrom && p < cap + earnedLast - earnedFrom + 1.0
  }

  lemma CoveredStep(cap: real, tokens: real, p: real, earnedFrom: real, earnedLast: real, earnedNow: real)
    requires cap >= 0.0 && p >= 0.0 && earnedFrom <= earnedNow && earnedLast <= earnedNow
    requires p == 0.0 || Covered(cap, tokens, p, earnedFrom, earnedLast)
    ensures var refilled := Min(cap, tokens + (earnedNow - earnedLast));
            var p' := if refilled > 0.0 then p + 1.0 else p;
            p' == 0.0 || Covered(cap, refilled - 1.0, p', earnedFrom, earnedNow)
  {
  }

  lemma CoveredAttempt(cap: real, b: TokenBucket, p: real, from: real, now: real, earnedFrom: real, earnedLast: real)
    returns (earnedNow: real)
    requires cap >= 0.0 && p >= 0.0 && from <= now && b.lastUpdate <= now
    requires earnedFrom == cap * from && earnedLast == cap * b.lastUpdate
    requires p == 0.0 || Covered(cap, b.tokens, p, earnedFrom, earnedLast)
    ensures earnedNow == cap * now
    ensures var p' := if Refill(cap, b, now) > 0.0 then p + 1.0 else p;
            p' == 0.0 || Covered(cap, Refill(cap, b, now) - 1.0, p', earnedFrom, earnedNow)
  {
    var _, _ := Amounts(cap, from, now);
    var _, _ := Amounts(cap, b.lastUpdate, now);
    var last, present := RefillIs(cap, b, now);
    earnedNow := present;
    CoveredStep(cap, b.tokens, p, earnedFrom, last, present);
  }

  /**
   * What holds of one address after each event, in amounts earned. A deletion comes at
   * least IDLE_SECONDS after the last attempt, which leaves room for one more bucketful.
   */
  ghost predicate Paid(cap: real, entry: Option<TokenBucket>, passed: nat, from: real, end: real) {
    match entry
    case Some(b) =>
      b.lastUpdate <= end
      && (passed > 0 ==> from <= b.lastUpdate && CoveredSince(cap, b, passed as real, from))
    case None =>
      passed > 0 ==> from <= end && EarnedSince(cap, passed as real, from, end)
  }

  ghost predicate CoveredSince(cap: real, b: TokenBucket, p: real, from: real) {
    Covered(cap, b.tokens, p, cap * from, cap * b.lastUpdate)
  }

  ghost predicate EarnedSince(cap: real, p: real, from: real, end: real) {
    p <= cap * end - cap * from
  }

  lemma PaidLater(cap: real, entry: Option<TokenBucket>, passed: nat, from: real, end: real, end': real)
    requires cap >= 0.0 && end <= end'
    requires Paid(cap, entry, passed, from, end)
    ensures Paid(cap, entry, passed, from, end')
  {
    if entry.None? && passed > 0 {
      EarnedLater(cap, passed as real, from, end, end');
    }
  }

  lemma EarnedLater(cap: real, p: real, from: real, end: real, end': real)
    requires cap >= 0.0 && from <= end <= end' && EarnedSince(cap, p, from, end)
    ensures EarnedSince(cap, p, from, end')
  {
    var _, _ := Amounts(cap, end, end');
  }

  lemma PaidBucket(cap: real, b: TokenBucket, passed: nat, from: real, now: real)
    requires cap >= 0.0 && from <= now
    requires Paid(cap, Some(b), passed, from, now)
    ensures Paid(cap, Some(Take(cap, b, now)), passed + (if Refill(cap, b, now) > 0.0 then 1 else 0), from, now)
  {
    var ef, el := cap * from, cap * b.lastUpdate;
    var _ := CoveredAttempt(cap, b, passed as real, from, now, ef, el);
  }

  lemma PaidNewBucket(cap: real, passed: nat, from: real, now: real)
    requires cap >= 0.0 && now >= 0.0 && from <= now
    requires Paid(cap, None, passed, from, now)
    ensures var hit := Refill(cap, NEW_BUCKET, now) > 0.0;
            Paid(cap, Some(Take(cap, NEW_BUCKET, now)), passed + (if hit then 1 else 0), from, now)
  {
    if passed == 0 {
      PaidBucket(cap, NEW_BUCKET, 0, from, now);
    } else {
      NewCovered(cap, passed as real, Refill(cap, NEW_BUCKET, now), cap * from, cap * now);
    }
  }

  lemma NewCovered(cap: real, p: real, refilled: real, earnedFrom: real, earnedNow: real)
    requires cap >= 0.0 && refilled <= cap && 0.0 < p <= earnedNow - earnedFrom
    ensures Covered(cap, refilled - 1.0, if refilled > 0.0 then p + 1.0 else p, earnedFrom, earnedNow)
  {
  }

  lemma PaidAttempt(cap: real, entry: Option<TokenBucket>, passed: nat, from: real, now: real)
    requires cap >= 0.0 && now >= 0.0
    requires Paid(cap, entry, passed, from, now)
    ensures var b := Existing(entry);
            var passed' := passed + (if from <= now && Refill(cap, b, now) > 0.0 then 1 else 0);
            Paid(cap, Some(Take(cap, b, now)), passed', from, now)
  {
    if from <= now {
      match entry
      case Some(b) => PaidBucket(cap, b, passed, from, now);
      case None => PaidNewBucket(cap, passed, from, now);
    }
  }

  lemma PaidDeletion(cap: real, b: TokenBucket, passed: nat, from: real, now: real)
    requires cap >= 1.0 / 59.0 && now - b.lastUpdate >= IDLE_SECONDS
    requires Paid(cap, Some(b), passed, from, now)
    ensures Paid(cap, None, passed, from, now)
  {
    if passed > 0 {
      var idle, present := Amounts(cap, b.lastUpdate + IDLE_SECONDS, now);
      var last := cap * b.lastUpdate;
      Distribute(cap, b.lastUpdate, IDLE_SECONDS, last, cap * IDLE_SECONDS);
      DeletionCovered(cap, b.tokens, passed as real, cap * from, last, present);
    }
  }

  lemma DeletionCovered(cap: real, tokens: real, p: real, earnedFrom: real, earnedLast: real, earnedNow: real)
    requires cap >= 1.0 / 59.0 && earnedLast + cap * IDLE_SECONDS <= earnedNow
    requires Covered(cap, tokens, p, earnedFrom, earnedLast)
    ensures p <= earnedNow - earnedFrom
  {
  }

  lemma EntryAfter(l: Limiter, e: Event, addr: Address)
    ensures After(l, e).Entry(addr) ==
            if e.addr != addr then l.Entry(addr)
            else if e.Attempt? then Some(Take(l.singleCapacity, l.Bucket(addr), e.now))
            else if l.Entry(addr).Some? && e.now - l.Entry(addr).value.lastUpdate >= IDLE_SECONDS then None
            else l.Entry(addr)
  {
  }

  lemma PaidStep(l: Limiter, e: Event, addr: Address, passed: nat, from: real)
    requires l.singleCapacity >= 1.0 / 59.0 && e.now >= 0.0
    requires Paid(l.singleCapacity, l.Entry(addr), passed, from, e.now)
    ensures var hit := e.Attempt? && e.addr == addr && from <= e.now && Passes(l, addr, e.now);
            Paid(l.singleCapacity, After(l, e).Entry(addr), passed + (if hit then 1 else 0), from, e.now)
  {
    EntryAfter(l, e, addr);
    if e.addr == addr {
      if e.Attempt? {
        PaidAttempt(l.singleCapacity, l.Entry(addr), passed, from, e.now);
      } else if l.Entry(addr).Some? && e.now - l.Entry(addr).value.lastUpdate >= IDLE_SECONDS {
        PaidDeletion(l.singleCapacity, l.Entry(addr).value, passed, from, e.now);
      }
    }
  }

  lemma {:induction false} PaidAlways(l: Limiter, evs: seq<Event>, addr: Address, from: real, end: real)
    requires l.buckets == map[] && l.singleCapacity >= 1.0 / 59.0
    requires Timed(evs, end)
    ensures Paid(l.singleCapacity, RunFrom(l, evs).Entry(addr), PassCount(l, evs, addr, from, end), from, end)
  {
    if evs != [] {
      var before, e := evs[..|evs| - 1], evs[|evs| - 1];
      PaidAlways(l, before, addr, from, e.now);
      SameCount(l, before, addr, from, e.now, end);
      PaidStep(RunFrom(l, before), e, addr, PassCount(l, before, addr, from, end), from);
      PaidLater(l.singleCapacity, RunFrom(l, evs).Entry(addr), PassCount(l, evs, addr, from, end), from, e.now, end);
    }
  }

  lemma {:induction false} SameCount(l: Limiter, evs: seq<Event>, addr: Address, from: real, to: real, end: real)
    requires Timed(evs, to) && to <= end
    ensures PassCount(l, evs, addr, from, to) == PassCount(l, evs, addr, from, end)
  {
    if evs != [] {
      SameCount(l, evs[..|evs| - 1], addr, from, to, end);
    }
  }

  /** Fewer than cap * (1 + delta) + 1 in a window of `delta` seconds. */
  ghost predicate Bounded(cap: real, passed: nat, from: real, to: real) {
    passed as real < cap * (1.0 + (to - from)) + 1.0
  }

  /** The bound in amounts earned. */
  lemma BoundedIs(cap: real, passed: nat, from: real, to: real, earnedFrom: real, earnedTo: real)
    requires earnedFrom == cap * from && earnedTo == cap * to
    ensures Bounded(cap, passed, from, to) <==> passed as real < cap + (earnedTo - earnedFrom) + 1.0
  {
    Distribute(cap, to - from, from, cap * (to - from), earnedFrom);
    Distribute(cap, 1.0, to - from, cap, cap * (to - from));
  }

  lemma PaidBound(cap: real, entry: Option<TokenBucket>, passed: nat, from: real, to: real)
    requires cap >= 0.0 && from <= to
    requires Paid(cap, entry, passed, from, to)
    ensures Bounded(cap, passed, from, to)
  {
    var ef, et := Amounts(cap, from, to);
    BoundedIs(cap, passed, from, to, ef, et);
    if passed > 0 && entry.Some? {
      var b := entry.value;
      var el, _ := Amounts(cap, b.lastUpdate, to);
      WithinBound(cap, b.tokens, passed as real, ef, el, et);
    }
  }

  lemma WithinBound(cap: real, tokens: real, p: real, earnedFrom: real, earnedLast: real, earnedTo: real)
    requires earnedLast <= earnedTo && Covered(cap, tokens, p, earnedFrom, earnedLast)
    ensures p < cap + (earnedTo - earnedFrom) + 1.0
  {
  }

  /**
   * In every window of delta seconds an address passes its bucket fewer than
   * cap * (1 + delta) + 1 times, whatever the other addresses, its denied attempts
   * and the cleaner do in between.
   */
  lemma {:induction false} WindowBound(l: Limiter, evs: seq<Event>, addr: Address, from: real, to: real, end: real)
    requires l.buckets == map[] && l.singleCapacity >= 1.0 / 59.0
    requires Timed(evs, end) && from <= to
    ensures Bounded(l.singleCapacity, PassCount(l, evs, addr, from, to), from, to)
  {
    if evs == [] {
      PaidBound(l.singleCapacity, None, 0, from, to);
    } else {
      var before, e := evs[..|evs| - 1], evs[|evs| - 1];
      if e.now > to {
        WindowBound(l, before, addr, from, to, end);
      } else {
        PaidAlways(l, evs, addr, from, to);
        PaidBound(l.singleCapacity, RunFrom(l, evs).Entry(addr), PassCount(l, evs, addr, from, to), from, to);
      }
    }
  }

  // The global bucket obeys the same bound: nothing ever deletes it.

  lemma {:induction false} GlobalPaidAlways(l: Limiter, evs: seq<Event>, from: real, end: real)
    requires l.global == NEW_BUCKET && l.globalCapacity >= 0.0
    requires Timed(evs, end) && end >= 0.0
    ensures Paid(l.globalCapacity, Some(RunFrom(l, evs).global), AllowCount(l, evs, from, end), from, end)
  {
    if evs != [] {
      var before, e := evs[..|evs| - 1], evs[|evs| - 1];
      var r := RunFrom(l, before);
      GlobalPaidAlways(l, before, from, e.now);
      SameAllowCount(l, before, from, e.now, end);
      if e.Attempt? && Passes(r, e.addr, e.now) {
        PaidAttempt(l.globalCapacity, Some(r.global), AllowCount(l, before, from, end), from, e.now);
      }
      PaidLater(l.globalCapacity, Some(RunFrom(l, evs).global), AllowCount(l, evs, from, end), from, e.now, end);
    }
  }

  lemma {:induction false} SameAllowCount(l: Limiter, evs: seq<Event>, from: real, to: real, end: real)
    requires Timed(evs, to) && to <= end
    ensures AllowCount(l, evs, from, to) == AllowCount(l, evs, from, end)
  {
    if evs != [] {
      SameAllowCount(l, evs[..|evs| - 1], from, to, end);
    }
  }

  lemma {:induction false} GlobalWindowBound(l: Limiter, evs: seq<Event>, from: real, to: real, end: real)
    requires l.global == NEW_BUCKET && l.globalCapacity >= 0.0
    requires Timed(evs, end) && from <= to
    ensures Bounded(l.globalCapacity, AllowCount(l, evs, from, to), from, to)
  {
    if evs == [] {
      PaidBound(l.globalCapacity, None, 0, from, to);
    } else if evs[|evs| - 1].now <= to {
      assert evs[0].now >= 0.0;
      GlobalPaidAlways(l, evs, from, to);
      PaidBound(l.globalCapacity, Some(RunFrom(l, evs).global), AllowCount(l, evs, from, to), from, to);
    } else {
      GlobalWindowBound(l, evs[..|evs| - 1], from, to, end);
    }
  }

  // ------------------------------------------------------------------------
  // No one is turned away without a reason
  // ------------------------------------------------------------------------

  /** How often `addr` has tried since `from`. */
  function TryCount(evs: seq<Event>, addr: Address, from: real): nat {
    if evs == [] then 0
    else
      var before, e := evs[..|evs| - 1], evs[|evs| - 1];
      TryCount(before, addr, from) + (if e.Attempt? && e.addr == addr && from <= e.now then 1 else 0)
  }

  /** How many attempts of any address have passed their own bucket since `from`. */
  function OwnPasses(l: Limiter, evs: seq<Event>, from: real): nat {
    if evs == [] then 0
    else
      var before, e := evs[..|evs| - 1], evs[|evs| - 1];
      OwnPasses(l, before, from)
      + (if e.Attempt? && from <= e.now && Passes(RunFrom(l, before), e.addr, e.now) then 1 else 0)
  }

  /**
   * Where the tokens of a bucket have gone: `taken` of them since `from`, when it was
   * full, or since the epoch, when it was empty.
   */
  ghost predicate Accounted(cap: real, b: TokenBucket, taken: real, from: real, full: bool) {
    from <= b.lastUpdate && b.tokens + taken >= (if full then cap else 0.0) + (cap * b.lastUpdate - cap * from)
  }

  /** One more token taken; if the bucket was full, the account starts anew. */
  lemma AccountedStep(cap: real, b: TokenBucket, taken: real, from: real, full: bool, now: real) returns (refull: bool)
    requires Accounted(cap, b, taken, from, full) && b.lastUpdate <= now
    ensures refull ==> forall more: real :: more >= 1.0 ==> Accounted(cap, Take(cap, b, now), more, now, true)
    ensures !refull ==> Accounted(cap, Take(cap, b, now), taken + 1.0, from, full)
  {
    var last, present := RefillIs(cap, b, now);
    refull := Refill(cap, b, now) == cap;
  }

  ghost predicate Overdrawn(cap: real, taken: nat, from: real, now: real) {
    from <= now && taken as real >= cap * (1.0 + (now - from))
  }

  /** A bucket that lets nothing pass is overdrawn. */
  lemma OverdrawnIs(cap: real, b: TokenBucket, taken: nat, from: real, full: bool, now: real)
    requires cap > 0.0 && Accounted(cap, b, taken as real, from, full) && Refill(cap, b, now) <= 0.0
    requires b.lastUpdate <= now && (!full ==> from == 0.0)
    ensures full ==> Overdrawn(cap, taken, from, now)
    ensures !full ==> taken as real >= cap * now
  {
    var last, present := RefillIs(cap, b, now);
    var earned := cap * from;
    Distribute(cap, now - from, from, cap * (now - from), earned);
    Distribute(cap, 1.0, now - from, cap, cap * (now - from));
  }

  /** Every token taken from the global bucket has been taken by an attempt that passed its own. */
  lemma {:induction false} GlobalAccount(l: Limiter, evs: seq<Event>, end: real) returns (from: real, full: bool)
    requires l.global == NEW_BUCKET && Timed(evs, end)
    ensures from >= 0.0 && (!full ==> from == 0.0)
    ensures RunFrom(l, evs).global.lastUpdate <= if evs == [] then 0.0 else end
    ensures Accounted(l.globalCapacity, RunFrom(l, evs).global, OwnPasses(l, evs, from) as real, from, full)
  {
    if evs == [] {
      from, full := 0.0, false;
    } else {
      var before, e := evs[..|evs| - 1], evs[|evs| - 1];
      from, full := GlobalAccount(l, before, e.now);
      var r := RunFrom(l, before);
      if e.Attempt? && Passes(r, e.addr, e.now) {
        var refull :=
          AccountedStep(l.globalCapacity, r.global, OwnPasses(l, before, from) as real, from, full, e.now);
        if refull {
          from, full := e.now, true;
        }
      }
    }
  }

  ghost predicate GlobalOverdrawn(l: Limiter, evs: seq<Event>, now: real) {
    || (exists from :: Overdrawn(l.globalCapacity, OwnPasses(l, evs, from), from, now))
    || OwnPasses(l, evs, 0.0) as real >= l.globalCapacity * now
  }

  /**
   * Whoever passes the own bucket is let in, unless the global bucket is overdrawn: by
   * at least cap * (1 + delta) passes within the last delta seconds, or by at least
   * cap times the age of the clock in all.
   */
  lemma RefusedGlobally(l: Limiter, evs: seq<Event>, addr: Address, now: real)
    requires l.global == NEW_BUCKET && l.globalCapacity > 0.0 && Timed(evs, now) && now >= 0.0
    requires Passes(RunFrom(l, evs), addr, now) && !Allows(RunFrom(l, evs), addr, now)
    ensures GlobalOverdrawn(l, evs, now)
  {
    var from, full := GlobalAccount(l, evs, now);
    GlobalEmpty(RunFrom(l, evs), addr, now);
    GlobalConclusion(l, evs, RunFrom(l, evs).global, from, full, now);
  }

  lemma GlobalConclusion(l: Limiter, evs: seq<Event>, b: TokenBucket, from: real, full: bool, now: real)
    requires l.globalCapacity > 0.0 && Refill(l.globalCapacity, b, now) <= 0.0
    requires Accounted(l.globalCapacity, b, OwnPasses(l, evs, from) as real, from, full)
    requires b.lastUpdate <= now && (!full ==> from == 0.0)
    ensures GlobalOverdrawn(l, evs, now)
  {
    OverdrawnIs(l.globalCapacity, b, OwnPasses(l, evs, from), from, full, now);
  }

  lemma GlobalEmpty(l: Limiter, addr: Address, now: real)
    requires Passes(l, addr, now) && !Allows(l, addr, now)
    ensures Refill(l.globalCapacity, l.global, now) <= 0.0
  {
  }

  /** Every token taken from the bucket of an address has been taken by an attempt of its own. */
  lemma {:induction false} OwnAccount(l: Limiter, evs: seq<Event>, addr: Address, end: real)
    returns (from: real, full: bool)
    requires l.buckets == map[] && Timed(evs, end)
    ensures from >= 0.0 && (!full ==> from == 0.0)
    ensures RunFrom(l, evs).Bucket(addr).lastUpdate <= if evs == [] then 0.0 else end
    ensures Accounted(l.singleCapacity, RunFrom(l, evs).Bucket(addr), TryCount(evs, addr, from) as real, from, full)
  {
    if evs == [] {
      from, full := 0.0, false;
    } else {
      var before, e := evs[..|evs| - 1], evs[|evs| - 1];
      from, full := OwnAccount(l, before, addr, e.now);
      from, full := OwnAccountStep(l, evs, addr, from, full);
    }
  }

  lemma OwnAccountStep(l: Limiter, evs: seq<Event>, addr: Address, from: real, full: bool)
    returns (from': real, full': bool)
    requires evs != [] && from >= 0.0 && (!full ==> from == 0.0)
    requires var (r, e) := (RunFrom(l, evs[..|evs| - 1]), evs[|evs| - 1]);
             e.now >= 0.0 && r.Bucket(addr).lastUpdate <= e.now
    requires Accounted(l.singleCapacity, RunFrom(l, evs[..|evs| - 1]).Bucket(addr),
                       TryCount(evs[..|evs| - 1], addr, from) as real, from, full)
    ensures from' >= 0.0 && (!full' ==> from' == 0.0)
    ensures RunFrom(l, evs).Bucket(addr).lastUpdate <= evs[|evs| - 1].now
    ensures Accounted(l.singleCapacity, RunFrom(l, evs).Bucket(addr), TryCount(evs, addr, from') as real, from', full')
  {
    from', full' := from, full;
    var before, e := evs[..|evs| - 1], evs[|evs| - 1];
    var r := RunFrom(l, before);
    EntryAfter(r, e, addr);
    if e.addr == addr && e.Attempt? {
      var refull :=
        AccountedStep(l.singleCapacity, r.Bucket(addr), TryCount(before, addr, from) as real, from, full, e.now);
      if refull {
        from', full' := e.now, true;
      }
    } else if After(r, e).Entry(addr) == None {
      from', full' := 0.0, false;
    }
  }

  ghost predicate OwnOverdrawn(cap: real, evs: seq<Event>, addr: Address, now: real) {
    || (exists from :: Overdrawn(cap, TryCount(evs, addr, from), from, now))
    || TryCount(evs, addr, 0.0) as real >= cap * now
  }

  /** And an address is denied by its own bucket only if it has tried that often itself. */
  lemma RefusedByOwn(l: Limiter, evs: seq<Event>, addr: Address, now: real)
    requires l.buckets == map[] && l.singleCapacity > 0.0 && Timed(evs, now) && now >= 0.0
    requires !Passes(RunFrom(l, evs), addr, now)
    ensures OwnOverdrawn(l.singleCapacity, evs, addr, now)
  {
    var from, full := OwnAccount(l, evs, addr, now);
    OwnEmpty(RunFrom(l, evs), addr, now);
    OwnConclusion(l.singleCapacity, evs, addr, RunFrom(l, evs).Bucket(addr), from, full, now);
  }

  lemma OwnConclusion(cap: real, evs: seq<Event>, addr: Address, b: TokenBucket, from: real, full: bool, now: real)
    requires cap > 0.0 && Refill(cap, b, now) <= 0.0
    requires Accounted(cap, b, TryCount(evs, addr, from) as real, from, full)
    requires b.lastUpdate <= now && (!full ==> from == 0.0)
    ensures OwnOverdrawn(cap, evs, addr, now)
  {
    OverdrawnIs(cap, b, TryCount(evs, addr, from), from, full, now);
  }

  lemma OwnEmpty(l: Limiter, addr: Address, now: real)
    requires !Passes(l, addr, now)
    ensures Refill(l.singleCapacity, l.Bucket(addr), now) <= 0.0
  {
  }

  // ------------------------------------------------------------------------
  // 1/59 is the exact capacity from which the window bound holds
  // ------------------------------------------------------------------------

  /** Every window of every run of a limiter with these capacities keeps the bound. */
  ghost predicate AlwaysBounded(singleCapacity: real, globalCapacity: real) {
    forall evs: seq<Event>, addr: Address, from: real, to: real, end: real ::
      Timed(evs, end) && from <= to
      ==> Bounded(singleCapacity, PassCount(Fresh(singleCapacity, globalCapacity), evs, addr, from, to), from, to)
  }

  /** Pass, wait until the debt is just paid, pass again, and be forgotten a minute later. */
  function Cycle(start: real, wait: real): seq<Event> {
    [Attempt(0, start), Attempt(0, start + wait), Sweep(0, start + wait + IDLE_SECONDS)]
  }

  function StartOf(n: nat, wait: real): real {
    if n == 0 then 1.0 else StartOf(n - 1, wait) + wait + IDLE_SECONDS
  }

  function Cycles(n: nat, wait: real): seq<Event> {
    if n == 0 then [] else Cycles(n - 1, wait) + Cycle(StartOf(n - 1, wait), wait)
  }

  /** Both attempts of a cycle that finds no bucket pass, and the bucket is old enough when looked at. */
  ghost predicate CycleWorks(l: Limiter, start: real, wait: real) {
    var first := AfterAttempt(l, 0, start);
    var second := AfterAttempt(first, 0, start + wait);
    && Passes(l, 0, start)
    && Passes(first, 0, start + wait)
    && second.Entry(0).Some? && second.Bucket(0).lastUpdate == start + wait
  }

  /** While the bucket is away or full, one capacity is there. */
  lemma NewBucketFull(cap: real, now: real)
    requires cap >= 0.0 && now >= 1.0
    ensures Refill(cap, NEW_BUCKET, now) == cap
  {
    var _, _ := RefillIs(cap, NEW_BUCKET, now);
    var one, present := Amounts(cap, 1.0, now);
  }

  /** The refill over a wait that earns `earned`. */
  lemma RefillAfter(cap: real, tokens: real, start: real, wait: real, earned: real)
    requires cap * wait == earned
    ensures Refill(cap, TokenBucket(tokens, start), start + wait) == Min(cap, tokens + earned)
  {
    var last, _ := RefillIs(cap, TokenBucket(tokens, start), start + wait);
    Distribute(cap, start, wait, last, earned);
  }

  lemma CycleStep(l: Limiter, start: real, wait: real, earned: real)
    requires 0.0 < l.singleCapacity < 1.0 && start >= 1.0 && wait >= 0.0
    requires l.singleCapacity * wait == earned && earned > 1.0 - l.singleCapacity
    requires l.Entry(0) == None
    ensures CycleWorks(l, start, wait)
  {
    var cap := l.singleCapacity;
    NewBucketFull(cap, start);
    RefillAfter(cap, cap - 1.0, start, wait, earned);
    EntryAfter(l, Attempt(0, start), 0);
    assert AfterAttempt(l, 0, start).Bucket(0) == TokenBucket(cap - 1.0, start);
    EntryAfter(AfterAttempt(l, 0, start), Attempt(0, start + wait), 0);
  }

  lemma CycleCounts(l: Limiter, before: seq<Event>, start: real, wait: real, to: real)
    requires CycleWorks(RunFrom(l, before), start, wait)
    requires 1.0 <= start && 0.0 <= wait && start + wait <= to
    ensures RunFrom(l, before + Cycle(start, wait)).Entry(0) == None
    ensures PassCount(l, before + Cycle(start, wait), 0, 1.0, to) == PassCount(l, before, 0, 1.0, to) + 2
  {
    var pass, again, forget := Attempt(0, start), Attempt(0, start + wait), Sweep(0, start + wait + IDLE_SECONDS);
    AppendStep(l, before, pass, to);
    AppendStep(l, before + [pass], again, to);
    AppendStep(l, before + [pass] + [again], forget, to);
    EntryAfter(RunFrom(l, before + [pass] + [again]), forget, 0);
    assert before + Cycle(start, wait) == before + [pass] + [again] + [forget];
  }

  lemma AppendStep(l: Limiter, evs: seq<Event>, e: Event, to: real)
    ensures RunFrom(l, evs + [e]) == After(RunFrom(l, evs), e)
    ensures PassCount(l, evs + [e], 0, 1.0, to) == PassCount(l, evs, 0, 1.0, to)
            + (if e.Attempt? && e.addr == 0 && 1.0 <= e.now <= to && Passes(RunFrom(l, evs), 0, e.now) then 1 else 0)
  {
    assert (evs + [e])[..|evs|] == evs;
  }

  lemma {:induction false} CyclesTimed(n: nat, wait: real)
    requires wait >= 0.0
    ensures StartOf(n, wait) >= 1.0
    ensures Timed(Cycles(n, wait), StartOf(n, wait))
  {
    if n > 0 {
      CyclesTimed(n - 1, wait);
    }
  }

  lemma {:induction false} CyclesRun(l: Limiter, n: nat, wait: real, earned: real, to: real)
    requires l.buckets == map[] && 0.0 < l.singleCapacity < 1.0 && wait >= 0.0
    requires l.singleCapacity * wait == earned && earned > 1.0 - l.singleCapacity
    requires StartOf(n, wait) <= to
    ensures RunFrom(l, Cycles(n, wait)).Entry(0) == None
    ensures PassCount(l, Cycles(n, wait), 0, 1.0, to) == 2 * n
  {
    if n > 0 {
      CyclesRun(l, n - 1, wait, earned, to);
      CyclesTimed(n - 1, wait);
      NextCycle(l, Cycles(n - 1, wait), StartOf(n - 1, wait), wait, earned, to);
    }
  }

  lemma NextCycle(l: Limiter, before: seq<Event>, start: real, wait: real, earned: real, to: real)
    requires 0.0 < l.singleCapacity < 1.0 && RunFrom(l, before).Entry(0) == None && wait >= 0.0
    requires l.singleCapacity * wait == earned && earned > 1.0 - l.singleCapacity
    requires 1.0 <= start && start + wait <= to
    ensures RunFrom(l, before + Cycle(start, wait)).Entry(0) == None
    ensures PassCount(l, before + Cycle(start, wait), 0, 1.0, to) == PassCount(l, before, 0, 1.0, to) + 2
  {
    CycleStep(RunFrom(l, before), start, wait, earned);
    CycleCounts(l, before, start, wait, to);
  }

  /** What `n` cycles earn, if each earns `each`. */
  lemma {:induction false} CyclesEarn(cap: real, n: nat, wait: real, each: real)
    requires cap * (wait + IDLE_SECONDS) == each
    ensures cap * (StartOf(n, wait) - 1.0) == Times(n, each)
  {
    if n > 0 {
      CyclesEarn(cap, n - 1, wait, each);
      var before := StartOf(n - 1, wait) - 1.0;
      Distribute(cap, before, wait + IDLE_SECONDS, Times(n - 1, each), each);
      assert StartOf(n, wait) - 1.0 == before + (wait + IDLE_SECONDS);
    }
  }

  /** Earnings over `n` cycles fall short of the `2n` passes by `n` times a fixed gap. */
  lemma {:induction false} ShortBy(n: nat, count: real, gap: real)
    requires count == n as real
    ensures Times(n, 2.0 - gap) == 2.0 * count - Times(n, gap)
  {
    if n > 0 {
      ShortBy(n - 1, count - 1.0, gap);
    }
  }

  lemma TooManyPasses(sc: real, gc: real)
    requires 0.0 < sc < 1.0 / 59.0
    ensures !AlwaysBounded(sc, gc)
  {
    var gap := (1.0 - 59.0 * sc) / 2.0;
    var earned := 2.0 - gap - 60.0 * sc;
    var wait := Quotient(earned, sc);
    Distribute(sc, wait, IDLE_SECONDS, earned, 60.0 * sc);
    var n := Reaches(2.0, gap);
    CyclesExceed(sc, gc, n, wait, earned, gap);
  }

  lemma CyclesExceed(sc: real, gc: real, n: nat, wait: real, earned: real, gap: real)
    requires 0.0 < sc < 1.0 && wait >= 0.0 && earned > 1.0 - sc && Times(n, gap) >= 2.0
    requires sc * wait == earned && sc * (wait + IDLE_SECONDS) == 2.0 - gap
    ensures !AlwaysBounded(sc, gc)
  {
    CyclesTimed(n, wait);
    CyclesRun(Fresh(sc, gc), n, wait, earned, StartOf(n, wait));
    CyclesFall(sc, n, n as real, wait, gap);
    NotAlways(sc, gc, Cycles(n, wait), StartOf(n, wait), 2 * n);
  }

  lemma CyclesFall(cap: real, n: nat, count: real, wait: real, gap: real)
    requires cap < 1.0 && cap * (wait + IDLE_SECONDS) == 2.0 - gap
    requires count == n as real && Times(n, gap) >= 2.0
    ensures !Bounded(cap, 2 * n, 1.0, StartOf(n, wait))
  {
    CyclesEarn(cap, n, wait, 2.0 - gap);
    ShortBy(n, count, gap);
    OverBound(cap, 2 * n, StartOf(n, wait), Times(n, 2.0 - gap));
  }

  lemma OverBound(cap: real, passed: nat, to: real, earned: real)
    requires cap < 1.0 && cap * (to - 1.0) == earned && earned + 2.0 <= passed as real
    ensures !Bounded(cap, passed, 1.0, to)
  {
    var earnedTo := cap * to;
    Distribute(cap, to - 1.0, 1.0, earned, cap);
    BoundedIs(cap, passed, 1.0, to, cap, earnedTo);
  }

  lemma NotAlways(sc: real, gc: real, evs: seq<Event>, to: real, passed: nat)
    requires Timed(evs, to) && 1.0 <= to && PassCount(Fresh(sc, gc), evs, 0, 1.0, to) == passed
    requires !Bounded(sc, passed, 1.0, to)
    ensures !AlwaysBounded(sc, gc)
  {
  }

  lemma BoundThreshold(sc: real, gc: real)
    requires sc > 0.0
    ensures AlwaysBounded(sc, gc) <==> sc >= 1.0 / 59.0
  {
    if sc >= 1.0 / 59.0 {
      forall evs: seq<Event>, addr: Address, from: real, to: real, end: real | Timed(evs, end) && from <= to
        ensures Bounded(sc, PassCount(Fresh(sc, gc), evs, addr, from, to), from, to)
      {
        WindowBound(Fresh(sc, gc), evs, addr, from, to, end);
      }
    } else {
      TooManyPasses(sc, gc);
    }
  }

  // ------------------------------------------------------------------------
  // What a deletion changes
  // ------------------------------------------------------------------------

  /** The bucket would have been full again at `now`. */
  predicate FullBy(cap: real, b: TokenBucket, now: real) {
    b.tokens + (now - b.lastUpdate) * cap >= cap
  }

  /** For a bucket deleted the moment it is idle long enough, that is a balance of at least -59 capacities. */
  lemma FullAfterIdling(cap: real, b: TokenBucket, now: real)
    requires now - b.lastUpdate == IDLE_SECONDS
    ensures FullBy(cap, b, now) <==> b.tokens >= -59.0 * cap
  {
    assert (now - b.lastUpdate) * cap == 60.0 * cap;
  }

  /** And at any later moment such a balance is enough. */
  lemma FullLater(cap: real, b: TokenBucket, now: real)
    requires cap >= 0.0 && now - b.lastUpdate >= IDLE_SECONDS && b.tokens >= -59.0 * cap
    ensures FullBy(cap, b, now)
  {
    var idle, gain := Amounts(cap, IDLE_SECONDS, now - b.lastUpdate);
  }

  lemma FullIs(cap: real, b: TokenBucket, now: real)
    ensures FullBy(cap, b, now) <==> Refill(cap, b, now) == cap
    ensures FullBy(cap, b, now) ==> Take(cap, b, now) == TokenBucket(cap - 1.0, now)
  {
  }

  lemma StaysFull(cap: real, b: TokenBucket, at: real, now: real)
    requires cap >= 0.0 && at <= now && FullBy(cap, b, at)
    ensures FullBy(cap, b, now)
  {
    var gain, gain' := Amounts(cap, at - b.lastUpdate, now - b.lastUpdate);
  }

  /** The same everywhere, but for a bucket that one limiter has deleted and the other still holds. */
  ghost predicate SameButSwept(l: Limiter, m: Limiter, addr: Address, b: TokenBucket) {
    && l.singleCapacity == m.singleCapacity && l.globalCapacity == m.globalCapacity && l.global == m.global
    && (forall x :: x != addr ==> l.Entry(x) == m.Entry(x))
    && (l.Entry(addr) == m.Entry(addr) || (l.Entry(addr) == None && m.Entry(addr) == Some(b)))
  }

  lemma SameAttempt(l: Limiter, m: Limiter, addr: Address, b: TokenBucket, x: Address, now: real)
    requires SameButSwept(l, m, addr, b) && l.singleCapacity > 0.0
    requires now >= 1.0 && FullBy(l.singleCapacity, b, now)
    ensures Refill(l.singleCapacity, l.Bucket(x), now) == Refill(m.singleCapacity, m.Bucket(x), now)
  {
    assert x == addr || l.Entry(x) == m.Entry(x);
    if l.Entry(x) != m.Entry(x) {
      NewBucketFull(l.singleCapacity, now);
      FullIs(l.singleCapacity, b, now);
    }
  }

  lemma SweptStep(l: Limiter, m: Limiter, e: Event, addr: Address, b: TokenBucket)
    requires SameButSwept(l, m, addr, b) && l.singleCapacity > 0.0 && b.lastUpdate >= 0.0
    requires e.now - b.lastUpdate >= IDLE_SECONDS && FullBy(l.singleCapacity, b, e.now)
    ensures SameButSwept(After(l, e), After(m, e), addr, b)
    ensures e.Attempt? ==> Passes(l, e.addr, e.now) == Passes(m, e.addr, e.now)
    ensures e.Attempt? ==> Allows(l, e.addr, e.now) == Allows(m, e.addr, e.now)
  {
    SameAttempt(l, m, addr, b, e.addr, e.now);
    forall x
      ensures x != addr ==> After(l, e).Entry(x) == After(m, e).Entry(x)
      ensures x == addr ==> After(l, e).Entry(x) == After(m, e).Entry(x)
                            || (After(l, e).Entry(x) == None && After(m, e).Entry(x) == Some(b))
    {
      EntryAfter(l, e, x);
      EntryAfter(m, e, x);
    }
  }

  /** Decisions of a run about one address, latest last. */
  function Decisions(l: Limiter, evs: seq<Event>, addr: Address): (ds: seq<bool>)
    ensures |ds| == |evs|
  {
    if evs == [] then []
    else
      var before, e := evs[..|evs| - 1], evs[|evs| - 1];
      Decisions(l, before, addr) + [e.Attempt? && e.addr == addr && Passes(RunFrom(l, before), addr, e.now)]
  }

  /** Which attempts of a run are let in, of any address. */
  function Admissions(l: Limiter, evs: seq<Event>): (ds: seq<bool>)
    ensures |ds| == |evs|
  {
    if evs == [] then []
    else
      var before, e := evs[..|evs| - 1], evs[|evs| - 1];
      Admissions(l, before) + [e.Attempt? && Allows(RunFrom(l, before), e.addr, e.now)]
  }

  predicate From(at: real, evs: seq<Event>) {
    forall i :: 0 <= i < |evs| ==> at <= evs[i].now
  }

  lemma {:induction false} DeletionUnseen(l: Limiter, addr: Address, at: real, evs: seq<Event>)
    requires l.singleCapacity > 0.0 && l.Entry(addr).Some? && l.Bucket(addr).lastUpdate >= 0.0
    requires at - l.Bucket(addr).lastUpdate >= IDLE_SECONDS && FullBy(l.singleCapacity, l.Bucket(addr), at)
    requires From(at, evs)
    ensures SameButSwept(RunFrom(AfterSweep(l, addr, at), evs), RunFrom(l, evs), addr, l.Bucket(addr))
    ensures forall x :: Decisions(AfterSweep(l, addr, at), evs, x) == Decisions(l, evs, x)
    ensures Admissions(AfterSweep(l, addr, at), evs) == Admissions(l, evs)
  {
    var swept, b := AfterSweep(l, addr, at), l.Bucket(addr);
    if evs == [] {
      forall x { EntryAfter(l, Sweep(addr, at), x); }
    } else {
      var before, e := evs[..|evs| - 1], evs[|evs| - 1];
      DeletionUnseen(l, addr, at, before);
      StaysFull(l.singleCapacity, b, at, e.now);
      SweptStep(RunFrom(swept, before), RunFrom(l, before), e, addr, b);
      forall x
        ensures Decisions(swept, evs, x) == Decisions(l, evs, x)
      {
        assert Decisions(swept, before, x) == Decisions(l, before, x);
      }
    }
  }

  /** `n` attempts at the same moment. */
  function Burst(addr: Address, at: real, n: nat): seq<Event> {
    if n == 0 then [] else Burst(addr, at, n - 1) + [Attempt(addr, at)]
  }

  lemma RefillAtOnce(cap: real, tokens: real, now: real)
    requires tokens <= cap
    ensures Refill(cap, TokenBucket(tokens, now), now) == tokens
  {
    assert (now - now) * cap == 0.0;
  }

  lemma {:induction false} BurstEvents(addr: Address, at: real, n: nat)
    ensures |Burst(addr, at, n)| == n
    ensures forall i :: 0 <= i < n ==> Burst(addr, at, n)[i] == Attempt(addr, at)
  {
    if n > 0 {
      BurstEvents(addr, at, n - 1);
    }
  }

  lemma AfterBurst(l: Limiter, addr: Address, at: real, n: nat, count: real, refilled: real)
    requires n > 0 && count == n as real && refilled == Refill(l.singleCapacity, l.Bucket(addr), at)
    ensures RunFrom(l, Burst(addr, at, n)).Entry(addr) == Some(TokenBucket(refilled - count, at))
  {
    FirstTaken(l, addr, at, refilled);
    MoreTaken(RunFrom(l, Burst(addr, at, 1)), addr, at, n - 1, count - 1.0, refilled - 1.0);
    BurstSplit(l, addr, at, n);
  }

  lemma BurstSplit(l: Limiter, addr: Address, at: real, n: nat)
    requires n > 0
    ensures RunFrom(l, Burst(addr, at, n)) == RunFrom(RunFrom(l, Burst(addr, at, 1)), Burst(addr, at, n - 1))
  {
    BurstEvents(addr, at, 1);
    BurstEvents(addr, at, n - 1);
    BurstEvents(addr, at, n);
    assert Burst(addr, at, n) == Burst(addr, at, 1) + Burst(addr, at, n - 1);
    RunConcat(l, Burst(addr, at, 1), Burst(addr, at, n - 1));
  }

  lemma {:induction false} MoreTaken(l: Limiter, addr: Address, at: real, n: nat, count: real, tokens: real)
    requires count == n as real && tokens <= l.singleCapacity && l.Entry(addr) == Some(TokenBucket(tokens, at))
    ensures RunFrom(l, Burst(addr, at, n)).Entry(addr) == Some(TokenBucket(tokens - count, at))
  {
    if n > 0 {
      MoreTaken(l, addr, at, n - 1, count - 1.0, tokens);
      OneMoreTaken(RunFrom(l, Burst(addr, at, n - 1)), addr, at, tokens - (count - 1.0));
    }
  }

  lemma FirstTaken(l: Limiter, addr: Address, at: real, refilled: real)
    requires refilled == Refill(l.singleCapacity, l.Bucket(addr), at)
    ensures refilled <= l.singleCapacity
    ensures RunFrom(l, Burst(addr, at, 1)).Entry(addr) == Some(TokenBucket(refilled - 1.0, at))
  {
    EntryAfter(l, Attempt(addr, at), addr);
    assert Burst(addr, at, 0) == [] && Burst(addr, at, 1) == [Attempt(addr, at)];
  }

  lemma OneMoreTaken(l: Limiter, addr: Address, at: real, tokens: real)
    requires l.Entry(addr) == Some(TokenBucket(tokens, at)) && tokens <= l.singleCapacity
    ensures After(l, Attempt(addr, at)).Entry(addr) == Some(TokenBucket(tokens - 1.0, at))
  {
    RefillAtOnce(l.singleCapacity, tokens, at);
    EntryAfter(l, Attempt(addr, at), addr);
  }

  /** Some later decision on some run is another one. */
  ghost predicate Seen(l: Limiter, addr: Address, at: real) {
    exists evs: seq<Event>, end: real :: SeenOn(l, addr, at, evs, end)
  }

  ghost predicate SeenOn(l: Limiter, addr: Address, at: real, evs: seq<Event>, end: real) {
    && Timed(evs, end) && From(at, evs)
    && ((exists x :: Decisions(AfterSweep(l, addr, at), evs, x) != Decisions(l, evs, x))
        || Admissions(AfterSweep(l, addr, at), evs) != Admissions(l, evs))
  }

  lemma SeenHere(l: Limiter, addr: Address, at: real, evs: seq<Event>, end: real, i: nat)
    requires Timed(evs, end) && From(at, evs) && i < |evs|
    requires Decisions(AfterSweep(l, addr, at), evs, addr)[i] != Decisions(l, evs, addr)[i]
    ensures Seen(l, addr, at)
  {
    assert SeenOn(l, addr, at, evs, end);
  }

  lemma LastDecision(l: Limiter, evs: seq<Event>, addr: Address, now: real)
    ensures Decisions(l, evs + [Attempt(addr, now)], addr)[|evs|] == Passes(RunFrom(l, evs), addr, now)
  {
    assert (evs + [Attempt(addr, now)])[..|evs|] == evs;
  }

  lemma BurstTimed(addr: Address, at: real, n: nat, now: real)
    requires 0.0 <= at <= now
    ensures var evs := Burst(addr, at, n) + [Attempt(addr, now)];
            Timed(evs, now) && From(at, evs)
  {
    BurstEvents(addr, at, n);
  }

  /** When a debt is paid. */
  lemma PaidAt(cap: real, debt: real, since: real) returns (now: real)
    requires cap > 0.0 && debt >= 0.0
    ensures now >= since && (now - since) * cap == debt
  {
    var wait := Quotient(debt, cap);
    now := since + wait;
  }

  lemma PassesWhenPaid(l: Limiter, addr: Address, tokens: real, since: real, now: real, debt: real)
    requires l.singleCapacity > 0.0 && l.Entry(addr) == Some(TokenBucket(tokens, since))
    requires (now - since) * l.singleCapacity == debt
    ensures Passes(l, addr, now) <==> tokens + debt > 0.0
  {
  }

  /** A burst that leaves both buckets in debt, the kept one in the greater. */
  lemma BothInDebt(l: Limiter, addr: Address, at: real) returns (n: nat, kept: real, renewed: real)
    requires l.singleCapacity > 0.0 && l.Entry(addr).Some? && l.Bucket(addr).lastUpdate >= 0.0
    requires at - l.Bucket(addr).lastUpdate >= IDLE_SECONDS && !FullBy(l.singleCapacity, l.Bucket(addr), at)
    ensures kept <= 0.0 && kept < renewed
    ensures RunFrom(l, Burst(addr, at, n)).Entry(addr) == Some(TokenBucket(kept, at))
    ensures RunFrom(AfterSweep(l, addr, at), Burst(addr, at, n)).Entry(addr) == Some(TokenBucket(renewed, at))
  {
    var cap, refilled := l.singleCapacity, Refill(l.singleCapacity, l.Bucket(addr), at);
    var count: real;
    n, count := AtLeast(refilled);
    kept, renewed := refilled - count, cap - count;
    AfterBurst(l, addr, at, n, count, refilled);
    EntryAfter(l, Sweep(addr, at), addr);
    NewBucketFull(cap, at);
    AfterBurst(AfterSweep(l, addr, at), addr, at, n, count, cap);
  }

  /** When the debt of the one bucket is just paid, but not yet over, the other is in credit. */
  lemma DebtsApart(l: Limiter, m: Limiter, addr: Address, at: real, kept: real, renewed: real) returns (now: real)
    requires l.singleCapacity == m.singleCapacity > 0.0 && kept <= 0.0 && kept < renewed
    requires l.Entry(addr) == Some(TokenBucket(kept, at)) && m.Entry(addr) == Some(TokenBucket(renewed, at))
    ensures now >= at && !Passes(l, addr, now) && Passes(m, addr, now)
  {
    now := PaidAt(l.singleCapacity, -kept, at);
    PassesWhenPaid(l, addr, kept, at, now, -kept);
    PassesWhenPaid(m, addr, renewed, at, now, -kept);
  }

  lemma DeletionSeen(l: Limiter, addr: Address, at: real)
    requires l.singleCapacity > 0.0 && l.Entry(addr).Some? && l.Bucket(addr).lastUpdate >= 0.0
    requires at - l.Bucket(addr).lastUpdate >= IDLE_SECONDS && !FullBy(l.singleCapacity, l.Bucket(addr), at)
    ensures Seen(l, addr, at)
  {
    var swept := AfterSweep(l, addr, at);
    var n, kept, renewed := BothInDebt(l, addr, at);
    var burst := Burst(addr, at, n);
    var now := DebtsApart(RunFrom(l, burst), RunFrom(swept, burst), addr, at, kept, renewed);
    LastDecision(l, burst, addr, now);
    LastDecision(swept, burst, addr, now);
    BurstTimed(addr, at, n, now);
    SeenHere(l, addr, at, burst + [Attempt(addr, now)], now, |burst|);
  }

  lemma AtLeast(r: real) returns (n: nat, count: real)
    ensures n > 0 && count == n as real && count >= r
  {
    n := if r < 1.0 then 1 else r.Floor + 1;
    count := n as real;
  }

  /**
   * Deleting an idle bucket can be told from keeping it by some later decision, about
   * any address, if and only if the bucket would not have been full again.
   */
  lemma DeletionInvisible(l: Limiter, addr: Address, at: real)
    requires l.singleCapacity > 0.0 && l.Entry(addr).Some? && l.Bucket(addr).lastUpdate >= 0.0
    requires at - l.Bucket(addr).lastUpdate >= IDLE_SECONDS
    ensures Seen(l, addr, at) <==> !FullBy(l.singleCapacity, l.Bucket(addr), at)
    ensures l.Bucket(addr).tokens >= -59.0 * l.singleCapacity ==> !Seen(l, addr, at)
  {
    if l.Bucket(addr).tokens >= -59.0 * l.singleCapacity {
      FullLater(l.singleCapacity, l.Bucket(addr), at);
    }
    if !FullBy(l.singleCapacity, l.Bucket(addr), at) {
      DeletionSeen(l, addr, at);
    } else {
      forall evs: seq<Event>, end: real | Timed(evs, end) && From(at, evs)
        ensures !SeenOn(l, addr, at, evs, end)
      {
        DeletionUnseen(l, addr, at, evs);
      }
    }
  }

  /** One limiter's buckets are at least as full as the other's, with the same times. */
  ghost predicate Fuller(l: Limiter, m: Limiter, addr: Address) {
    && l.singleCapacity == m.singleCapacity
    && match (l.Entry(addr), m.Entry(addr))
       case (Some(b), Some(c)) => b.lastUpdate == c.lastUpdate && b.tokens >= c.tokens
       case (None, None) => true
       case (None, Some(_)) => true
       case (Some(_), None) => false
  }

  lemma RefillMonotone(cap: real, b: TokenBucket, c: TokenBucket, now: real)
    requires b.lastUpdate == c.lastUpdate && b.tokens >= c.tokens
    ensures Refill(cap, b, now) >= Refill(cap, c, now)
  {
  }

  lemma FullerStep(l: Limiter, m: Limiter, e: Event, addr: Address)
    requires l.singleCapacity > 0.0 && Fuller(l, m, addr)
    requires l.Entry(addr).None? && m.Entry(addr).Some? ==>
               m.Bucket(addr).lastUpdate >= 0.0 && e.now - m.Bucket(addr).lastUpdate >= IDLE_SECONDS
    ensures Fuller(After(l, e), After(m, e), addr)
    ensures e.addr == addr ==> Passes(m, addr, e.now) ==> Passes(l, addr, e.now)
    ensures After(l, e).Entry(addr).None? && After(m, e).Entry(addr).Some? ==> After(m, e).Entry(addr) == m.Entry(addr)
  {
    EntryAfter(l, e, addr);
    EntryAfter(m, e, addr);
    if e.addr == addr {
      if l.Entry(addr).None? && m.Entry(addr).Some? {
        NewBucketFull(l.singleCapacity, e.now);
      } else {
        RefillMonotone(l.singleCapacity, l.Bucket(addr), m.Bucket(addr), e.now);
      }
    }
  }

  /**
   * Of passes of its own bucket a deletion costs the address nothing: if one limiter has
   * just deleted the idle bucket that the other one keeps, then on the same events from
   * there on it passes every attempt the other passes. The global bucket pays for it.
   */
  lemma {:induction false} DeletionOnlyAdmits(l: Limiter, addr: Address, at: real, evs: seq<Event>)
    requires l.singleCapacity > 0.0
    requires l.Entry(addr).Some? && l.Bucket(addr).lastUpdate >= 0.0 && at - l.Bucket(addr).lastUpdate >= IDLE_SECONDS
    requires From(at, evs)
    ensures forall i ::
              0 <= i < |evs| && Decisions(l, evs, addr)[i] ==> Decisions(AfterSweep(l, addr, at), evs, addr)[i]
    ensures Fuller(RunFrom(AfterSweep(l, addr, at), evs), RunFrom(l, evs), addr)
    ensures RunFrom(AfterSweep(l, addr, at), evs).Entry(addr).None? ==>
              RunFrom(l, evs).Entry(addr) in {None, l.Entry(addr)}
  {
    if evs != [] {
      var before, e := evs[..|evs| - 1], evs[|evs| - 1];
      DeletionOnlyAdmits(l, addr, at, before);
      FullerStep(RunFrom(AfterSweep(l, addr, at), before), RunFrom(l, before), e, addr);
    }
  }

  // ------------------------------------------------------------------------
  // What a deletion costs
  // ------------------------------------------------------------------------

  /** A connection that would have been let in is turned away because of the deletion. */
  ghost predicate LostOn(l: Limiter, addr: Address, at: real, evs: seq<Event>, end: real, i: nat) {
    Timed(evs, end) && From(at, evs) && i < |evs|
    && Admissions(l, evs)[i] && !Admissions(AfterSweep(l, addr, at), evs)[i]
  }

  ghost predicate CostsAdmission(l: Limiter, addr: Address, at: real) {
    exists evs: seq<Event>, end: real, i: nat :: LostOn(l, addr, at, evs, end, i)
  }

  lemma LastAdmission(l: Limiter, evs: seq<Event>, x: Address, now: real)
    ensures Admissions(l, evs + [Attempt(x, now)])[|evs|] == Allows(RunFrom(l, evs), x, now)
    ensures RunFrom(l, evs + [Attempt(x, now)]) == AfterAttempt(RunFrom(l, evs), x, now)
  {
    assert (evs + [Attempt(x, now)])[..|evs|] == evs;
  }

  lemma {:induction false} RunConcat(l: Limiter, evs: seq<Event>, later: seq<Event>)
    ensures RunFrom(l, evs + later) == RunFrom(RunFrom(l, evs), later)
  {
    if later == [] {
      assert evs + later == evs;
    } else {
      var all := evs + later;
      assert all[..|all| - 1] == evs + later[..|later| - 1];
      RunConcat(l, evs, later[..|later| - 1]);
    }
  }

  lemma TimedConcat(evs: seq<Event>, later: seq<Event>, at: real, now: real, end: real)
    requires at <= now <= end
    requires Timed(evs, now) && From(at, evs) && Timed(later, end) && From(now, later)
    ensures Timed(evs + later, end) && From(at, evs + later)
  {
  }

  // ---- a moment at which the two limiters differ in this one bucket only

  lemma CeilingOf(r: real) returns (n: nat, count: real)
    requires r > 0.0
    ensures n > 0 && count == n as real && count - 1.0 < r <= count
  {
    n := if r == r.Floor as real then r.Floor else r.Floor + 1;
    count := n as real;
  }

  /** The first `n` attempts of a burst pass. */
  ghost predicate AllPass(l: Limiter, addr: Address, at: real, n: nat) {
    forall k :: 0 <= k < n ==> Passes(RunFrom(l, Burst(addr, at, k)), addr, at)
  }

  lemma {:induction false} BurstPasses(l: Limiter, addr: Address, at: real, n: nat, count: real, refilled: real)
    requires count == n as real && count - 1.0 < refilled && refilled == Refill(l.singleCapacity, l.Bucket(addr), at)
    ensures AllPass(l, addr, at, n)
  {
    if n > 0 {
      BurstPasses(l, addr, at, n - 1, count - 1.0, refilled);
      if n > 1 {
        AfterBurst(l, addr, at, n - 1, count - 1.0, refilled);
        PassesWith(RunFrom(l, Burst(addr, at, n - 1)), addr, at, refilled - (count - 1.0));
      }
    }
  }

  lemma PassesWith(l: Limiter, addr: Address, at: real, tokens: real)
    requires l.Entry(addr) == Some(TokenBucket(tokens, at)) && 0.0 < tokens <= l.singleCapacity
    ensures Passes(l, addr, at)
  {
    RefillAtOnce(l.singleCapacity, tokens, at);
  }

  /** As long as every attempt of a burst passes, the global bucket does not depend on the other one. */
  lemma {:induction false} BurstGlobal(l: Limiter, m: Limiter, addr: Address, at: real, n: nat)
    requires l.global == m.global && l.globalCapacity == m.globalCapacity
    requires AllPass(l, addr, at, n) && AllPass(m, addr, at, n)
    ensures RunFrom(l, Burst(addr, at, n)).global == RunFrom(m, Burst(addr, at, n)).global
  {
    if n > 0 {
      var before := Burst(addr, at, n - 1);
      BurstGlobal(l, m, addr, at, n - 1);
      LastAdmission(l, before, addr, at);
      LastAdmission(m, before, addr, at);
      SameGlobal(RunFrom(l, before), RunFrom(m, before), addr, at);
    }
  }

  lemma SameGlobal(l: Limiter, m: Limiter, addr: Address, now: real)
    requires l.global == m.global && l.globalCapacity == m.globalCapacity
    requires Passes(l, addr, now) && Passes(m, addr, now)
    ensures AfterAttempt(l, addr, now).global == AfterAttempt(m, addr, now).global
  {
  }

  ghost predicate ApartAt(l: Limiter, m: Limiter, addr: Address, now: real) {
    l.global == m.global && !Passes(l, addr, now) && Passes(m, addr, now)
  }

  lemma ApartByBurst(l: Limiter, addr: Address, at: real, refilled: real) returns (n: nat, now: real)
    requires l.singleCapacity > 0.0 && at >= 1.0 && AfterSweep(l, addr, at).Entry(addr) == None
    requires refilled == Refill(l.singleCapacity, l.Bucket(addr), at) && 0.0 < refilled < l.singleCapacity
    ensures now >= at
    ensures ApartAt(RunFrom(l, Burst(addr, at, n)), RunFrom(AfterSweep(l, addr, at), Burst(addr, at, n)), addr, now)
  {
    var cap, swept := l.singleCapacity, AfterSweep(l, addr, at);
    var count: real;
    n, count := CeilingOf(refilled);
    NewBucketFull(cap, at);
    AfterBurst(l, addr, at, n, count, refilled);
    AfterBurst(swept, addr, at, n, count, cap);
    BurstPasses(l, addr, at, n, count, refilled);
    BurstPasses(swept, addr, at, n, count, cap);
    BurstGlobal(l, swept, addr, at, n);
    now := DebtsApart(RunFrom(l, Burst(addr, at, n)), RunFrom(swept, Burst(addr, at, n)), addr, at,
                      refilled - count, cap - count);
  }

  lemma Apart(l: Limiter, addr: Address, at: real) returns (n: nat, now: real)
    requires l.singleCapacity > 0.0 && l.Entry(addr).Some? && l.Bucket(addr).lastUpdate >= 0.0
    requires at - l.Bucket(addr).lastUpdate >= IDLE_SECONDS && !FullBy(l.singleCapacity, l.Bucket(addr), at)
    ensures now >= at
    ensures ApartAt(RunFrom(l, Burst(addr, at, n)), RunFrom(AfterSweep(l, addr, at), Burst(addr, at, n)), addr, now)
  {
    var refilled := Refill(l.singleCapacity, l.Bucket(addr), at);
    EntryAfter(l, Sweep(addr, at), addr);
    if refilled > 0.0 {
      n, now := ApartByBurst(l, addr, at, refilled);
    } else {
      n, now := 0, at;
      NewBucketFull(l.singleCapacity, at);
    }
  }

  // ---- from there on: strangers empty the global bucket, and the last of them is turned away

  /** No address from `base` on has a bucket. */
  ghost predicate Unknown(l: Limiter, base: Address) {
    forall x <- l.buckets :: x < base
  }

  lemma SomeAddress(xs: set<Address>)
    ensures xs == {} || exists x :: x in xs
  {
    if forall x :: x !in xs {
      assert xs == {};
    }
  }

  lemma {:induction false} AboveAll(xs: set<Address>) returns (base: Address)
    ensures forall x <- xs :: x < base
    decreases |xs|
  {
    if xs == {} {
      base := 0;
    } else {
      SomeAddress(xs);
      var x :| x in xs;
      var b := AboveAll(xs - {x});
      base := if x < b then b else x + 1;
      forall y | y in xs
        ensures y < base
      {
        assert y == x || y in xs - {x};
      }
    }
  }

  lemma {:induction false} BurstUnknown(l: Limiter, addr: Address, at: real, n: nat, base: Address)
    requires Unknown(l, base) && addr < base
    ensures Unknown(RunFrom(l, Burst(addr, at, n)), base)
  {
    if n > 0 {
      BurstUnknown(l, addr, at, n - 1, base);
      LastAdmission(l, Burst(addr, at, n - 1), addr, at);
      StillUnknown(RunFrom(l, Burst(addr, at, n - 1)), addr, at, base);
    }
  }

  lemma StillUnknown(l: Limiter, x: Address, now: real, base: Address)
    requires Unknown(l, base) && x < base
    ensures Unknown(AfterAttempt(l, x, now), base)
  {
  }

  /** One attempt each from `n` addresses, all at the same moment. */
  function Strangers(base: Address, now: real, n: nat): (evs: seq<Event>)
    ensures |evs| == n && forall i :: 0 <= i < n ==> evs[i] == Attempt(base + i, now)
  {
    if n == 0 then [] else Strangers(base, now, n - 1) + [Attempt(base + (n - 1), now)]
  }

  lemma StrangerPasses(l: Limiter, x: Address, now: real)
    requires l.singleCapacity > 0.0 && Unknown(l, x) && now >= 1.0
    ensures Passes(l, x, now)
    ensures AfterAttempt(l, x, now).global == Take(l.globalCapacity, l.global, now)
    ensures Unknown(AfterAttempt(l, x, now), x + 1)
  {
    NewBucketFull(l.singleCapacity, now);
  }

  lemma {:induction false} AfterStrangers(l: Limiter, base: Address, now: real, n: nat, count: real, refilled: real)
    requires l.singleCapacity > 0.0 && Unknown(l, base) && now >= 1.0
    requires n > 0 && count == n as real && refilled == Refill(l.globalCapacity, l.global, now)
    ensures RunFrom(l, Strangers(base, now, n)).global == TokenBucket(refilled - count, now)
    ensures Unknown(RunFrom(l, Strangers(base, now, n)), base + n)
  {
    var before := Strangers(base, now, n - 1);
    LastAdmission(l, before, base + (n - 1), now);
    if n > 1 {
      AfterStrangers(l, base, now, n - 1, count - 1.0, refilled);
      RefillAtOnce(l.globalCapacity, refilled - (count - 1.0), now);
    }
    StrangerPasses(RunFrom(l, before), base + (n - 1), now);
  }

  /** The global buckets are one token apart: at some moment that is the last one. */
  lemma LastToken(l: Limiter, m: Limiter, x: Address, tokens: real, since: real) returns (now: real)
    requires l.singleCapacity > 0.0 && m.singleCapacity > 0.0 && l.globalCapacity == m.globalCapacity > 0.0
    requires Unknown(l, x) && Unknown(m, x) && since >= 1.0 && tokens <= 0.0
    requires l.global == TokenBucket(tokens, since) && m.global == TokenBucket(tokens - 1.0, since)
    ensures now >= since && Allows(l, x, now) && !Allows(m, x, now)
  {
    var last := Min(l.globalCapacity, 1.0);
    now := PaidAt(l.globalCapacity, last - tokens, since);
    StrangerPasses(l, x, now);
    StrangerPasses(m, x, now);
  }

  lemma OneTokenApart(l: Limiter, m: Limiter, addr: Address, base: Address, now: real) returns (n: nat, tokens: real)
    requires ApartAt(l, m, addr, now) && now >= 1.0 && addr < base && Unknown(l, base) && Unknown(m, base)
    requires l.singleCapacity > 0.0 && m.singleCapacity > 0.0 && l.globalCapacity == m.globalCapacity
    ensures tokens <= 0.0
    ensures var l' := RunFrom(AfterAttempt(l, addr, now), Strangers(base, now, n));
            l'.global == TokenBucket(tokens, now) && Unknown(l', base + n)
    ensures var m' := RunFrom(AfterAttempt(m, addr, now), Strangers(base, now, n));
            m'.global == TokenBucket(tokens - 1.0, now) && Unknown(m', base + n)
  {
    var refilled := Refill(l.globalCapacity, l.global, now);
    var count: real;
    n, count := AtLeast(refilled);
    tokens := refilled - count;
    RefillAtOnce(l.globalCapacity, refilled - 1.0, now);
    AfterStrangers(AfterAttempt(l, addr, now), base, now, n, count, refilled);
    AfterStrangers(AfterAttempt(m, addr, now), base, now, n, count, refilled - 1.0);
  }

  /** One attempt at the right moment, and then the strangers. */
  function Tail(addr: Address, now: real, base: Address, n: nat): seq<Event> {
    [Attempt(addr, now)] + Strangers(base, now, n)
  }

  lemma AfterTail(l: Limiter, addr: Address, now: real, base: Address, n: nat)
    ensures RunFrom(l, Tail(addr, now, base, n)) == RunFrom(AfterAttempt(l, addr, now), Strangers(base, now, n))
  {
    LastAdmission(l, [], addr, now);
    assert [] + [Attempt(addr, now)] == [Attempt(addr, now)];
    RunConcat(l, [Attempt(addr, now)], Strangers(base, now, n));
  }

  /** A connection that the first limiter lets in, at `now` or later, and the second does not. */
  ghost predicate LostLater(l: Limiter, m: Limiter, now: real) {
    exists later: seq<Event>, x: Address, end: real :: LostBy(l, m, now, later, x, end)
  }

  ghost predicate LostBy(l: Limiter, m: Limiter, now: real, later: seq<Event>, x: Address, end: real) {
    && Timed(later, end) && From(now, later) && now <= end
    && Allows(RunFrom(l, later), x, end) && !Allows(RunFrom(m, later), x, end)
  }

  lemma LostAfterTail(l: Limiter, m: Limiter, addr: Address, base: Address, now: real)
    requires ApartAt(l, m, addr, now) && now >= 1.0 && addr < base && Unknown(l, base) && Unknown(m, base)
    requires l.singleCapacity > 0.0 && m.singleCapacity > 0.0 && l.globalCapacity == m.globalCapacity > 0.0
    ensures LostLater(l, m, now)
  {
    var n, tokens := OneTokenApart(l, m, addr, base, now);
    AfterTail(l, addr, now, base, n);
    AfterTail(m, addr, now, base, n);
    var tail := Tail(addr, now, base, n);
    var end := LastToken(RunFrom(l, tail), RunFrom(m, tail), base + n, tokens, now);
    TailTimed(addr, now, base, n, end);
    LostHere(l, m, now, tail, base + n, end);
  }

  lemma TailTimed(addr: Address, now: real, base: Address, n: nat, end: real)
    requires 0.0 <= now <= end
    ensures Timed(Tail(addr, now, base, n), end) && From(now, Tail(addr, now, base, n))
  {
  }

  lemma LostHere(l: Limiter, m: Limiter, now: real, later: seq<Event>, x: Address, end: real)
    requires Timed(later, end) && From(now, later) && now <= end
    requires Allows(RunFrom(l, later), x, end) && !Allows(RunFrom(m, later), x, end)
    ensures LostLater(l, m, now)
  {
    assert LostBy(l, m, now, later, x, end);
  }

  lemma DeletionLoses(l: Limiter, addr: Address, at: real)
    requires l.singleCapacity > 0.0 && l.globalCapacity > 0.0
    requires l.Entry(addr).Some? && l.Bucket(addr).lastUpdate >= 0.0
    requires at - l.Bucket(addr).lastUpdate >= IDLE_SECONDS && !FullBy(l.singleCapacity, l.Bucket(addr), at)
    ensures CostsAdmission(l, addr, at)
  {
    var n, now := Apart(l, addr, at);
    var base := UnknownBase(l, addr, at, n);
    var swept := AfterSweep(l, addr, at);
    LostAfterTail(RunFrom(l, Burst(addr, at, n)), RunFrom(swept, Burst(addr, at, n)), addr, base, now);
    BurstEvents(addr, at, n);
    LosesAfter(l, addr, at, Burst(addr, at, n), now);
  }

  lemma UnknownBase(l: Limiter, addr: Address, at: real, n: nat) returns (base: Address)
    ensures addr < base && Unknown(RunFrom(l, Burst(addr, at, n)), base)
    ensures Unknown(RunFrom(AfterSweep(l, addr, at), Burst(addr, at, n)), base)
  {
    base := AboveAll(l.buckets.Keys + {addr});
    BurstUnknown(l, addr, at, n, base);
    BurstUnknown(AfterSweep(l, addr, at), addr, at, n, base);
  }

  lemma LosesAfter(l: Limiter, addr: Address, at: real, evs: seq<Event>, now: real)
    requires 0.0 <= at <= now && Timed(evs, now) && From(at, evs)
    requires LostLater(RunFrom(l, evs), RunFrom(AfterSweep(l, addr, at), evs), now)
    ensures CostsAdmission(l, addr, at)
  {
    var swept := AfterSweep(l, addr, at);
    var later: seq<Event>, x: Address, end: real :| LostBy(RunFrom(l, evs), RunFrom(swept, evs), now, later, x, end);
    RunConcat(l, evs, later);
    RunConcat(swept, evs, later);
    TimedConcat(evs, later, at, now, end);
    LosesHere(l, addr, at, evs + later, x, end);
  }

  lemma LosesHere(l: Limiter, addr: Address, at: real, evs: seq<Event>, x: Address, end: real)
    requires 0.0 <= at <= end && Timed(evs, end) && From(at, evs)
    requires Allows(RunFrom(l, evs), x, end) && !Allows(RunFrom(AfterSweep(l, addr, at), evs), x, end)
    ensures CostsAdmission(l, addr, at)
  {
    LastLetIn(l, evs, x, end);
    LastLetIn(AfterSweep(l, addr, at), evs, x, end);
    TimedConcat(evs, [Attempt(x, end)], at, end, end);
    assert LostOn(l, addr, at, evs + [Attempt(x, end)], end, |evs|);
  }

  lemma LastLetIn(l: Limiter, evs: seq<Event>, x: Address, now: real)
    ensures Admissions(l, evs + [Attempt(x, now)])[|evs|] == Allows(RunFrom(l, evs), x, now)
  {
    LastAdmission(l, evs, x, now);
  }

  lemma {:induction false} NoneAdmitted(l: Limiter, evs: seq<Event>)
    requires l.globalCapacity <= 0.0
    ensures forall i :: 0 <= i < |evs| ==> !Admissions(l, evs)[i]
  {
    if evs != [] {
      NoneAdmitted(l, evs[..|evs| - 1]);
    }
  }

  /**
   * Some later connection, of whatever address, is lost to the deletion of an idle
   * bucket if and only if the bucket would not have been full again, unless the global
   * capacity lets nobody in at all.
   */
  lemma DeletionCosts(l: Limiter, addr: Address, at: real)
    requires l.singleCapacity > 0.0 && l.Entry(addr).Some? && l.Bucket(addr).lastUpdate >= 0.0
    requires at - l.Bucket(addr).lastUpdate >= IDLE_SECONDS
    ensures CostsAdmission(l, addr, at) <==> l.globalCapacity > 0.0 && !FullBy(l.singleCapacity, l.Bucket(addr), at)
  {
    if l.globalCapacity > 0.0 && !FullBy(l.singleCapacity, l.Bucket(addr), at) {
      DeletionLoses(l, addr, at);
    } else {
      forall evs: seq<Event>, end: real, i: nat | Timed(evs, end) && From(at, evs)
        ensures !LostOn(l, addr, at, evs, end, i)
      {
        if l.globalCapacity <= 0.0 {
          NoneAdmitted(l, evs);
        } else {
          DeletionUnseen(l, addr, at, evs);
        }
      }
    }
  }

  /** Keeps the debt, is denied at 61 and let in a second and a half later. */
  lemma KeptRun(l: Limiter)
    requires l.singleCapacity == 1.0 && l.globalCapacity == 0.1
    requires l.Entry(0) == Some(TokenBucket(-60.0, 1.0)) && l.global == TokenBucket(-0.9, 1.0)
    ensures Allows(AfterAttempt(l, 0, 61.0), 0, 62.5)
  {
    assert AfterAttempt(l, 0, 61.0).Entry(0) == Some(TokenBucket(-1.0, 61.0));
  }

  /** Loses the debt, is let in at 61 and then finds the global bucket empty. */
  lemma SweptRun(l: Limiter)
    requires l.singleCapacity == 1.0 && l.globalCapacity == 0.1
    requires l.Entry(0) == None && l.global == TokenBucket(-0.9, 1.0)
    ensures !Allows(AfterAttempt(l, 0, 61.0), 0, 62.5)
  {
    assert AfterAttempt(l, 0, 61.0).Entry(0) == Some(TokenBucket(0.0, 61.0));
  }

  lemma SecondAdmission(l: Limiter, x: Address, now: real, y: Address, later: real)
    ensures Admissions(l, [Attempt(x, now), Attempt(y, later)])[1] == Allows(AfterAttempt(l, x, now), y, later)
  {
    assert [] + [Attempt(x, now)] == [Attempt(x, now)];
    LastAdmission(l, [], x, now);
    assert [Attempt(x, now)] + [Attempt(y, later)] == [Attempt(x, now), Attempt(y, later)];
    LastAdmission(l, [Attempt(x, now)], y, later);
  }

  /** It may be a connection of the very address whose debt was forgotten. */
  lemma DeletionCostsItsAddress()
    ensures var l := RunFrom(Fresh(1.0, 0.1), Burst(0, 1.0, 61));
            var evs := [Attempt(0, 61.0), Attempt(0, 62.5)];
            Admissions(l, evs)[1] && !Admissions(AfterSweep(l, 0, 61.0), evs)[1]
  {
    InDebt(61, 61.0);
    CostsOwn(RunFrom(Fresh(1.0, 0.1), Burst(0, 1.0, 61)));
  }

  lemma CostsOwn(l: Limiter)
    requires l.singleCapacity == 1.0 && l.globalCapacity == 0.1
    requires l.Entry(0) == Some(TokenBucket(-60.0, 1.0)) && l.global == TokenBucket(-0.9, 1.0)
    ensures var evs := [Attempt(0, 61.0), Attempt(0, 62.5)];
            Admissions(l, evs)[1] && !Admissions(AfterSweep(l, 0, 61.0), evs)[1]
  {
    var swept := AfterSweep(l, 0, 61.0);
    EntryAfter(l, Sweep(0, 61.0), 0);
    KeptRun(l);
    SweptRun(swept);
    SecondAdmission(l, 0, 61.0, 0, 62.5);
    SecondAdmission(swept, 0, 61.0, 0, 62.5);
  }

  /** One passes, the others do not. */
  lemma {:induction false} InDebt(n: nat, count: real)
    requires n > 0 && count == n as real
    ensures var l := RunFrom(Fresh(1.0, 0.1), Burst(0, 1.0, n));
            l.singleCapacity == 1.0 && l.globalCapacity == 0.1
            && l.Entry(0) == Some(TokenBucket(1.0 - count, 1.0)) && l.global == TokenBucket(-0.9, 1.0)
  {
    var before := Burst(0, 1.0, n - 1);
    LastAdmission(Fresh(1.0, 0.1), before, 0, 1.0);
    EntryAfter(RunFrom(Fresh(1.0, 0.1), before), Attempt(0, 1.0), 0);
    if n > 1 {
      InDebt(n - 1, count - 1.0);
      RefillAtOnce(1.0, 1.0 - (count - 1.0), 1.0);
    }
  }

  // ------------------------------------------------------------------------
  // A crowd
  // ------------------------------------------------------------------------

  /** The `i`-th of the strangers finds the tokens that the others have left. */
  lemma StrangerLetIn(l: Limiter, base: Address, now: real, i: nat, count: real, refilled: real)
    requires l.singleCapacity > 0.0 && Unknown(l, base) && now >= 1.0
    requires count == i as real && refilled == Refill(l.globalCapacity, l.global, now)
    ensures Allows(RunFrom(l, Strangers(base, now, i)), base + i, now) <==> count < refilled
  {
    if i > 0 {
      AfterStrangers(l, base, now, i, count, refilled);
      RefillAtOnce(l.globalCapacity, refilled - count, now);
    }
    StrangerPasses(RunFrom(l, Strangers(base, now, i)), base + i, now);
  }

  /**
   * Of `n` addresses that all try for the first time at one moment, from one second of
   * the clock on, exactly the first ones are let in, as many as the global capacity
   * rounded up.
   */
  lemma CrowdLetIn(sc: real, gc: real, base: Address, now: real, n: nat, seats: nat)
    requires sc > 0.0 && gc > 0.0 && now >= 1.0 && seats as real - 1.0 < gc <= seats as real
    ensures Seated(Fresh(sc, gc), Strangers(base, now, n), now, seats)
  {
    CrowdSeated(Fresh(sc, gc), base, now, n, seats);
  }

  /** The first `seats` of these attempts are let in, and no others. */
  ghost predicate Seated(l: Limiter, evs: seq<Event>, now: real, seats: nat) {
    && (forall i :: 0 <= i < |evs| ==> Admissions(l, evs)[i] == (i < seats))
    && AllowCount(l, evs, now, now) == if |evs| < seats then |evs| else seats
  }

  lemma {:induction false} CrowdSeated(l: Limiter, base: Address, now: real, n: nat, seats: nat)
    requires l.singleCapacity > 0.0 && l.globalCapacity > 0.0 && Unknown(l, base) && now >= 1.0
    requires l.global == NEW_BUCKET && seats as real - 1.0 < l.globalCapacity <= seats as real
    ensures Seated(l, Strangers(base, now, n), now, seats)
  {
    if n > 0 {
      CrowdSeated(l, base, now, n - 1, seats);
      NextSeated(l, base, now, n - 1, seats);
    }
  }

  lemma NextSeated(l: Limiter, base: Address, now: real, i: nat, seats: nat)
    requires l.singleCapacity > 0.0 && l.globalCapacity > 0.0 && Unknown(l, base) && now >= 1.0
    requires l.global == NEW_BUCKET && seats as real - 1.0 < l.globalCapacity <= seats as real
    requires Seated(l, Strangers(base, now, i), now, seats)
    ensures Seated(l, Strangers(base, now, i + 1), now, seats)
  {
    var before := Strangers(base, now, i);
    OneMoreOfCrowd(l, base, now, i, seats);
    OneMoreSeated(l, before, base + i, now, seats);
    assert Strangers(base, now, i + 1) == before + [Attempt(base + i, now)];
  }

  lemma OneMoreSeated(l: Limiter, evs: seq<Event>, x: Address, now: real, seats: nat)
    requires Seated(l, evs, now, seats) && (Allows(RunFrom(l, evs), x, now) <==> |evs| < seats)
    ensures Seated(l, evs + [Attempt(x, now)], now, seats)
  {
    NextAdmission(l, evs, x, now);
  }

  lemma NextAdmission(l: Limiter, evs: seq<Event>, x: Address, now: real)
    ensures Admissions(l, evs + [Attempt(x, now)]) == Admissions(l, evs) + [Allows(RunFrom(l, evs), x, now)]
    ensures AllowCount(l, evs + [Attempt(x, now)], now, now)
            == AllowCount(l, evs, now, now) + if Allows(RunFrom(l, evs), x, now) then 1 else 0
  {
    assert (evs + [Attempt(x, now)])[..|evs|] == evs;
  }

  lemma OneMoreOfCrowd(l: Limiter, base: Address, now: real, i: nat, seats: nat)
    requires l.singleCapacity > 0.0 && l.globalCapacity > 0.0 && Unknown(l, base) && now >= 1.0
    requires l.global == NEW_BUCKET && seats as real - 1.0 < l.globalCapacity <= seats as real
    ensures Allows(RunFrom(l, Strangers(base, now, i)), base + i, now) <==> i < seats
  {
    NewBucketFull(l.globalCapacity, now);
    StrangerLetIn(l, base, now, i, i as real, l.globalCapacity);
  }

  // ------------------------------------------------------------------------
  // What a denial means
  // ------------------------------------------------------------------------

  /** When `addr` last tried; `t0` if it has not since. */
  function LastTry(evs: seq<Event>, addr: Address, t0: real): real {
    if evs == [] then t0
    else
      var e := evs[|evs| - 1];
      if e.Attempt? && e.addr == addr then e.now else LastTry(evs[..|evs| - 1], addr, t0)
  }

  predicate Soon(cap: real, last: real, now: real) {
    (now - last) * cap <= 1.0
  }

  /** Every attempt of `addr` comes within 1/cap seconds of the one before. */
  predicate Insistent(cap: real, evs: seq<Event>, addr: Address, t0: real) {
    evs != [] ==>
      var before, e := evs[..|evs| - 1], evs[|evs| - 1];
      Insistent(cap, before, addr, t0)
      && (e.Attempt? && e.addr == addr ==> Soon(cap, LastTry(before, addr, t0), e.now))
  }

  /** In debt since the last attempt; or forgotten, but too late for the next attempt to be soon. */
  ghost predicate Denied(l: Limiter, addr: Address, last: real, clock: real) {
    match l.Entry(addr)
    case Some(b) => b.tokens <= -1.0 && b.lastUpdate == last
    case None => clock - last >= IDLE_SECONDS
  }

  lemma SoonIsEarly(cap: real, last: real, now: real)
    requires cap > 1.0 / 60.0 && Soon(cap, last, now)
    ensures now - last < IDLE_SECONDS
  {
    if now - last >= IDLE_SECONDS {
      var idle, gain := Amounts(cap, IDLE_SECONDS, now - last);
    }
  }

  lemma DeniedAgain(l: Limiter, e: Event, addr: Address, last: real, clock: real)
    requires l.singleCapacity > 1.0 / 60.0 && clock <= e.now && Denied(l, addr, last, clock)
    requires e.Attempt? && e.addr == addr ==> Soon(l.singleCapacity, last, e.now)
    ensures Denied(After(l, e), addr, if e.Attempt? && e.addr == addr then e.now else last, e.now)
    ensures e.Attempt? && e.addr == addr ==> !Passes(l, addr, e.now)
  {
    EntryAfter(l, e, addr);
    if e.Attempt? && e.addr == addr {
      SoonIsEarly(l.singleCapacity, last, e.now);
    }
  }

  lemma {:induction false} DeniedForever(l: Limiter, evs: seq<Event>, addr: Address, t0: real, end: real)
    requires l.singleCapacity > 1.0 / 60.0 && Denied(l, addr, t0, t0)
    requires Timed(evs, end) && From(t0, evs) && Insistent(l.singleCapacity, evs, addr, t0)
    ensures Denied(RunFrom(l, evs), addr, LastTry(evs, addr, t0), if evs == [] then t0 else evs[|evs| - 1].now)
    ensures NeverPasses(l, evs, addr)
  {
    if evs != [] {
      var before, e := evs[..|evs| - 1], evs[|evs| - 1];
      DeniedForever(l, before, addr, t0, end);
      var clock := if before == [] then t0 else before[|before| - 1].now;
      DeniedAgain(RunFrom(l, before), e, addr, LastTry(before, addr, t0), clock);
    }
  }

  ghost predicate NeverPasses(l: Limiter, evs: seq<Event>, addr: Address) {
    forall i :: 0 <= i < |evs| ==> !Decisions(l, evs, addr)[i]
  }

  /** On every run, an address that is denied and then insists is denied every time. */
  ghost predicate InsistingIsFutile(sc: real, gc: real) {
    forall before: seq<Event>, addr: Address, t0: real, evs: seq<Event>, end: real ::
      DeniedThenInsists(sc, gc, before, addr, t0, evs, end)
      ==> NeverPasses(AfterAttempt(RunFrom(Fresh(sc, gc), before), addr, t0), evs, addr)
  }

  ghost predicate DeniedThenInsists(sc: real, gc: real, before: seq<Event>, addr: Address, t0: real,
                                    evs: seq<Event>, end: real) {
    && Timed(before, t0) && !Passes(RunFrom(Fresh(sc, gc), before), addr, t0)
    && Timed(evs, end) && From(t0, evs) && Insistent(sc, evs, addr, t0)
  }

  /** A denial leaves a debt of at least one. */
  lemma DenialLeavesDebt(l: Limiter, addr: Address, now: real)
    requires !Passes(l, addr, now)
    ensures AfterAttempt(l, addr, now).Bucket(addr).tokens <= -1.0
    ensures Denied(AfterAttempt(l, addr, now), addr, now, now)
  {
    EntryAfter(l, Attempt(addr, now), addr);
  }

  /** Up to a capacity of 1/60 the cleaner comes in time to let the address back in. */
  lemma Forgotten(sc: real, gc: real)
    requires 0.0 < sc <= 1.0 / 60.0
    ensures !InsistingIsFutile(sc, gc)
  {
    var pass, sweep, again := Attempt(0, 1.0), Sweep(0, 61.0), Attempt(0, 61.0);
    var l1 := RunFrom(Fresh(sc, gc), [pass]);
    var l := AfterAttempt(l1, 0, 1.0);
    PassThenDenied(sc, gc);
    EntryAfter(l, sweep, 0);
    NewBucketFull(sc, 61.0);
    assert [sweep, again][..1] == [sweep] && [sweep][..0] == [];
    assert RunFrom(l, [sweep]) == After(l, sweep);
    assert (61.0 - 1.0) * sc == 60.0 * sc;
    assert LastTry([sweep], 0, 1.0) == 1.0 && Insistent(sc, [sweep], 0, 1.0);
    assert Decisions(l, [sweep, again], 0)[1];
    assert DeniedThenInsists(sc, gc, [pass], 0, 1.0, [sweep, again], 61.0);
  }

  lemma PassThenDenied(sc: real, gc: real)
    requires 0.0 < sc <= 1.0 / 60.0
    ensures var l1 := RunFrom(Fresh(sc, gc), [Attempt(0, 1.0)]);
            !Passes(l1, 0, 1.0) && AfterAttempt(l1, 0, 1.0).Entry(0) == Some(TokenBucket(sc - 2.0, 1.0))
  {
    var l0 := Fresh(sc, gc);
    assert [Attempt(0, 1.0)][..0] == [];
    var l1 := RunFrom(l0, [Attempt(0, 1.0)]);
    NewBucketFull(sc, 1.0);
    EntryAfter(l0, Attempt(0, 1.0), 0);
    RefillAtOnce(sc, sc - 1.0, 1.0);
    EntryAfter(l1, Attempt(0, 1.0), 0);
  }

  /** A denied address that insists stays out for ever if and only if the capacity is above 1/60. */
  lemma FutileThreshold(sc: real, gc: real)
    requires sc > 0.0
    ensures InsistingIsFutile(sc, gc) <==> sc > 1.0 / 60.0
  {
    if sc > 1.0 / 60.0 {
      forall before: seq<Event>, addr: Address, t0: real, evs: seq<Event>, end: real
        | DeniedThenInsists(sc, gc, before, addr, t0, evs, end)
        ensures NeverPasses(AfterAttempt(RunFrom(Fresh(sc, gc), before), addr, t0), evs, addr)
      {
        var l := RunFrom(Fresh(sc, gc), before);
        DenialLeavesDebt(l, addr, t0);
        DeniedForever(AfterAttempt(l, addr, t0), evs, addr, t0, end);
      }
    } else {
      Forgotten(sc, gc);
    }
  }

  predicate Quiet(evs: seq<Event>, addr: Address) {
    forall e <- evs :: e.Attempt? ==> e.addr != addr
  }

  /** Nothing but a deletion happens to the bucket of an address that does not try. */
  lemma {:induction false} QuietEntry(l: Limiter, evs: seq<Event>, addr: Address)
    requires Quiet(evs, addr)
    ensures RunFrom(l, evs).Entry(addr) in {None, l.Entry(addr)}
  {
    if evs != [] {
      var before, e := evs[..|evs| - 1], evs[|evs| - 1];
      assert forall d <- before :: d in evs;
      QuietEntry(l, before, addr);
      EntryAfter(RunFrom(l, before), e, addr);
    }
  }

  /**
   * Keeping quiet for longer than the debt takes to pay lets the address pass again,
   * whatever the other addresses and the cleaner do in the meantime.
   */
  lemma QuietPasses(l: Limiter, addr: Address, evs: seq<Event>, now: real)
    requires l.singleCapacity > 0.0 && l.Entry(addr).Some? && l.Bucket(addr).lastUpdate >= 0.0
    requires l.Bucket(addr).tokens <= 0.0 && Quiet(evs, addr) && now > l.Bucket(addr).lastUpdate
    requires now - l.Bucket(addr).lastUpdate > -l.Bucket(addr).tokens / l.singleCapacity
    ensures Passes(RunFrom(l, evs), addr, now)
  {
    QuietEntry(l, evs, addr);
    PassesPaidOff(RunFrom(l, evs), addr, l.Bucket(addr), now);
  }

  lemma PassesPaidOff(l: Limiter, addr: Address, b: TokenBucket, now: real)
    requires l.singleCapacity > 0.0 && l.Entry(addr) in {None, Some(b)}
    requires 0.0 <= b.lastUpdate < now && b.tokens <= 0.0 && now - b.lastUpdate > -b.tokens / l.singleCapacity
    ensures Passes(l, addr, now)
  {
    if l.Entry(addr) == None {
      PaidOff(l.singleCapacity, NEW_BUCKET, now);
    } else {
      PaidOff(l.singleCapacity, b, now);
    }
  }

  lemma PaidOff(cap: real, b: TokenBucket, now: real)
    requires cap > 0.0 && b.tokens <= 0.0 && now - b.lastUpdate > -b.tokens / cap
    ensures Refill(cap, b, now) > 0.0
  {
    var quiet := Quotient(-b.tokens, cap);
    StrictlyMore(cap, quiet, now - b.lastUpdate);
  }

  lemma StrictlyMore(rate: real, a: real, b: real)
    requires rate > 0.0 && a < b
    ensures rate * a < rate * b
  {
    Positive(rate, b - a);
    Distribute(rate, b - a, a, rate * (b - a), rate * a);
  }

  lemma Positive(a: real, b: real)
    requires a > 0.0 && b > 0.0
    ensures a * b > 0.0
  {
  }
}
