// The heartbeat monitor of a server connection (server/network/network.cpp):
// heartbeats are counted, and the count is looked at by the first heartbeat that
// arrives at least ten seconds after the last look.

module Heartbeats {
  import opened Reals

  const CHECK_INTERVAL := 10.0
  const MAX_HEART_BEATS := 10

  datatype Monitor = Monitor(times: nat, timePoint: real)

  /** The heartbeat at `now` closes the window. */
  predicate Closes(m: Monitor, now: real) {
    now - m.timePoint >= CHECK_INTERVAL
  }

  predicate Drops(m: Monitor, now: real) {
    Closes(m, now) && m.times + 1 > MAX_HEART_BEATS
  }

  function Beat(m: Monitor, now: real): Monitor {
    if Closes(m, now) then Monitor(0, now) else Monitor(m.times + 1, m.timePoint)
  }

  class HeartbeatMonitor {
    var heartBeatTimes: nat
    var heartBeatTimePoint: real

    ghost function View(): Monitor
      reads this
    {
      Monitor(heartBeatTimes, heartBeatTimePoint)
    }

    constructor (now: real)
      ensures View() == Monitor(0, now)
    {
      heartBeatTimes, heartBeatTimePoint := 0, now;
    }

    method OnHeartBeat(now: real) returns (drop: bool)
      modifies this
      ensures drop == Drops(old(View()), now)
      ensures !drop ==> View() == Beat(old(View()), now)
    {
      drop := false;
      heartBeatTimes := heartBeatTimes + 1;
      if now - heartBeatTimePoint >= CHECK_INTERVAL {
        heartBeatTimePoint := now;
        if heartBeatTimes > MAX_HEART_BEATS {
          return true;
        }
        heartBeatTimes := 0;
      }
    }
  }

  // ------------------------------------------------------------------------
  // Runs
  // ------------------------------------------------------------------------

  /** Some heartbeat of the run gets the connection dropped. */
  predicate Dropped(m: Monitor, beats: seq<real>)
    decreases |beats|
  {
    beats != [] && (Drops(m, beats[0]) || Dropped(Beat(m, beats[0]), beats[1..]))
  }

  /** The monitor after heartbeats that did not get the connection dropped. */
  function After(m: Monitor, beats: seq<real>): Monitor
    decreases |beats|
  {
    if beats == [] then m else After(Beat(m, beats[0]), beats[1..])
  }

  lemma {:induction false} OneMoreBeat(m: Monitor, beats: seq<real>, now: real)
    ensures After(m, beats + [now]) == Beat(After(m, beats), now)
    ensures Dropped(m, beats + [now]) <==> Dropped(m, beats) || Drops(After(m, beats), now)
    decreases |beats|
  {
    if beats == [] {
      assert ([] + [now])[1..] == [];
    } else {
      OneMoreBeat(Beat(m, beats[0]), beats[1..], now);
      assert (beats + [now])[1..] == beats[1..] + [now];
    }
  }

  // ---- in terms of the heartbeats alone

  /** When the window was opened that heartbeat `i` falls into, and the first heartbeat that is counted in it. */
  function WindowOf(start: real, beats: seq<real>, i: nat): (r: (real, nat))
    requires i <= |beats|
    ensures r.1 <= i
  {
    if i == 0 then (start, 0)
    else
      var (since, first) := WindowOf(start, beats, i - 1);
      if beats[i - 1] - since >= 10.0 then (beats[i - 1], i) else (since, first)
  }

  /** Heartbeat `i` comes ten seconds or more after its window was opened, as the eleventh of it or later. */
  predicate OneTooMany(start: real, beats: seq<real>, i: nat)
    requires i < |beats|
  {
    var (since, first) := WindowOf(start, beats, i);
    beats[i] - since >= 10.0 && i + 1 - first > 10
  }

  lemma {:induction false} AfterIsWindow(start: real, beats: seq<real>)
    ensures var (since, first) := WindowOf(start, beats, |beats|);
            After(Monitor(0, start), beats) == Monitor(|beats| - first, since)
  {
    if beats != [] {
      var n := |beats| - 1;
      AfterIsWindow(start, beats[..n]);
      SameWindow(start, beats, n, n);
      assert beats == beats[..n] + [beats[n]];
      OneMoreBeat(Monitor(0, start), beats[..n], beats[n]);
    }
  }

  lemma {:induction false} SameWindow(start: real, beats: seq<real>, n: nat, i: nat)
    requires i <= n <= |beats|
    ensures WindowOf(start, beats[..n], i) == WindowOf(start, beats, i)
  {
    if i > 0 {
      SameWindow(start, beats, n, i - 1);
    }
  }

  /** A connection is dropped if and only if some heartbeat is one too many when its window closes. */
  lemma {:induction false} DroppedIs(start: real, beats: seq<real>)
    ensures Dropped(Monitor(0, start), beats) <==> exists i :: 0 <= i < |beats| && OneTooMany(start, beats, i)
  {
    if beats != [] {
      var n := |beats| - 1;
      DroppedIs(start, beats[..n]);
      LastIsOneTooMany(start, beats, n);
      assert beats == beats[..n] + [beats[n]];
      OneMoreBeat(Monitor(0, start), beats[..n], beats[n]);
      forall i | 0 <= i < n
        ensures OneTooMany(start, beats[..n], i) <==> OneTooMany(start, beats, i)
      {
        SameWindow(start, beats, n, i);
      }
      if i :| 0 <= i < n && OneTooMany(start, beats[..n], i) {
        assert OneTooMany(start, beats, i);
      }
      if i :| 0 <= i < |beats| && OneTooMany(start, beats, i) {
        assert i < n ==> OneTooMany(start, beats[..n], i);
      }
    }
  }

  lemma LastIsOneTooMany(start: real, beats: seq<real>, n: nat)
    requires n < |beats|
    ensures Drops(After(Monitor(0, start), beats[..n]), beats[n]) <==> OneTooMany(start, beats, n)
  {
    AfterIsWindow(start, beats[..n]);
    SameWindow(start, beats, n, n);
  }

  /** Consecutive heartbeats are at least `gap` seconds apart, the first one not before `earliest`. */
  predicate Spaced(beats: seq<real>, earliest: real, gap: real)
    decreases |beats|
  {
    beats != [] ==> earliest <= beats[0] && Spaced(beats[1..], beats[0] + gap, gap)
  }

  lemma NineTimes(gap: real)
    ensures Times(9, gap) == 9.0 * gap
  {
    assert Times(1, gap) == gap;
    assert Times(2, gap) == Times(1, gap) + gap;
    assert Times(4, gap) == Times(2, gap) + gap + gap;
    assert Times(6, gap) == Times(4, gap) + gap + gap;
    assert Times(8, gap) == Times(6, gap) + gap + gap;
  }

  /**
   * The heartbeats counted in the open window are spaced out inside it. `lead` is the
   * wait before the first of them: nothing if the connection opened the window, a
   * whole gap if a heartbeat did.
   */
  ghost predicate InWindow(m: Monitor, earliest: real, gap: real, lead: real) {
    && earliest >= m.timePoint + lead + Times(m.times, gap)
    && (m.times > 0 ==> earliest - gap < m.timePoint + CHECK_INTERVAL)
  }

  lemma {:induction false} SpacedNeverDropped(m: Monitor, beats: seq<real>, earliest: real, gap: real, lead: real)
    requires gap >= 1.0 && lead + 9.0 * gap >= CHECK_INTERVAL
    requires InWindow(m, earliest, gap, lead) && Spaced(beats, earliest, gap)
    ensures !Dropped(m, beats)
    decreases |beats|
  {
    if beats != [] {
      var now := beats[0];
      if m.times >= 10 {
        TimesMonotone(9, m.times - 1, gap);
        NineTimes(gap);
      }
      SpacedNeverDropped(Beat(m, now), beats[1..], now + gap, gap, if Closes(m, now) then gap else lead);
    }
  }

  /** Heartbeats at `first`, `first + gap`, `first + 2 gap`, ... */
  function Regular(first: real, gap: real, n: nat): seq<real>
    decreases n
  {
    if n == 0 then [] else [first] + Regular(first + gap, gap, n - 1)
  }

  lemma {:induction false} RegularSpaced(first: real, gap: real, n: nat)
    ensures Spaced(Regular(first, gap, n), first, gap)
    decreases n
  {
    if n > 0 {
      RegularSpaced(first + gap, gap, n - 1);
    }
  }

  /** If nine gaps do not fill the window after the first heartbeat, it closes with too many. */
  lemma {:induction false} RegularDropped(m: Monitor, gap: real, lead: real, n: nat)
    requires gap > 0.0 && lead >= 0.0 && lead + 9.0 * gap < CHECK_INTERVAL
    requires lead + Times(m.times, gap) < CHECK_INTERVAL + gap <= lead + Times(m.times + n, gap)
    ensures Dropped(m, Regular(m.timePoint + lead + Times(m.times, gap), gap, n))
    decreases n
  {
    var now := m.timePoint + lead + Times(m.times, gap);
    if m.times < 10 {
      TimesMonotone(m.times, 9, gap);
      NineTimes(gap);
    }
    if !Closes(m, now) {
      RegularDropped(Beat(m, now), gap, lead, n - 1);
      assert now + gap == m.timePoint + lead + Times(m.times + 1, gap);
    }
  }

  /** No run of heartbeats at least `gap` apart ever loses its connection. */
  ghost predicate SafeGap(gap: real) {
    forall start: real, beats: seq<real> :: Spaced(beats, start, gap) ==> !Dropped(Monitor(0, start), beats)
  }

  /** The gap a client has to keep is exactly 10/9 of a second. */
  lemma SafeGapThreshold(gap: real)
    requires gap > 0.0
    ensures SafeGap(gap) <==> gap >= 10.0 / 9.0
  {
    if gap >= 10.0 / 9.0 {
      forall start: real, beats: seq<real> | Spaced(beats, start, gap)
        ensures !Dropped(Monitor(0, start), beats)
      {
        SpacedNeverDropped(Monitor(0, start), beats, start, gap, 0.0);
      }
    } else {
      var n := Reaches(CHECK_INTERVAL + gap, gap);
      RegularSpaced(0.0, gap, n);
      RegularDropped(Monitor(0, 0.0), gap, 0.0, n);
    }
  }

  /** No run whose first heartbeat also waits for `gap` ever loses its connection. */
  ghost predicate SafeAfterWaiting(gap: real) {
    forall start: real, beats: seq<real> :: Spaced(beats, start + gap, gap) ==> !Dropped(Monitor(0, start), beats)
  }

  /** For a client whose first heartbeat waits as well, the gap it has to keep is exactly one second. */
  lemma WaitingGapThreshold(gap: real)
    requires gap > 0.0
    ensures SafeAfterWaiting(gap) <==> gap >= 1.0
  {
    if gap >= 1.0 {
      forall start: real, beats: seq<real> | Spaced(beats, start + gap, gap)
        ensures !Dropped(Monitor(0, start), beats)
      {
        SpacedNeverDropped(Monitor(0, start), beats, start + gap, gap, gap);
      }
    } else {
      var n := Reaches(CHECK_INTERVAL + gap, gap);
      RegularSpaced(0.0 + gap, gap, n);
      RegularDropped(Monitor(0, 0.0), gap, gap, n);
    }
  }
}
