/**
 * The announcement loop of the voice timer, as a function of what the loop
 * sees. The loop sleeps one second per tick, counts ticks, and every tenth
 * tick announces the elapsed time if the session is still running and not
 * cancelled; it ends as soon as either flag says stop.
 */
module Announcer {
  import opened Duration
  import opened Notices

  /** Ticks between two announcements. */
  const Interval: nat := 10

  /**
   * One wake-up after `time.sleep(1)`: the clock, and the two shared flags as
   * the foreground left them during the sleep.
   */
  datatype Wake = Wake(now: int, running: bool, stopVoice: bool)

  /** The loop condition `timer_running and not stop_voice`. */
  predicate Live(running: bool, stopVoice: bool) {
    running && !stopVoice
  }

  predicate LiveWake(w: Wake) {
    Live(w.running, w.stopVoice)
  }

  /**
   * The announcements the loop makes over `wakes`, from tick counter
   * `counter`, when its loop condition last read `live`.
   */
  function Announcements(start: int, counter: nat, live: bool, wakes: seq<Wake>): seq<Notice>
    decreases |wakes|
  {
    if !live || wakes == [] then []
    else
      var w := wakes[0];
      if counter + 1 >= Interval && LiveWake(w) then
        [Announced(Format(w.now - start))] + Announcements(start, 0, true, wakes[1..])
      else
        Announcements(start, counter + 1, LiveWake(w), wakes[1..])
  }

  /** The number of one-second sleeps the loop performs before it exits or the trace ends. */
  function Ticks(live: bool, wakes: seq<Wake>): nat
    decreases |wakes|
  {
    if !live || wakes == [] then 0 else 1 + Ticks(LiveWake(wakes[0]), wakes[1..])
  }

  /**
   * While the session stays live, the loop announces on every tenth tick and
   * on no other: the k-th announcement reports the clock of tick
   * 10 * k + 10 - counter (counting ticks from 1), and there are as many
   * announcements as whole intervals fit in the ticks plus the count already
   * made.
   */
  lemma {:induction false} LiveSchedule(start: int, counter: nat, wakes: seq<Wake>)
    requires counter < Interval
    requires forall i :: 0 <= i < |wakes| ==> LiveWake(wakes[i])
    ensures |Announcements(start, counter, true, wakes)| == (|wakes| + counter) / Interval
    ensures forall k :: 0 <= k < (|wakes| + counter) / Interval ==>
      Interval * k + Interval - 1 - counter < |wakes| &&
      Announcements(start, counter, true, wakes)[k] == Announced(Format(wakes[Interval * k + Interval - 1 - counter].now - start))
    decreases |wakes|
  {
    if wakes != [] {
      var a := Announcements(start, counter, true, wakes);
      var tail := wakes[1..];
      if counter + 1 == Interval {
        LiveSchedule(start, 0, tail);
        var rest := Announcements(start, 0, true, tail);
        assert a == [Announced(Format(wakes[0].now - start))] + rest;
        forall k | 0 <= k < (|wakes| + counter) / Interval
          ensures Interval * k + Interval - 1 - counter < |wakes|
          ensures a[k] == Announced(Format(wakes[Interval * k + Interval - 1 - counter].now - start))
        {
          if k > 0 {
            assert a[k] == rest[k - 1];
            assert tail[Interval * (k - 1) + Interval - 1] == wakes[Interval * k + Interval - 1 - counter];
          }
        }
      } else {
        LiveSchedule(start, counter + 1, tail);
        assert a == Announcements(start, counter + 1, true, tail);
        forall k | 0 <= k < (|wakes| + counter) / Interval
          ensures Interval * k + Interval - 1 - counter < |wakes|
          ensures a[k] == Announced(Format(wakes[Interval * k + Interval - 1 - counter].now - start))
        {
          assert tail[Interval * k + Interval - 1 - (counter + 1)] == wakes[Interval * k + Interval - 1 - counter];
        }
      }
    }
  }

  /**
   * Once a wake sees either flag say stop, that wake and every later one
   * announce nothing, and the loop performs no further sleep.
   */
  lemma {:induction false} NothingAfterStop(start: int, counter: nat, live: bool, wakes: seq<Wake>, j: nat)
    requires j < |wakes| && !LiveWake(wakes[j])
    ensures Announcements(start, counter, live, wakes) == Announcements(start, counter, live, wakes[..j])
    ensures Ticks(live, wakes) <= j + 1
    decreases j
  {
    if live {
      var w := wakes[0];
      if j == 0 {
        assert wakes[..j] == [];
        assert Announcements(start, counter, live, wakes) == Announcements(start, counter + 1, false, wakes[1..]);
      } else {
        assert wakes[..j][0] == w && wakes[..j][1..] == wakes[1..][..j - 1];
        if counter + 1 >= Interval && LiveWake(w) {
          NothingAfterStop(start, 0, true, wakes[1..], j - 1);
        } else {
          NothingAfterStop(start, counter + 1, LiveWake(w), wakes[1..], j - 1);
        }
        NothingAfterStop(start, counter, LiveWake(w), wakes[1..], j - 1);
      }
    }
  }

  /** At most one announcement per interval of ticks. */
  lemma {:induction false} AtMostOnePerInterval(start: int, counter: nat, live: bool, wakes: seq<Wake>)
    requires counter < Interval
    ensures |Announcements(start, counter, live, wakes)| <= (|wakes| + counter) / Interval
    decreases |wakes|
  {
    if live && wakes != [] {
      var w := wakes[0];
      if counter + 1 >= Interval && LiveWake(w) {
        AtMostOnePerInterval(start, 0, true, wakes[1..]);
      } else if counter + 1 < Interval {
        AtMostOnePerInterval(start, counter + 1, LiveWake(w), wakes[1..]);
      } else {
        assert Announcements(start, counter, live, wakes) == [] by {
          assert Announcements(start, counter, live, wakes) == Announcements(start, counter + 1, false, wakes[1..]);
        }
      }
    }
  }

  /**
   * A whole session of the loop started with counter 0: if the first `j`
   * wakes are live and wake `j` (when there is one) says stop, the loop
   * sleeps j + 1 times (j when the trace ends first) and announces exactly
   * at ticks 10, 20, 30, ... among the first j, with the clock of that tick.
   */
  lemma Session(start: int, wakes: seq<Wake>, j: nat)
    requires j <= |wakes|
    requires forall i :: 0 <= i < j ==> LiveWake(wakes[i])
    requires j < |wakes| ==> !LiveWake(wakes[j])
    ensures Ticks(true, wakes) == if j < |wakes| then j + 1 else j
    ensures |Announcements(start, 0, true, wakes)| == j / Interval
    ensures forall k :: 0 <= k < j / Interval ==>
      Announcements(start, 0, true, wakes)[k] == Announced(Format(wakes[Interval * k + Interval - 1].now - start))
  {
    var live := wakes[..j];
    LiveSchedule(start, 0, live);
    TicksUntilStop(wakes, j);
    if j < |wakes| {
      NothingAfterStop(start, 0, true, wakes, j);
    } else {
      assert live == wakes;
    }
  }

  /** The loop sleeps through every live wake and once more for the first wake that says stop. */
  lemma {:induction false} TicksUntilStop(wakes: seq<Wake>, j: nat)
    requires j <= |wakes|
    requires forall i :: 0 <= i < j ==> LiveWake(wakes[i])
    requires j < |wakes| ==> !LiveWake(wakes[j])
    ensures Ticks(true, wakes) == if j < |wakes| then j + 1 else j
    decreases j
  {
    if j > 0 {
      TicksUntilStop(wakes[1..], j - 1);
    }
  }
}
