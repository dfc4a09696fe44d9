/**
 * The voice timer: one object holding the session's start time, the running
 * flag and the flag that cancels the announcement loop; start and stop
 * operations that update them in place; the announcement loop; and the
 * interactive read loop that dispatches each input line.
 */
module Timer {
  import opened Optional
  import opened Duration
  import opened Notices
  import opened Command
  import opened Announcer

  /** The fields of a VoiceTimer, as a value. */
  datatype Snapshot = Snapshot(startTime: Option<int>, running: bool, stopVoice: bool)

  /** A running timer has a start time and an announcer that is not cancelled. */
  predicate Consistent(s: Snapshot) {
    s.running ==> s.startTime.Some? && !s.stopVoice
  }

  /** The fields as `__init__` sets them. */
  const Initial := Snapshot(None, false, false)

  /** The state after an operation, and what it printed and spoke. */
  datatype Step = Step(after: Snapshot, said: seq<Notice>)

  /** `start_timer` at clock `now`. */
  function Start(s: Snapshot, now: int): (r: Step)
    ensures Consistent(r.after)
  {
    Step(Snapshot(Some(now), true, false), [Started])
  }

  /** `stop_timer` at clock `now`. */
  function Stop(s: Snapshot, now: int): (r: Step)
    requires Consistent(s)
    ensures Consistent(r.after)
  {
    if s.running then
      Step(Snapshot(s.startTime, false, true), [Finished(Format(now - s.startTime.value))])
    else
      Step(s, [])
  }

  /**
   * Starting resets the clock and clears the stop flag whatever the prior
   * state, and says only that the timer started: a restart while running
   * never emits a stop message.
   */
  lemma StartForgetsPriorState(s: Snapshot, t: Snapshot, now: int)
    ensures Start(s, now) == Start(t, now)
    ensures Start(s, now).after == Snapshot(Some(now), true, false)
    ensures forall n :: n in Start(s, now).said ==> !n.Finished?
  {
  }

  /** Stopping an idle timer changes no field and says nothing. */
  lemma StopWhenIdle(s: Snapshot, now: int)
    requires Consistent(s) && !s.running
    ensures Stop(s, now) == Step(s, [])
  {
  }

  /**
   * Stopping a running timer clears the running flag, cancels the announcer,
   * keeps the start time, and says exactly one stop message whose total is
   * the time since the most recent start.
   */
  lemma StopWhenRunning(s: Snapshot, now: int)
    requires Consistent(s) && s.running && now >= s.startTime.value
    ensures var r := Stop(s, now);
      !r.after.running && r.after.stopVoice && r.after.startTime == s.startTime &&
      |r.said| == 1 && r.said[0].Finished? && Total(r.said[0].total) == now - s.startTime.value
  {
  }

  /** A second stop is silent and changes nothing. */
  lemma StopIdempotent(s: Snapshot, now: int, later: int)
    requires Consistent(s)
    ensures Stop(Stop(s, now).after, later) == Step(Stop(s, now).after, [])
  {
  }

  /** What the read loop is given: a line typed at clock `now`, or Ctrl-C while it waits. */
  datatype Input = Line(text: string, now: int) | Interrupt(now: int)

  /** Why the read loop ended; at the end of the input Python's `input()` raises EOFError, which `run` does not catch. */
  datatype Exit = QuitCommand | Interrupted | EndOfInput

  datatype Outcome = Outcome(after: Snapshot, said: seq<Notice>, exit: Exit)

  /** An input that ends the read loop. */
  predicate Ends(i: Input) {
    i.Interrupt? || Decide(i.text) == Quit
  }

  /** `run`: each line is dispatched until a quit line or an interrupt. */
  function Drive(s: Snapshot, inputs: seq<Input>): Outcome
    requires Consistent(s)
    decreases |inputs|
  {
    if inputs == [] then Outcome(s, [], EndOfInput)
    else if Ends(inputs[0]) then
      var st := if s.running then Stop(s, inputs[0].now) else Step(s, []);
      Outcome(st.after, st.said, if inputs[0].Interrupt? then Interrupted else QuitCommand)
    else
      var st := Start(s, inputs[0].now);
      var rest := Drive(st.after, inputs[1..]);
      Outcome(rest.after, st.said + rest.said, rest.exit)
  }

  /**
   * One input of the read loop: a quit line or an interrupt stops the timer
   * (the guard at the call is the same as stop's own) and ends the loop; any
   * other line starts the timer and the loop reads on.
   */
  lemma DriveStep(s: Snapshot, inputs: seq<Input>)
    requires Consistent(s) && inputs != []
    ensures Ends(inputs[0]) ==>
      var st := Stop(s, inputs[0].now);
      Drive(s, inputs) == Outcome(st.after, st.said, if inputs[0].Interrupt? then Interrupted else QuitCommand)
    ensures !Ends(inputs[0]) ==>
      var rest := Drive(Start(s, inputs[0].now).after, inputs[1..]);
      Drive(s, inputs) == Outcome(rest.after, [Started] + rest.said, rest.exit)
  {
  }

  /** The start time in force after the first `k` inputs, all of them start lines. */
  function LatestStart(s: Snapshot, inputs: seq<Input>, k: nat): Option<int>
    requires k <= |inputs|
  {
    if k > 0 then Some(inputs[k - 1].now) else s.startTime
  }

  /**
   * A whole run of the read loop. If the first `k` inputs are start lines and
   * input `k` (when there is one) quits or interrupts: the loop says "started"
   * k times, then, if a timer is running at that point, exactly one stop
   * message whose total is measured from the most recent start; on a quit or
   * interrupt with no timer running it says nothing more. The loop ends for
   * the reason input `k` gives, and the timer is left stopped.
   */
  lemma {:induction false} DriveRun(s: Snapshot, inputs: seq<Input>, k: nat)
    requires Consistent(s)
    requires k <= |inputs|
    requires forall i :: 0 <= i < k ==> !Ends(inputs[i])
    requires k < |inputs| ==> Ends(inputs[k])
    ensures var r := Drive(s, inputs);
      var running := k > 0 || s.running;
      r.after.startTime == LatestStart(s, inputs, k) &&
      r.said == seq(k, _ => Started) +
        (if k < |inputs| && running then [Finished(Format(inputs[k].now - LatestStart(s, inputs, k).value))] else []) &&
      r.exit == (if k == |inputs| then EndOfInput else if inputs[k].Interrupt? then Interrupted else QuitCommand) &&
      r.after.running == (k == |inputs| && running)
    decreases k
  {
    if k > 0 {
      var st := Start(s, inputs[0].now);
      DriveRun(st.after, inputs[1..], k - 1);
      var rest := Drive(st.after, inputs[1..]);
      assert [Started] + seq(k - 1, _ => Started) == seq(k, _ => Started);
      assert LatestStart(st.after, inputs[1..], k - 1) == LatestStart(s, inputs, k);
    }
  }

  /** No stop message except possibly the last notice. */
  predicate StopOnlyLast(said: seq<Notice>) {
    forall i :: 0 <= i < |said| - 1 ==> !said[i].Finished?
  }

  /** A run says at most one stop message, and only as its last notice. */
  lemma {:induction false} DriveStopsAtMostOnce(s: Snapshot, inputs: seq<Input>)
    requires Consistent(s)
    ensures StopOnlyLast(Drive(s, inputs).said)
    decreases |inputs|
  {
    if inputs != [] && !Ends(inputs[0]) {
      var after := Start(s, inputs[0].now).after;
      DriveStopsAtMostOnce(after, inputs[1..]);
      var rest := Drive(after, inputs[1..]).said;
      var said := Drive(s, inputs).said;
      assert said == [Started] + rest;
      forall i | 0 <= i < |said| - 1
        ensures !said[i].Finished?
      {
        if i > 0 {
          assert said[i] == rest[i - 1];
        }
      }
    }
  }

  /**
   * The timer of the program, updated in place by its operations. The ghost
   * `log` records, in order, every notice printed and spoken.
   */
  class VoiceTimer {
    var startTime: Option<int>
    var timerRunning: bool
    var stopVoice: bool
    ghost var log: seq<Notice>

    function State(): Snapshot
      reads this
    {
      Snapshot(startTime, timerRunning, stopVoice)
    }

    ghost predicate Valid()
      reads this
    {
      Consistent(State())
    }

    constructor ()
      ensures Valid() && State() == Initial && log == []
    {
      startTime := None;
      timerRunning := false;
      stopVoice := false;
      log := [];
    }

    /**
     * Start or restart the timer at clock `now`. An announcement loop still
     * alive is first cancelled and joined (not modelled: the stop flag it sets
     * is cleared again below before anything else reads it here).
     */
    method StartTimer(now: int)
      requires Valid()
      modifies this
      ensures Valid()
      ensures startTime == Some(now) && timerRunning && !stopVoice
      ensures log == old(log) + [Started]
      ensures State() == Start(old(State()), now).after
    {
      startTime := Some(now);
      timerRunning := true;
      stopVoice := false;
      log := log + [Started];
    }

    /** Stop the timer at clock `now`; nothing happens when it is not running. */
    method StopTimer(now: int)
      requires Valid()
      modifies this
      ensures Valid()
      ensures !old(timerRunning) ==> State() == old(State()) && log == old(log)
      ensures old(timerRunning) ==>
        !timerRunning && stopVoice && startTime == old(startTime) &&
        log == old(log) + [Finished(Format(now - old(startTime).value))]
      ensures State() == Stop(old(State()), now).after && log == old(log) + Stop(old(State()), now).said
    {
      if timerRunning {
        timerRunning := false;
        stopVoice := true;
        var elapsed := now - startTime.value;
        log := log + [Finished(Format(elapsed))];
      }
    }

    /**
     * The announcement loop of the current session, over the wake-ups in
     * `wakes`; returns how many times it slept. The tick counter stays in
     * 0..10 and is reset after every announcement.
     */
    method VoiceAnnounce(wakes: seq<Wake>) returns (ticks: nat)
      requires Valid() && startTime.Some?
      modifies this`log
      ensures log == old(log) + Announcements(startTime.value, 0, Live(timerRunning, stopVoice), wakes)
      ensures ticks == Ticks(Live(timerRunning, stopVoice), wakes)
    {
      var counter: nat := 0;
      var running, cancelled := timerRunning, stopVoice;
      ticks := 0;
      while running && !cancelled && ticks < |wakes|
        invariant ticks <= |wakes|
        invariant counter <= Interval && (Live(running, cancelled) ==> counter < Interval)
        invariant log + Announcements(startTime.value, counter, Live(running, cancelled), wakes[ticks..])
          == old(log) + Announcements(startTime.value, 0, Live(timerRunning, stopVoice), wakes)
        invariant ticks + Ticks(Live(running, cancelled), wakes[ticks..]) == Ticks(Live(timerRunning, stopVoice), wakes)
      {
        var w := wakes[ticks];
        ticks := ticks + 1;
        counter := counter + 1;
        running, cancelled := w.running, w.stopVoice;
        if counter >= Interval && running && !cancelled {
          log := log + [Announced(Format(w.now - startTime.value))];
          counter := 0;
        }
      }
    }

    /** The read loop of `run` over `inputs`; returns why it ended. */
    method Run(inputs: seq<Input>) returns (exit: Exit)
      requires Valid()
      modifies this
      ensures Valid()
      ensures var r := Drive(old(State()), inputs);
        State() == r.after && log == old(log) + r.said && exit == r.exit
    {
      var i := 0;
      ghost var said: seq<Notice> := [];
      while i < |inputs|
        invariant i <= |inputs| && Valid()
        invariant log == old(log) + said
        invariant var rest := Drive(State(), inputs[i..]);
          Drive(old(State()), inputs) == Outcome(rest.after, said + rest.said, rest.exit)
      {
        var input := inputs[i];
        assert inputs[i..][0] == input && inputs[i..][1..] == inputs[i + 1..];
        ghost var before := State();
        DriveStep(before, inputs[i..]);
        if Ends(input) {
          if timerRunning {
            StopTimer(input.now);
          }
          exit := if input.Interrupt? then Interrupted else QuitCommand;
          said := said + Stop(before, input.now).said;
          return;
        }
        StartTimer(input.now);
        said := said + [Started];
        i := i + 1;
      }
      exit := EndOfInput;
    }
  }
}
