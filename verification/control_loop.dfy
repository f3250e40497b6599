/**
 * The control loop of the fan governor: the controller state it keeps
 * between polls, one poll (fuse the readings, decide, actuate on a change),
 * and the whole run from start-up to the shutdown command.
 *
 * The fan driver is modelled by the sequence of values handed to it. Sensor
 * readings and the clock are inputs of each poll.
 */
module ControlLoop {
  import opened Wrappers
  import opened FanGovernor

  /** What one poll sees: the two sensor readings and the clock. */
  datatype Poll = Poll(cpu: Option<real>, nvme: Option<real>, now: real)

  /**
   * The loop's variables: the current speed and the two dwell timers. It
   * holds the same three values as `Decision`, but the two play different
   * parts: a `Decision` is what one decision returns, this is what the loop
   * carries from one poll to the next.
   */
  datatype ControllerState = ControllerState(speed: real, lowStart: Option<real>, veryHighStart: Option<real>)

  /** Start-up: fan off, no timer running. */
  const INITIAL: ControllerState := ControllerState(FAN_OFF, None, None)

  /** Python's `int()` on a float: truncation toward zero. */
  function Trunc(x: real): (n: int)
    ensures 0.0 <= x ==> 0 <= n && n as real <= x < n as real + 1.0
    ensures x < 0.0 ==> n <= 0 && n as real - 1.0 < x <= n as real
  {
    if x >= 0.0 then x.Floor else -((-x).Floor)
  }

  /** A value the driver may be sent: off, or a running speed on its 0..255 scale. */
  predicate IsCommand(value: int) {
    value == 0 || 100 <= value <= 255
  }

  /** The command sent for a speed of the governor is a command the driver accepts. */
  lemma TruncFanSpeed(speed: real)
    requires IsFanSpeed(speed)
    ensures IsCommand(Trunc(speed)) && (speed == FAN_OFF ==> Trunc(speed) == 0)
  {
  }

  /** The effect of one poll: the next state and what was sent to the driver. */
  datatype TickResult = TickResult(next: ControllerState, sent: seq<int>)

  /**
   * One pass of the loop once the temperature is fused: no temperature
   * changes nothing; otherwise the decision's timers are taken over, and the
   * decided speed is sent and becomes current only when it differs from the
   * current one. Whether the driver accepts the value is not observed.
   */
  function TickSpec(s: ControllerState, temp: Option<real>, now: real, pow: Power): (r: TickResult)
    ensures temp.None? ==> r == TickResult(s, [])
    ensures r.sent != [] <==> r.next.speed != s.speed
    ensures r.sent != [] ==> r.sent == [Trunc(r.next.speed)]
    ensures IsFanSpeed(s.speed) ==> IsFanSpeed(r.next.speed)
    // the speed and both timers become the decision's
    ensures temp.Some? ==>
              var d := DecideFanSpeed(temp.value, s.speed, s.lowStart, s.veryHighStart, now, pow);
              r.next == ControllerState(d.speed, d.lowStart, d.veryHighStart)
  {
    match temp
    case None => TickResult(s, [])
    case Some(t) =>
      var d := DecideFanSpeed(t, s.speed, s.lowStart, s.veryHighStart, now, pow);
      TickResult(ControllerState(d.speed, d.lowStart, d.veryHighStart),
                 if d.speed != s.speed then [Trunc(d.speed)] else [])
  }

  /** A poll whose fusion raises: no CPU reading and an NVMe reading of 0.0. */
  predicate Raises(p: Poll) {
    p.cpu.None? && p.nvme == Some(0.0)
  }

  /** Some poll of `polls` raises. */
  ghost predicate AnyRaises(polls: seq<Poll>) {
    exists k :: 0 <= k < |polls| && Raises(polls[k])
  }

  /** One poll: fuse the readings and tick; nothing when the fusion raises. */
  function PollStep(s: ControllerState, p: Poll, pow: Power): (r: Option<TickResult>)
    ensures r.None? <==> Raises(p)
    ensures p.cpu.None? && p.nvme.None? ==> r == Some(TickResult(s, []))
    // a poll that does not raise ticks with the fused temperature
    ensures EffectiveTemperature(p.cpu, p.nvme).Ok? ==>
              r == Some(TickSpec(s, EffectiveTemperature(p.cpu, p.nvme).value, p.now, pow))
  {
    match EffectiveTemperature(p.cpu, p.nvme)
    case Err(_) => None
    case Ok(temp) => Some(TickSpec(s, temp, p.now, pow))
  }

  /** The outcome of a sequence of polls: the last state, what was sent, and whether a poll raised. */
  datatype RunResult = RunResult(last: ControllerState, sent: seq<int>, raised: bool)

  /**
   * The loop over `polls`: each poll is fused and ticked in turn; a poll
   * whose fusion raises ends the loop there.
   */
  function Process(s: ControllerState, polls: seq<Poll>, pow: Power): (r: RunResult)
    // the loop ends early exactly when some poll raises
    ensures r.raised <==> AnyRaises(polls)
    // the driver is called at most once per poll
    ensures |r.sent| <= |polls|
    decreases |polls|
  {
    if polls == [] then
      RunResult(s, [], false)
    else
      match PollStep(s, polls[0], pow)
      case None => RunResult(s, [], true)
      case Some(tick) =>
        var rest := Process(tick.next, polls[1..], pow);
        assert forall k :: 1 <= k < |polls| ==> polls[k] == polls[1..][k - 1];
        RunResult(rest.last, tick.sent + rest.sent, rest.raised)
  }

  /** One unfolding of `Process` at a poll that does not raise. */
  lemma ProcessTick(s: ControllerState, polls: seq<Poll>, pow: Power)
    requires polls != [] && PollStep(s, polls[0], pow).Some?
    ensures var tick := PollStep(s, polls[0], pow).value;
            var rest := Process(tick.next, polls[1..], pow);
            Process(s, polls, pow) == RunResult(rest.last, tick.sent + rest.sent, rest.raised)
  {
  }

  /** One unfolding of `Process` at a poll that raises. */
  lemma ProcessRaise(s: ControllerState, polls: seq<Poll>, pow: Power)
    requires polls != [] && PollStep(s, polls[0], pow).None?
    ensures Process(s, polls, pow) == RunResult(s, [], true)
  {
  }

  /**
   * The loop stops at a poll that raises: whatever polls come after it are
   * never looked at, so the run equals the run cut just after that poll.
   */
  lemma {:induction false} ProcessStopsAtRaise(s: ControllerState, polls: seq<Poll>, k: int, pow: Power)
    requires 0 <= k < |polls| && Raises(polls[k])
    ensures Process(s, polls, pow) == Process(s, polls[..k + 1], pow)
    decreases k
  {
    if k > 0 {
      match PollStep(s, polls[0], pow)
      case None =>
      case Some(tick) =>
        assert polls[1..][..k] == polls[..k + 1][1..];
        ProcessStopsAtRaise(tick.next, polls[1..], k - 1, pow);
    }
  }

  /**
   * Over any sequence of polls the speed stays a fan speed and every value
   * sent to the driver is one it accepts.
   */
  lemma {:induction false} ProcessSendsCommands(s: ControllerState, polls: seq<Poll>, pow: Power)
    requires IsFanSpeed(s.speed)
    ensures var r := Process(s, polls, pow);
            IsFanSpeed(r.last.speed) &&
            forall k :: 0 <= k < |r.sent| ==> IsCommand(r.sent[k])
    decreases |polls|
  {
    if polls != [] {
      match PollStep(s, polls[0], pow)
      case None =>
      case Some(tick) =>
        ProcessSendsCommands(tick.next, polls[1..], pow);
        if tick.sent != [] {
          TruncFanSpeed(tick.next.speed);
        }
    }
  }

  /** A poll in which neither sensor gives a reading. */
  predicate IsSilent(p: Poll) {
    p.cpu.None? && p.nvme.None?
  }

  /**
   * Sensor outages are idle: any number of polls without a reading leave
   * the speed and both timers as they were, send nothing and do not end
   * the loop.
   */
  lemma {:induction false} SilentPollsIdle(s: ControllerState, polls: seq<Poll>, pow: Power)
    requires forall k :: 0 <= k < |polls| ==> IsSilent(polls[k])
    ensures Process(s, polls, pow) == RunResult(s, [], false)
    decreases |polls|
  {
    if polls != [] {
      assert IsSilent(polls[0]);
      SilentPollsIdle(s, polls[1..], pow);
    }
  }

  /** The governor's state between polls, and everything it has sent to the fan driver. */
  class Controller {
    var currentFanSpeed: real
    var lowTempStart: Option<real>
    var veryHighTempStart: Option<real>
    /** Every value handed to the fan driver, oldest first. */
    var commands: seq<int>
    /** The curve's power term. */
    const pow: Power

    function State(): ControllerState
      reads this
    {
      ControllerState(currentFanSpeed, lowTempStart, veryHighTempStart)
    }

    /** The speed is a fan speed and every command sent so far is one the driver accepts. */
    ghost predicate Valid()
      reads this
    {
      IsFanSpeed(currentFanSpeed) &&
      forall k :: 0 <= k < |commands| ==> IsCommand(commands[k])
    }

    /** Start-up: fan off, both timers empty, and the fan switched off once. */
    constructor (pow: Power)
      ensures Valid()
      ensures State() == INITIAL && commands == [0] && this.pow == pow
    {
      currentFanSpeed := FAN_OFF;
      lowTempStart := None;
      veryHighTempStart := None;
      this.pow := pow;
      commands := [];
      new;
      ControlFanSpeed(FAN_OFF);
    }

    /**
     * Hands `speed` to the fan driver, truncated to an integer. A failure of
     * the driver is swallowed, so nothing else changes either way.
     */
    method ControlFanSpeed(speed: real)
      modifies this`commands
      ensures commands == old(commands) + [Trunc(speed)]
    {
      commands := commands + [Trunc(speed)];
    }

    /** One pass of the loop with the fused temperature `temp`, at time `now`. */
    method Tick(temp: Option<real>, now: real)
      requires Valid()
      modifies this
      ensures Valid()
      ensures var r := TickSpec(old(State()), temp, now, pow);
              State() == r.next && commands == old(commands) + r.sent
    {
      match temp {
        case None =>
        case Some(t) =>
          var d := DecideFanSpeed(t, currentFanSpeed, lowTempStart, veryHighTempStart, now, pow);
          lowTempStart, veryHighTempStart := d.lowStart, d.veryHighStart;
          if d.speed != currentFanSpeed {
            TruncFanSpeed(d.speed);
            ControlFanSpeed(d.speed);
            currentFanSpeed := d.speed;
          }
      }
    }

    /**
     * One poll: fuse the readings, then tick. Returns false, changing
     * nothing, when the fusion raises.
     */
    method Step(p: Poll) returns (ok: bool)
      requires Valid()
      modifies this
      ensures Valid()
      ensures var r := PollStep(old(State()), p, pow);
              ok == r.Some? &&
              (ok ==> State() == r.value.next && commands == old(commands) + r.value.sent) &&
              (!ok ==> State() == old(State()) && commands == old(commands))
    {
      var fused := EffectiveTemperature(p.cpu, p.nvme);
      match fused {
        case Err(_) =>
          ok := false;
        case Ok(temp) =>
          Tick(temp, p.now);
          ok := true;
      }
    }

    /** Shutdown: the fan is switched off whatever the state. */
    method Shutdown()
      requires Valid()
      modifies this
      ensures Valid()
      ensures State() == old(State()) && commands == old(commands) + [0]
    {
      ControlFanSpeed(FAN_OFF);
    }
  }

  /**
   * The whole run: start with the fan off, poll until the polls run out (an
   * interrupt) or a poll raises, then switch the fan off. Returns every
   * value handed to the fan driver: an initial 0, what the polls sent, and
   * a final 0, each one a command the driver accepts.
   */
  method Run(polls: seq<Poll>, pow: Power) returns (commands: seq<int>)
    ensures commands == [0] + Process(INITIAL, polls, pow).sent + [0]
    ensures commands[0] == 0 && commands[|commands| - 1] == 0
    ensures forall k :: 0 <= k < |commands| ==> IsCommand(commands[k])
  {
    var c := new Controller(pow);
    var i := 0;
    var running := true;
    ghost var sent: seq<int> := [];
    while i < |polls| && running
      invariant 0 <= i <= |polls|
      invariant c.Valid() && c.pow == pow
      invariant c.commands == [0] + sent
      invariant running ==>
                  var r := Process(c.State(), polls[i..], pow);
                  Process(INITIAL, polls, pow) == RunResult(r.last, sent + r.sent, r.raised)
      invariant !running ==> Process(INITIAL, polls, pow).sent == sent
      decreases |polls| - i + (if running then 1 else 0)
    {
      ghost var before := c.State();
      ghost var rest := polls[i..];
      assert rest[0] == polls[i] && rest[1..] == polls[i + 1..];
      var ok := c.Step(polls[i]);
      if ok {
        ghost var tick := PollStep(before, polls[i], pow).value;
        ProcessTick(before, rest, pow);
        assert sent + (tick.sent + Process(tick.next, rest[1..], pow).sent)
            == (sent + tick.sent) + Process(tick.next, rest[1..], pow).sent;
        sent := sent + tick.sent;
        i := i + 1;
      } else {
        ProcessRaise(before, rest, pow);
        running := false;
      }
    }
    assert running ==> polls[i..] == [];
    c.Shutdown();
    commands := c.commands;
  }
}
