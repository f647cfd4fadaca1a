// Model of src/dsp/gate_core.h: the noise gate's IDLE / HOLD / DECAY state machine.
// Samples, levels and gains are reals; sqrt(k * k) is |k| exactly. The counters and the
// times are uint32 and the two counters the machine increments without a bound check wrap
// at 2^32.

module Gate {
  import opened CircularBuffer

  const UINT32_MAX: nat := 0xFFFF_FFFF

  /** 1 / sqrt(2), the factor that turns the window power into the level compared with
      the thresholds. */
  const RMS_FACTOR: real := 0.707106781187

  datatype Phase = Idle | Hold | Decay

  /** A gain: a real number, or the +inf that a zero attack time divides into. */
  datatype Gain = Level(value: real) | Infinite

  /** An output sample: input * gain, or a non-finite float when the gain is +inf. */
  datatype Sample = Finite(value: real) | NonFinite

  /** The thresholds turned into sample counts: _attackTime, _holdTime, _decayTime. */
  datatype Times = Times(attack: nat, hold: nat, decay: nat)

  /** What one step of the machine changes: _currentState, the three counters and
      _gainFactor. */
  datatype Regs = Regs(phase: Phase, attack: nat, hold: nat, decay: nat, gain: Gain)

  /** What a step is told about the level: rms > upper threshold, rms > lower threshold. */
  datatype Levels = Levels(aboveUpper: bool, aboveLower: bool)

  predicate TimesInRange(t: Times)
  {
    t.attack <= UINT32_MAX && t.hold <= UINT32_MAX && t.decay <= UINT32_MAX
  }

  predicate InRange(c: Regs)
  {
    c.attack <= UINT32_MAX && c.hold <= UINT32_MAX && c.decay <= UINT32_MAX
  }

  /** `x++` on a uint32. */
  function Inc(x: nat): (r: nat)
    requires x <= UINT32_MAX
    ensures r <= UINT32_MAX
  {
    if x == UINT32_MAX then 0 else x + 1
  }

  /** powf(n, 2) / powf(d, 2), with +inf for a zero divisor (never 0 / 0 here). */
  function Ramp(n: nat, d: nat): Gain
    requires n > 0 || d > 0
  {
    if d == 0 then Infinite else Level((n * n) as real / (d * d) as real)
  }

  /** The step taken by gate_run once the level is known. DECAY does not look at the
      level; IDLE only at the upper threshold, HOLD only at the lower one. */
  function Step(c: Regs, t: Times, aboveUpper: bool, aboveLower: bool): (r: Regs)
    requires InRange(c) && TimesInRange(t)
    ensures InRange(r)
  {
    match c.phase
    case Idle =>
      if !aboveUpper then c.(gain := Level(0.0))
      else if c.attack > t.attack then c.(phase := Hold, hold := 0, attack := 0, gain := Level(1.0))
      else
        var a := Inc(c.attack);
        c.(attack := a, gain := if a != 0 then Ramp(a, t.attack) else Level(0.0))
    case Hold =>
      if aboveLower then c.(hold := 0, gain := Level(1.0))
      else if c.hold < t.hold then c.(hold := c.hold + 1, gain := Level(1.0))
      else c.(phase := Decay, decay := 0, gain := Level(1.0))
    case Decay =>
      if c.decay > t.decay then c.(phase := Idle, gain := Level(0.0))
      else if c.decay != 0 then c.(decay := Inc(c.decay), gain := Ramp(t.decay - c.decay, t.decay))
      else c.(decay := 1, gain := Level(1.0))
  }

  /** input * gain. */
  function Scale(input: real, g: Gain): (s: Sample)
    ensures s.Finite? <==> g.Level?
    ensures g.Level? ==> s.value == input * g.value
  {
    match g
    case Level(v) => Finite(input * v)
    case Infinite => NonFinite
  }

  /** IDLE's state after the one before it. */
  function Next(p: Phase): Phase
  {
    match p
    case Idle => Hold
    case Hold => Decay
    case Decay => Idle
  }

  /** Below the upper threshold, IDLE stays IDLE with gain 0 and keeps its attack count. */
  lemma IdleBelowUpper(c: Regs, t: Times, aboveLower: bool)
    requires InRange(c) && TimesInRange(t) && c.phase == Idle
    ensures var r := Step(c, t, false, aboveLower);
            r.phase == Idle && r.gain == Level(0.0) &&
            r.attack == c.attack && r.hold == c.hold && r.decay == c.decay
  {
  }

  /** Above the upper threshold, IDLE opens once the attack count has passed the attack
      time, and counts one more sample otherwise; its gain is then the squared ramp of
      the new count over the attack time, or 0 when the count wrapped to 0. */
  lemma IdleAboveUpper(c: Regs, t: Times, aboveLower: bool)
    requires InRange(c) && TimesInRange(t) && c.phase == Idle
    ensures var r := Step(c, t, true, aboveLower);
            (c.attack > t.attack ==> r == Regs(Hold, 0, 0, c.decay, Level(1.0))) &&
            (c.attack <= t.attack ==>
               r.phase == Idle && r.hold == c.hold && r.decay == c.decay &&
               (c.attack < UINT32_MAX ==> r.attack == c.attack + 1) &&
               (c.attack == UINT32_MAX ==> r.attack == 0 && r.gain == Level(0.0)) &&
               (r.attack != 0 && t.attack != 0 ==>
                  r.gain == Level((r.attack * r.attack) as real / (t.attack * t.attack) as real)))
  {
  }

  /** HOLD keeps the gate fully open; a loud sample restarts the hold count, and a quiet
      one counts up to the hold time and then starts the decay. */
  lemma HoldStep(c: Regs, t: Times, aboveUpper: bool, aboveLower: bool)
    requires InRange(c) && TimesInRange(t) && c.phase == Hold
    ensures var r := Step(c, t, aboveUpper, aboveLower);
            r.gain == Level(1.0) && r.attack == c.attack &&
            (aboveLower ==> r.phase == Hold && r.hold == 0 && r.decay == c.decay) &&
            (!aboveLower && c.hold < t.hold ==> r.phase == Hold && r.hold == c.hold + 1 && r.decay == c.decay) &&
            (!aboveLower && c.hold >= t.hold ==> r.phase == Decay && r.decay == 0 && r.hold == c.hold)
  {
  }

  /** DECAY ignores the level: it closes once the decay count has passed the decay time
      and counts one more sample otherwise. */
  lemma DecayStep(c: Regs, t: Times, u1: bool, l1: bool, u2: bool, l2: bool)
    requires InRange(c) && TimesInRange(t) && c.phase == Decay
    ensures Step(c, t, u1, l1) == Step(c, t, u2, l2)
    ensures var r := Step(c, t, u1, l1);
            r.attack == c.attack && r.hold == c.hold &&
            (c.decay > t.decay ==> r.phase == Idle && r.gain == Level(0.0) && r.decay == c.decay) &&
            (c.decay <= t.decay ==> r.phase == Decay && r.decay == Inc(c.decay)) &&
            (c.decay == 0 ==> r.gain == Level(1.0))
  {
  }

  /** The only moves are IDLE to HOLD, HOLD to DECAY and DECAY to IDLE, each exactly when
      its counter condition holds. */
  lemma Transitions(c: Regs, t: Times, aboveUpper: bool, aboveLower: bool)
    requires InRange(c) && TimesInRange(t)
    ensures var r := Step(c, t, aboveUpper, aboveLower);
            (r.phase == c.phase || r.phase == Next(c.phase)) &&
            (r.phase != c.phase <==>
               match c.phase
               case Idle => aboveUpper && c.attack > t.attack
               case Hold => !aboveLower && c.hold >= t.hold
               case Decay => c.decay > t.decay)
  {
  }

  /** The gain is +inf exactly when an opening IDLE step divides by a zero attack time. */
  lemma InfiniteGain(c: Regs, t: Times, aboveUpper: bool, aboveLower: bool)
    requires InRange(c) && TimesInRange(t)
    ensures Step(c, t, aboveUpper, aboveLower).gain == Infinite <==>
              c.phase == Idle && aboveUpper && t.attack == 0 && c.attack == 0
  {
  }

  lemma SquareQuotient(n: nat, d: nat)
    requires 0 < d && n <= d
    ensures 0.0 <= (n * n) as real / (d * d) as real <= 1.0
    ensures n < d ==> (n * n) as real / (d * d) as real < 1.0
  {
    assert n * n <= n * d <= d * d;
    if n < d {
      assert n * d < d * d;
    }
  }

  lemma SquareQuotientAbove(n: nat, d: nat)
    requires 0 < d < n
    ensures (n * n) as real / (d * d) as real > 1.0
  {
    assert d * d < d * n < n * n;
  }

  /** With a positive attack time the gain is finite and not negative, and it exceeds 1
      only on the attack step whose count lands one past the attack time. */
  lemma GainRange(c: Regs, t: Times, aboveUpper: bool, aboveLower: bool)
    requires InRange(c) && TimesInRange(t) && t.attack > 0
    ensures var r := Step(c, t, aboveUpper, aboveLower);
            r.gain.Level? && 0.0 <= r.gain.value &&
            (r.gain.value > 1.0 <==> r.phase == Idle && c.phase == Idle && aboveUpper && r.attack == t.attack + 1)
  {
    var r := Step(c, t, aboveUpper, aboveLower);
    match c.phase
    case Idle =>
      if aboveUpper && c.attack <= t.attack && r.attack != 0 {
        if r.attack <= t.attack {
          SquareQuotient(r.attack, t.attack);
        } else {
          SquareQuotientAbove(r.attack, t.attack);
        }
      }
    case Hold =>
    case Decay =>
      if 0 < c.decay <= t.decay {
        SquareQuotient(t.decay - c.decay, t.decay);
      }
  }

  /** Counters never run past their times by more than one sample. */
  predicate Bounded(c: Regs, t: Times)
  {
    c.attack <= t.attack + 1 && c.hold <= t.hold && c.decay <= t.decay + 1
  }

  lemma StepKeepsBounded(c: Regs, t: Times, aboveUpper: bool, aboveLower: bool)
    requires InRange(c) && TimesInRange(t) && Bounded(c, t)
    ensures Bounded(Step(c, t, aboveUpper, aboveLower), t)
  {
  }

  /** The state after one step per entry of `ls`. */
  function After(c: Regs, t: Times, ls: seq<Levels>): (r: Regs)
    requires InRange(c) && TimesInRange(t)
    ensures InRange(r)
    decreases |ls|
  {
    if |ls| == 0 then c else After(Step(c, t, ls[0].aboveUpper, ls[0].aboveLower), t, ls[1..])
  }

  /** A level held above the upper threshold opens the gate after exactly
      attackTime + 2 - attackCounter samples, unless the attack time is the largest
      uint32, which no count can pass. */
  lemma {:induction false} AttackOpens(c: Regs, t: Times, ls: seq<Levels>)
    requires InRange(c) && TimesInRange(t) && c.phase == Idle
    requires t.attack < UINT32_MAX && c.attack <= t.attack + 1
    requires |ls| == t.attack + 2 - c.attack
    requires forall i :: 0 <= i < |ls| ==> ls[i].aboveUpper
    ensures var r := After(c, t, ls);
            r.phase == Hold && r.attack == 0 && r.hold == 0 && r.gain == Level(1.0)
    decreases |ls|
  {
    var c' := Step(c, t, ls[0].aboveUpper, ls[0].aboveLower);
    if c.attack <= t.attack {
      AttackOpens(c', t, ls[1..]);
    }
  }

  /** Once decay has started, the gate closes after exactly decayTime + 2 - decayCounter
      samples whatever the level, unless the decay time is the largest uint32. */
  lemma {:induction false} DecayCloses(c: Regs, t: Times, ls: seq<Levels>)
    requires InRange(c) && TimesInRange(t) && c.phase == Decay
    requires t.decay < UINT32_MAX && c.decay <= t.decay + 1
    requires |ls| == t.decay + 2 - c.decay
    ensures var r := After(c, t, ls);
            r.phase == Idle && r.gain == Level(0.0) && r.attack == c.attack
    decreases |ls|
  {
    var c' := Step(c, t, ls[0].aboveUpper, ls[0].aboveLower);
    if c.decay <= t.decay {
      DecayCloses(c', t, ls[1..]);
    }
  }

  /** gate_t. */
  class Gate {
    var alpha: real
    var rmsValue: real
    var keyValue: real
    var upperThreshold: real
    var lowerThreshold: real
    var gainFactor: Gain
    var attackTime: nat
    var decayTime: nat
    var holdTime: nat
    var attackCounter: nat
    var decayCounter: nat
    var holdCounter: nat
    var currentState: Phase
    var tau: nat
    var window: Ringbuffer

    ghost predicate Valid()
      reads this, window, window.buffer
    {
      window.Valid() && InRange(Registers()) && TimesInRange(Durations())
    }

    function Registers(): Regs
      reads this
    {
      Regs(currentState, attackCounter, holdCounter, decayCounter, gainFactor)
    }

    function Durations(): Times
      reads this
    {
      Times(attackTime, holdTime, decayTime)
    }

    constructor ()
      ensures Valid() && fresh(window) && fresh(window.buffer)
      ensures Registers() == Regs(Idle, 0, 0, 0, Level(0.0)) && Durations() == Times(0, 0, 0)
      ensures window.Cleared(CAPACITY)
    {
      alpha, rmsValue, keyValue, upperThreshold, lowerThreshold := 1.0, 0.0, 0.0, 0.0, 0.0;
      attackTime, decayTime, holdTime := 0, 0, 0;
      attackCounter, decayCounter, holdCounter := 0, 0, 0;
      currentState, tau, gainFactor := Idle, 0, Level(0.0);
      window := new Ringbuffer(CAPACITY);
    }

    /** gate_init: IDLE, every counter and time 0, gain 0, thresholds 0, and an empty
        window of GATE_RINGBUFFER_SIZE slots. */
    method Init()
      requires window.buffer.Length == CAPACITY
      modifies this, window, window.buffer
      ensures Valid() && window == old(window)
      ensures Registers() == Regs(Idle, 0, 0, 0, Level(0.0)) && Durations() == Times(0, 0, 0)
      ensures alpha == 1.0 && rmsValue == 0.0 && keyValue == 0.0 && tau == 0
      ensures upperThreshold == 0.0 && lowerThreshold == 0.0
      ensures window.Cleared(CAPACITY)
    {
      ResetFields();
      window.Clear(CAPACITY);
    }

    /** The scalar half of gate_init. */
    method ResetFields()
      modifies this
      ensures window == old(window)
      ensures Registers() == Regs(Idle, 0, 0, 0, Level(0.0)) && Durations() == Times(0, 0, 0)
      ensures alpha == 1.0 && rmsValue == 0.0 && keyValue == 0.0 && tau == 0
      ensures upperThreshold == 0.0 && lowerThreshold == 0.0
    {
      ResetLevels();
      ResetMachine();
    }

    /** The filter and threshold fields of gate_init. */
    method ResetLevels()
      modifies this`alpha, this`rmsValue, this`keyValue, this`upperThreshold, this`lowerThreshold, this`tau
      ensures alpha == 1.0 && rmsValue == 0.0 && keyValue == 0.0 && tau == 0
      ensures upperThreshold == 0.0 && lowerThreshold == 0.0
    {
      alpha := 1.0;
      rmsValue := 0.0;
      keyValue := 0.0;
      upperThreshold := 0.0;
      lowerThreshold := 0.0;
      tau := 0;
    }

    /** The state machine fields of gate_init. */
    method ResetMachine()
      modifies this`attackTime, this`decayTime, this`holdTime, this`attackCounter, this`decayCounter,
               this`holdCounter, this`currentState, this`gainFactor
      ensures Registers() == Regs(Idle, 0, 0, 0, Level(0.0)) && Durations() == Times(0, 0, 0)
    {
      attackTime := 0;
      decayTime := 0;
      holdTime := 0;
      attackCounter := 0;
      decayCounter := 0;
      holdCounter := 0;
      currentState := Idle;
      gainFactor := Level(0.0);
    }

    /** gate_run: the sample enters the window, whose power is the key value; IDLE and
        HOLD take the level from it, then the machine steps and the output is the input
        times the new gain. */
    method Run(input: real) returns (out: Sample)
      requires Valid()
      modifies this`keyValue, this`rmsValue, this`currentState, this`attackCounter, this`holdCounter,
               this`decayCounter, this`gainFactor
      modifies window`back, window`front, window`size, window`power, window`samples, window.buffer
      ensures Valid() && window == old(window)
      ensures Durations() == old(Durations())
      ensures upperThreshold == old(upperThreshold) && lowerThreshold == old(lowerThreshold)
      ensures alpha == old(alpha) && tau == old(tau) && window.S == old(window.S)
      ensures keyValue == window.power
      ensures window.power == old(window.power) + Share(Abs(input), window.S) -
                              (if old(window.size) == window.S then old(window.samples)[0] else 0.0)
      ensures forall i :: 0 <= i < CAPACITY && i != window.back ==> window.buffer[i] == old(window.buffer[i])
      ensures window.samples ==
                (if old(window.size) == old(window.S) then old(window.samples)[1..] else old(window.samples)) +
                [Share(Abs(input), window.S)]
      ensures old(window.power) == Sum(old(window.samples)) ==> keyValue == Sum(window.samples)
      ensures rmsValue == if old(currentState) == Decay then old(rmsValue) else Abs(keyValue) * RMS_FACTOR
      ensures Registers() == Step(old(Registers()), Durations(), rmsValue > upperThreshold, rmsValue > lowerThreshold)
      ensures out == Scale(input, gainFactor)
    {
      Listen(input);
      Advance();
      out := Scale(input, gainFactor);
    }

    /** The first line of gate_run: the key value is the power of the window with the
        sample pushed. */
    method Listen(input: real)
      requires window.Valid()
      modifies this`keyValue, window`back, window`front, window`size, window`power, window`samples, window.buffer
      ensures window.Valid() && keyValue == window.power
      ensures window.power == old(window.power) + Share(Abs(input), window.S) -
                              (if old(window.size) == window.S then old(window.samples)[0] else 0.0)
      ensures forall i :: 0 <= i < CAPACITY && i != window.back ==> window.buffer[i] == old(window.buffer[i])
      ensures window.samples ==
                (if old(window.size) == window.S then old(window.samples)[1..] else old(window.samples)) +
                [Share(Abs(input), window.S)]
      ensures old(window.power) == Sum(old(window.samples)) ==> keyValue == Sum(window.samples)
    {
      keyValue := window.PushAndCalculatePower(input);
    }

    /** The switch of gate_run on the current state. */
    method Advance()
      requires InRange(Registers()) && TimesInRange(Durations())
      modifies this`rmsValue, this`currentState, this`attackCounter, this`holdCounter, this`decayCounter, this`gainFactor
      ensures rmsValue == if old(currentState) == Decay then old(rmsValue) else Abs(keyValue) * RMS_FACTOR
      ensures Registers() == Step(old(Registers()), Durations(), rmsValue > upperThreshold, rmsValue > lowerThreshold)
    {
      match currentState {
        case Idle => StepIdle();
        case Hold => StepHold();
        case Decay => StepDecay();
      }
    }

    /** The IDLE case of gate_run's switch. */
    method StepIdle()
      requires InRange(Registers()) && TimesInRange(Durations()) && currentState == Idle
      modifies this`rmsValue, this`currentState, this`attackCounter, this`holdCounter, this`gainFactor
      ensures rmsValue == Abs(keyValue) * RMS_FACTOR
      ensures Registers() == Step(old(Registers()), Durations(), rmsValue > upperThreshold, rmsValue > lowerThreshold)
    {
      rmsValue := Abs(keyValue) * RMS_FACTOR;
      if rmsValue > upperThreshold {
        if attackCounter > attackTime {
          currentState := Hold;
          holdCounter := 0;
          attackCounter := 0;
          gainFactor := Level(1.0);
        } else {
          attackCounter := Inc(attackCounter);
          if attackCounter != 0 {
            gainFactor := Ramp(attackCounter, attackTime);
          } else {
            gainFactor := Level(0.0);
          }
        }
      } else {
        gainFactor := Level(0.0);
      }
    }

    /** The HOLD case of gate_run's switch; its last test, holdCounter >= holdTime, always
        holds once the one before it failed. */
    method StepHold()
      requires InRange(Registers()) && TimesInRange(Durations()) && currentState == Hold
      modifies this`rmsValue, this`currentState, this`holdCounter, this`decayCounter, this`gainFactor
      ensures rmsValue == Abs(keyValue) * RMS_FACTOR
      ensures Registers() == Step(old(Registers()), Durations(), rmsValue > upperThreshold, rmsValue > lowerThreshold)
    {
      rmsValue := Abs(keyValue) * RMS_FACTOR;
      if rmsValue > lowerThreshold {
        holdCounter := 0;
      } else if holdCounter < holdTime {
        holdCounter := holdCounter + 1;
      } else {
        currentState := Decay;
        decayCounter := 0;
      }
      gainFactor := Level(1.0);
    }

    /** The DECAY case of gate_run's switch. The source's difference decayCounter -
        decayTime is never positive there and is only squared, so its negation is used. */
    method StepDecay()
      requires InRange(Registers()) && TimesInRange(Durations()) && currentState == Decay
      modifies this`currentState, this`decayCounter, this`gainFactor
      ensures Registers() == Step(old(Registers()), Durations(), rmsValue > upperThreshold, rmsValue > lowerThreshold)
    {
      if decayCounter > decayTime {
        currentState := Idle;
        gainFactor := Level(0.0);
      } else if decayCounter != 0 {
        var dif := decayTime - decayCounter;
        decayCounter := Inc(decayCounter);
        gainFactor := Ramp(dif, decayTime);
      } else {
        decayCounter := decayCounter + 1;
        gainFactor := Level(1.0);
      }
    }

    /** gate_apply: the input times the current gain, with no step. */
    method Apply(input: real) returns (out: Sample)
      ensures out == Scale(input, gainFactor)
    {
      out := Scale(input, gainFactor);
    }
  }
}
