/** The control engine of app.py: the shared `state` record, the serial
    line as a log of sent commands, the web handlers, one pass of the
    sensor loop and the decay loop, each run as one uninterrupted step. */
module Engine {
  import opened Common
  import opened ConfCodec
  import opened Elements
  import opened ColorMatch
  import opened Protocol

  /** What reaches the controller: everything when the port opened at
      start-up, nothing otherwise (`if ser: ser.write(...)`). */
  function Gate(connected: bool, cmds: seq<string>): (out: seq<string>)
    ensures connected ==> out == cmds
    ensures !connected ==> out == []
  {
    if connected then cmds else []
  }

  lemma GateAppend(connected: bool, a: seq<string>, b: seq<string>)
    ensures Gate(connected, a + b) == Gate(connected, a) + Gate(connected, b)
  {
  }

  /** Lines sent in two steps are the gated concatenation of both. */
  lemma SentStep(s0: seq<string>, s1: seq<string>, s2: seq<string>, connected: bool, a: seq<string>, b: seq<string>)
    requires s1 == s0 + Gate(connected, a) && s2 == s1 + Gate(connected, b)
    ensures s2 == s0 + Gate(connected, a + b)
  {
    GateAppend(connected, a, b);
    assert s0 + (Gate(connected, a) + Gate(connected, b)) == (s0 + Gate(connected, a)) + Gate(connected, b);
  }

  /** The colour reaction of a sensor tick in mode 2: only outside the demo,
      only with a sample, and only for a recognised colour. */
  function ColourReaction(mode: int, demo: bool, card: seq<Calibration>, sample: Option<Rgb>, base: string): seq<string>
  {
    if mode == 2 && !demo && sample.Some? && Classify(card, sample.value) != "None"
    then TransitionCommands(Classify(card, sample.value), base)
    else []
  }

  class SharedState {
    var mode: int
    var mode2Demo: bool
    var mode2Base: string
    /** The temperature in tenths of a degree. */
    var temp10: int
    var solar: int
    var decayCount: int
    var decayHalfLife: int
    var decayRunning: bool
    /** Whether the serial port opened at start-up. */
    const connected: bool
    /** The colour card read at start-up (empty when the file is missing). */
    const knownColors: seq<Calibration>
    /** Every line written to the controller, oldest first. */
    var sent: seq<string>

    /** The initial `state` record. */
    constructor (connected: bool, knownColors: seq<Calibration>)
      ensures this.connected == connected && this.knownColors == knownColors
      ensures mode == 1 && mode2Demo && mode2Base == "Hydrogen"
      ensures temp10 == 0 && solar == 0
      ensures decayCount == DecayStart && decayHalfLife == 10 && !decayRunning
      ensures sent == []
    {
      this.connected := connected;
      this.knownColors := knownColors;
      mode := 1;
      mode2Demo := true;
      mode2Base := "Hydrogen";
      temp10 := 0;
      solar := 0;
      decayCount := DecayStart;
      decayHalfLife := 10;
      decayRunning := false;
      sent := [];
    }

    /** `send_arduino(cmd)`. */
    method Send(cmd: string)
      modifies this`sent
      ensures sent == old(sent) + Gate(connected, [cmd])
    {
      if connected {
        sent := sent + [cmd];
      }
    }

    /** `set_mode(m)`: switch mode, stop any decay run, reset the display
        and announce the new mode. */
    method SetMode(m: int)
      modifies this`mode, this`decayRunning, this`sent
      ensures mode == m && !decayRunning
      ensures sent == old(sent) + Gate(connected, SetModeCommands(m, mode2Base))
    {
      mode := m;
      decayRunning := false;
      ghost var s0 := sent;
      Send("MODE:NORMAL");
      Send("SPEED:1.0");
      Send("COLOR:0,255,255");
      ghost var s1 := sent;
      assert s1 == s0 + Gate(connected, ResetCommands);
      if m == 6 {
        Send("MODE:RADIO_ON");
        Send("CONF:2,8,8,16");
      }
      ghost var s2 := sent;
      SentStep(s0, s1, s2, connected, ResetCommands, if m == 6 then ["MODE:RADIO_ON", "CONF:2,8,8,16"] else []);
      if m == 5 {
        Send("MODE:BAND_ON");
      }
      ghost var s3 := sent;
      SentStep(s0, s2, s3, connected, ResetCommands + (if m == 6 then ["MODE:RADIO_ON", "CONF:2,8,8,16"] else []),
        if m == 5 then ["MODE:BAND_ON"] else []);
      if m == 2 {
        Send(Conf(ElementConf(mode2Base)));
      }
      SentStep(s0, s3, sent, connected, ResetCommands + (if m == 6 then ["MODE:RADIO_ON", "CONF:2,8,8,16"] else [])
        + (if m == 5 then ["MODE:BAND_ON"] else []), if m == 2 then [Conf(ElementConf(mode2Base))] else []);
    }

    /** `set_mode2_type(type)`: demo mode exactly for "demo". */
    method SetMode2Type(kind: string)
      modifies this`mode2Demo
      ensures mode2Demo <==> kind == "demo"
    {
      mode2Demo := kind == "demo";
    }

    /** `set_mode2_base(elem)`: remember the base element and, in mode 2,
        show it at once. */
    method SetMode2Base(elem: string)
      modifies this`mode2Base, this`sent
      ensures mode2Base == elem
      ensures sent == old(sent) + Gate(connected, if mode == 2 then [Conf(ElementConf(elem))] else [])
    {
      mode2Base := elem;
      if mode == 2 {
        Send(Conf(ElementConf(elem)));
      }
    }

    /** `process_transition(color)`. */
    method ProcessTransition(color: string)
      modifies this`sent
      ensures sent == old(sent) + Gate(connected, TransitionCommands(color, mode2Base))
    {
      if color == "White" {
        Send("FLASH:0,0,255");
        Send(Conf(ElementConf(mode2Base)));
        return;
      }
      if color == "Red" {
        Send("CONF:0,1,0,0");
      } else if color == "Blue" {
        Send("CONF:0,0,1,0");
      } else if color == "Violet" {
        Send("CONF:0,0,0,1");
      }
    }

    /** `mode2_sim(color)`: a simulated colour acts only in mode 2. */
    method Mode2Sim(color: string)
      modifies this`sent
      ensures sent == old(sent) + Gate(connected, if mode == 2 then TransitionCommands(color, mode2Base) else [])
    {
      if mode == 2 {
        ProcessTransition(color);
      }
    }

    /** `load_element(element)`: show a known element; ignore anything
        else. */
    method LoadElement(element: string)
      modifies this`sent
      ensures element in ElementTable ==> sent == old(sent) + Gate(connected, [Conf(ElementTable[element])])
      ensures element !in ElementTable ==> sent == old(sent)
    {
      if element in ElementTable {
        Send(Conf(ElementTable[element]));
      }
    }

    /** `set_halflife(val)`: any integer is accepted. */
    method SetHalfLife(val: int)
      modifies this`decayHalfLife
      ensures decayHalfLife == val
    {
      decayHalfLife := val;
    }

    /** `start_decay()`. */
    method StartDecay()
      modifies this`decayRunning
      ensures decayRunning
    {
      decayRunning := true;
    }

    /** One pass of `sensor_logic`. A reading that raised is `None` and
        leaves its field alone; `sample` is `None` when there is no colour
        sensor, the 1.5 s gate is closed or the read failed; `speedText` is
        the printed form of the mode-3 speed. */
    method SensorTick(tempReading: Option<int>, adc: Option<(Byte, Byte)>, sample: Option<Rgb>, speedText: string)
      modifies this`temp10, this`solar, this`sent
      ensures temp10 == (if tempReading.Some? then tempReading.value else old(temp10))
      ensures solar == (if adc.Some? then ReadSolar(adc.value.0, adc.value.1) else old(solar))
      ensures sent == old(sent) + Gate(connected,
        ColourReaction(mode, mode2Demo, knownColors, sample, mode2Base) + ModeTickCommands(mode, temp10, solar, speedText))
    {
      UpdateReadings(tempReading, adc);
      ghost var colour := ColourReaction(mode, mode2Demo, knownColors, sample, mode2Base);
      ghost var tick := ModeTickCommands(mode, temp10, solar, speedText);
      ghost var s0 := sent;
      ColourStep(sample);
      ghost var s1 := sent;
      ModeStep(speedText);
      SentStep(s0, s1, sent, connected, colour, tick);
    }

    /** The reading part of a sensor pass: store the temperature and the
        decoded solar value, each only when its read succeeded. */
    method UpdateReadings(tempReading: Option<int>, adc: Option<(Byte, Byte)>)
      modifies this`temp10, this`solar
      ensures temp10 == (if tempReading.Some? then tempReading.value else old(temp10))
      ensures solar == (if adc.Some? then ReadSolar(adc.value.0, adc.value.1) else old(solar))
    {
      if tempReading.Some? {
        temp10 := tempReading.value;
      }
      if adc.Some? {
        solar := ReadSolar(adc.value.0, adc.value.1);
      }
    }

    /** The mode-2 part of a sensor pass: classify the sample and react to
        a recognised colour. */
    method ColourStep(sample: Option<Rgb>)
      modifies this`sent
      ensures sent == old(sent) + Gate(connected, ColourReaction(mode, mode2Demo, knownColors, sample, mode2Base))
    {
      if mode == 2 && !mode2Demo && sample.Some? {
        var det := GetClosestColor(knownColors, sample.value);
        if det != "None" {
          ProcessTransition(det);
        }
      }
    }

    /** The mode 3 / 4 / 5 part of a sensor pass. */
    method ModeStep(speedText: string)
      modifies this`sent
      ensures sent == old(sent) + Gate(connected, ModeTickCommands(mode, temp10, solar, speedText))
    {
      if mode == 3 {
        ThermoStep(speedText);
      } else if mode == 4 {
        PhotoStep();
      } else if mode == 5 {
        BandStep();
      }
    }

    /** Mode 3: speed from the temperature, its colour band, then carbon. */
    method ThermoStep(speedText: string)
      modifies this`sent
      ensures sent == old(sent) + Gate(connected, Mode3Commands(temp10, speedText))
    {
      Send("SPEED:" + speedText);
      var diff10 := Max(0, temp10 - 250);
      if diff10 > 20 {
        Send("COLOR:255,0,0");
      } else if diff10 > 5 {
        Send("COLOR:255,255,0");
      } else {
        Send("COLOR:0,255,0");
      }
      Send("CONF:2,4,0,0");
    }

    /** Mode 4: a configuration by light level, then the speed. */
    method PhotoStep()
      modifies this`sent
      ensures sent == old(sent) + Gate(connected, Mode4Commands(solar))
    {
      var s := solar;
      if s < 30 {
        Send("CONF:0,0,0,0");
      } else if s < 100 {
        Send("CONF:1,0,0,0");
      } else if s < 180 {
        Send("CONF:2,4,0,0");
      } else {
        Send("CONF:2,8,8,4");
      }
      Send("SPEED:2.0");
    }

    /** Mode 5: conduction band above a light level of 180, valence band
        otherwise. */
    method BandStep()
      modifies this`sent
      ensures sent == old(sent) + Gate(connected, Mode5Commands(solar))
    {
      var s := solar;
      if s > 180 {
        Send("CONF:2,8,0,4");
        Send("COLOR:255,200,0");
      } else {
        Send("CONF:2,8,4,0");
        Send("COLOR:0,0,255");
      }
    }

    /** One iteration of the inner decay loop with the new count `rem`
        (from the elapsed time and the half-life) and the two draws of
        `randint(0, 10)` it may use: report the lost nuclei as events, then
        show what remains on the rings. */
    method DecayTick(rem: nat, draws: seq<int>)
      requires |draws| == 2
      modifies this`decayCount, this`sent
      ensures decayCount == rem
      ensures sent == old(sent) + Gate(connected, TickCommands(old(decayCount), rem, draws))
    {
      var lost := decayCount - rem;
      decayCount := rem;
      ghost var start := sent;
      if lost > 0 {
        var events := Min(lost, 2);
        for e := 0 to events
          invariant decayCount == rem
          invariant sent == start + Gate(connected, Events(draws[..e]))
        {
          if draws[e] > 7 {
            Send("DECAY:ALPHA");
          } else {
            Send("DECAY:BETA");
          }
          assert draws[..e + 1] == draws[..e] + [draws[e]];
          EventsSnoc(draws[..e], draws[e]);
        }
      }
      var left := rem;
      var k := Min(left, 2);
      left := left - k;
      var l := Min(left, 8);
      left := left - l;
      var m := Min(left, 12);
      left := left - m;
      var n := Min(left, 16);
      assert [k, l, m, n] == DecaySplit(rem);
      Send("CONF:" + ConfText([k, l, m, n]));
    }

    /** One pass of the outer `decay_logic` loop. In mode 6 with a run
        started, the count restarts at 43 and one tick is taken per entry
        of `rems` until the count reaches 0 (mode and flag cannot change
        within a pass here). Nothing clears `decay_running` at the end, so
        the next pass starts a fresh run. */
    method DecayPass(rems: seq<nat>, draws: seq<seq<int>>)
      requires |draws| == |rems| && ValidDraws(draws)
      modifies this`decayCount, this`sent
      ensures !(mode == 6 && decayRunning) ==> decayCount == old(decayCount) && sent == old(sent)
      ensures mode == 6 && decayRunning ==>
        decayCount == RunFinal(DecayStart, rems) &&
        sent == old(sent) + Gate(connected, RunCommands(DecayStart, rems, draws))
    {
      if mode == 6 && decayRunning {
        decayCount := DecayStart;
        DecayRun(rems, draws);
      }
    }

    /** The ticks of a run from the current count: one per entry of `rems`
        while the count stays positive. The loop's own re-check of the mode
        and the flag always passes here, as nothing else runs during a
        pass, so it is made once by the caller. */
    method DecayRun(rems: seq<nat>, draws: seq<seq<int>>)
      requires |draws| == |rems| && ValidDraws(draws)
      modifies this`decayCount, this`sent
      ensures decayCount == RunFinal(old(decayCount), rems)
      ensures sent == old(sent) + Gate(connected, RunCommands(old(decayCount), rems, draws))
    {
      ghost var whole := RunCommands(decayCount, rems, draws);
      ghost var final := RunFinal(decayCount, rems);
      ghost var done: seq<string> := [];
      var t := 0;
      while t < |rems| && decayCount > 0
        invariant 0 <= t <= |rems|
        invariant RunFinal(decayCount, rems[t..]) == final
        invariant whole == done + RunCommands(decayCount, rems[t..], draws[t..])
        invariant sent == old(sent) + Gate(connected, done)
        decreases |rems| - t
      {
        RunAdvance(whole, done, decayCount, rems, draws, t);
        ghost var tick := TickCommands(decayCount, rems[t], draws[t]);
        ghost var before := sent;
        DecayTick(rems[t], draws[t]);
        SentStep(old(sent), before, sent, connected, done, tick);
        done := done + tick;
        t := t + 1;
      }
      RunDone(decayCount, rems[t..], draws[t..]);
    }
  }

  /** Switching to the same mode twice sends the same lines twice: the
      commands depend only on the mode and the base element. */
  method SetModeTwice(st: SharedState, m: int)
    modifies st`mode, st`decayRunning, st`sent
    ensures st.sent == old(st.sent) + Gate(st.connected, SetModeCommands(m, st.mode2Base))
      + Gate(st.connected, SetModeCommands(m, st.mode2Base))
  {
    st.SetMode(m);
    st.SetMode(m);
  }

  /** A mode switch ends a decay run: a decay pass right after it sends
      nothing, even when the switch was to mode 6 itself. */
  method SwitchStopsDecay(st: SharedState, m: int, rems: seq<nat>, draws: seq<seq<int>>)
    requires |draws| == |rems| && ValidDraws(draws)
    modifies st`mode, st`decayRunning, st`sent, st`decayCount
    ensures st.sent == old(st.sent) + Gate(st.connected, SetModeCommands(m, st.mode2Base))
    ensures st.decayCount == old(st.decayCount)
  {
    st.SetMode(m);
    st.DecayPass(rems, draws);
  }
}
