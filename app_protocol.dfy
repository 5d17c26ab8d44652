/** The commands app.py sends to the ring controller, as functions of the
    state they depend on: the mode switch, the colour transitions, the
    per-tick commands of modes 3 to 5 and one tick of the decay demo. The
    solar ADC decode sits here too. */
module Protocol {
  import opened Common
  import opened ShellFill
  import opened ConfCodec
  import opened Elements

  // ---------------------------------------------------------------------
  // read_solar

  /** One byte of an SPI reply. */
  newtype Byte = x: int | 0 <= x < 256

  /** `((adc[1] & 3) << 8) + adc[2]`: the 10-bit reading of the MCP3008
      from the second and third bytes of its reply. Masking a byte with 3
      keeps its low two bits, its value modulo 4, and shifting left by 8
      multiplies by 256. */
  function ReadSolar(hi: Byte, lo: Byte): (v: nat)
    ensures v <= 1023
  {
    (hi as int % 4) * 256 + lo as int
  }

  /** The two reply bytes that carry a 10-bit reading. */
  function SolarBytes(v: nat): (bytes: (Byte, Byte))
    requires v <= 1023
  {
    ((v / 256) as Byte, (v % 256) as Byte)
  }

  /** Every 10-bit value is read back from its bytes ... */
  lemma ReadSolarBytes(v: nat)
    requires v <= 1023
    ensures ReadSolar(SolarBytes(v).0, SolarBytes(v).1) == v
  {
    var q, r := v / 256, v % 256;
    assert q < 4 && v == q * 256 + r;
    assert q % 4 == q;
  }

  /** ... and a reading depends only on the low two bits of the first
      byte and on the second. */
  lemma SolarBytesRead(hi: Byte, lo: Byte)
    ensures SolarBytes(ReadSolar(hi, lo)) == ((hi as int % 4) as Byte, lo)
  {
    var h := hi as int % 4;
    var v := ReadSolar(hi, lo);
    assert v == h * 256 + lo as int;
    assert v / 256 == h && v % 256 == lo as int;
  }

  // ---------------------------------------------------------------------
  // Command lines.

  function Conf(text: string): string { "CONF:" + text }

  /** Every mode switch starts by resetting the display. */
  const ResetCommands: seq<string> := ["MODE:NORMAL", "SPEED:1.0", "COLOR:0,255,255"]

  /** Lines sent by `set_mode(m)` with `base` the mode-2 base element. */
  function SetModeCommands(m: int, base: string): (cmds: seq<string>)
    ensures |cmds| >= 3 && cmds[..3] == ResetCommands
  {
    ResetCommands
    + (if m == 6 then ["MODE:RADIO_ON", "CONF:2,8,8,16"] else [])
    + (if m == 5 then ["MODE:BAND_ON"] else [])
    + (if m == 2 then [Conf(ElementConf(base))] else [])
  }

  /** Lines sent by `process_transition(color)`. */
  function TransitionCommands(color: string, base: string): seq<string>
  {
    if color == "White" then ["FLASH:0,0,255", Conf(ElementConf(base))]
    else if color == "Red" then ["CONF:0,1,0,0"]
    else if color == "Blue" then ["CONF:0,0,1,0"]
    else if color == "Violet" then ["CONF:0,0,0,1"]
    else []
  }

  /** The thermometer colour for a temperature in tenths of a degree:
      `diff = max(0, temp - 25.0)` against 2.0 and 0.5. */
  function ThermoColor(temp10: int): string
  {
    var diff10 := Max(0, temp10 - 250);
    if diff10 > 20 then "COLOR:255,0,0" else if diff10 > 5 then "COLOR:255,255,0" else "COLOR:0,255,0"
  }

  /** Mode 3, thermodynamics: speed, colour, then carbon. The speed text
      is the float `1.0 + diff * 0.8` as Python prints it. */
  function Mode3Commands(temp10: int, speedText: string): seq<string>
  {
    ["SPEED:" + speedText, ThermoColor(temp10), "CONF:2,4,0,0"]
  }

  /** Mode 4, photoelectric: a configuration by light level, then speed. */
  function Mode4Commands(solar: int): seq<string>
  {
    [if solar < 30 then "CONF:0,0,0,0" else if solar < 100 then "CONF:1,0,0,0"
     else if solar < 180 then "CONF:2,4,0,0" else "CONF:2,8,8,4",
     "SPEED:2.0"]
  }

  /** Mode 5, band theory: conduction or valence configuration. */
  function Mode5Commands(solar: int): seq<string>
  {
    if solar > 180 then ["CONF:2,8,0,4", "COLOR:255,200,0"] else ["CONF:2,8,4,0", "COLOR:0,0,255"]
  }

  /** The mode 3 / 4 / 5 branch of one sensor tick; other modes send
      nothing there. */
  function ModeTickCommands(mode: int, temp10: int, solar: int, speedText: string): seq<string>
  {
    if mode == 3 then Mode3Commands(temp10, speedText)
    else if mode == 4 then Mode4Commands(solar)
    else if mode == 5 then Mode5Commands(solar)
    else []
  }

  // ---------------------------------------------------------------------
  // Properties of the command choice.

  /** The thermometer turns red above 27.0 degrees, yellow above 25.5 and
      is green otherwise, cold readings included. */
  lemma ThermoBands(temp10: int)
    ensures ThermoColor(temp10) == "COLOR:255,0,0" <==> temp10 > 270
    ensures ThermoColor(temp10) == "COLOR:255,255,0" <==> 255 < temp10 <= 270
    ensures ThermoColor(temp10) == "COLOR:0,255,0" <==> temp10 <= 255
  {
  }

  /** The number of electrons mode 4 shows for a light level. */
  function PhotoElectrons(solar: int): nat
  {
    if solar < 30 then 0 else if solar < 100 then 1 else if solar < 180 then 6 else 22
  }

  /** Mode 4 shows the chemical filling of a number of electrons that
      never drops as the light grows: nothing, hydrogen, carbon, then 22
      electrons. */
  lemma Mode4ShowsFilling(solar: int, brighter: int)
    requires solar <= brighter
    ensures Mode4Commands(solar)[0] == Conf(ConfText(Shells(PhotoElectrons(solar), ChemicalCaps)))
    ensures PhotoElectrons(solar) <= PhotoElectrons(brighter)
  {
    var z := PhotoElectrons(solar);
    ChemicalShells(z);
    var s := Shells(z, ChemicalCaps);
    ConfTextDigits(s[0], s[1], s[2], s[3]);
    assert s == [s[0], s[1], s[2], s[3]];
  }

  /** Mode 5 always shows fourteen electrons; the light only decides
      whether the outer four sit in the N shell or in the M shell. */
  lemma Mode5MovesFour(solar: int)
    ensures ParseCounts(Mode5Commands(solar)[0][5..]) ==
      Some(if solar > 180 then [2, 8, 0, 4] else [2, 8, 4, 0])
  {
    var c: seq<nat> := if solar > 180 then [2, 8, 0, 4] else [2, 8, 4, 0];
    ConfTextDigits(c[0], c[1], c[2], c[3]);
    assert c == [c[0], c[1], c[2], c[3]];
    assert Mode5Commands(solar)[0][5..] == ConfText(c);
    ParseConfText(c);
  }

  /** "White" flashes and returns to the base element's filling. */
  lemma WhiteRelaxes(base: string)
    ensures |TransitionCommands("White", base)| == 2
    ensures TransitionCommands("White", base)[0] == "FLASH:0,0,255"
    ensures ParseCounts(TransitionCommands("White", base)[1][5..]) == Some(Shells(AtomicNumber(base), ChemicalCaps))
  {
    ElementConfDecodes(base);
    assert Conf(ElementConf(base))[5..] == ElementConf(base);
  }

  /** "Red", "Blue" and "Violet" each excite one electron alone into L, M
      and N respectively; any other colour sends nothing. */
  lemma ColorExcites(color: string, base: string)
    requires color != "White"
    ensures color == "Red" || color == "Blue" || color == "Violet" ==>
      |TransitionCommands(color, base)| == 1 &&
      ParseCounts(TransitionCommands(color, base)[0][5..]) == Some(UnitShell(ExcitedShell(color)))
    ensures !(color == "Red" || color == "Blue" || color == "Violet") ==> TransitionCommands(color, base) == []
  {
    if color == "Red" || color == "Blue" || color == "Violet" {
      var c := UnitShell(ExcitedShell(color));
      ConfTextDigits(c[0], c[1], c[2], c[3]);
      assert c == [c[0], c[1], c[2], c[3]];
      assert TransitionCommands(color, base)[0][5..] == ConfText(c);
      ParseConfText(c);
    }
  }

  /** The shell a colour excites into: red L, blue M, violet N. */
  function ExcitedShell(color: string): (shell: nat)
    ensures 1 <= shell <= 3
  {
    if color == "Red" then 1 else if color == "Blue" then 2 else 3
  }

  /** One electron alone in the given shell. */
  function UnitShell(shell: nat): (c: seq<nat>)
    requires shell < 4
    ensures |c| == 4 && c[shell] == 1
    ensures forall i :: 0 <= i < 4 && i != shell ==> c[i] == 0
  {
    seq(4, i requires 0 <= i < 4 => if i == shell then 1 else 0)
  }

  /** The configuration a switch to mode 2 sends is the base element's
      filling (hydrogen for an unknown base); mode 6 announces the decay
      display, mode 5 the band display and every other mode only resets. */
  lemma SetModeConfs(m: int, base: string)
    ensures m == 2 ==> |SetModeCommands(m, base)| == 4
    ensures m == 2 ==> ParseCounts(SetModeCommands(m, base)[3][5..]) == Some(Shells(AtomicNumber(base), ChemicalCaps))
    ensures m == 6 ==> SetModeCommands(m, base)[3..] == ["MODE:RADIO_ON", "CONF:2,8,8,16"]
    ensures m == 5 ==> SetModeCommands(m, base)[3..] == ["MODE:BAND_ON"]
    ensures m != 2 && m != 5 && m != 6 ==> SetModeCommands(m, base) == ResetCommands
  {
    if m == 2 {
      ElementConfDecodes(base);
      assert SetModeCommands(m, base) == ResetCommands + [Conf(ElementConf(base))];
      assert Conf(ElementConf(base))[5..] == ElementConf(base);
    }
  }

  // ---------------------------------------------------------------------
  // One decay tick.

  /** The ring capacities the decay display fills: 2, 8, 12 and 16. */
  const DecayCaps: seq<nat> := [2, 8, 12, 16]

  /** Nuclei remaining at the start of a run. */
  const DecayStart := 43

  /** `k = min(rem, 2); rem -= k; l = min(rem, 8); ...; n = min(rem, 16)`. */
  function DecaySplit(rem: nat): (s: seq<nat>)
    ensures |s| == 4
  {
    var k := Min(rem, 2);
    var l := Min(rem - k, 8);
    var m := Min(rem - k - l, 12);
    var n := Min(rem - k - l - m, 16);
    [k, l, m, n]
  }

  /** The split is the inner-to-outer filling of the rings' capacities: each
      ring within its size, outer rings only once the inner are full, and
      `min(rem, 38)` nuclei shown in all. */
  lemma DecaySplitFills(rem: nat)
    ensures DecaySplit(rem) == Shells(rem, DecayCaps)
    ensures forall i :: 0 <= i < 4 ==> DecaySplit(rem)[i] <= DecayCaps[i]
    ensures forall i, j :: 0 <= i < j < 4 && DecaySplit(rem)[j] > 0 ==> DecaySplit(rem)[i] == DecayCaps[i]
    ensures Sum(DecaySplit(rem)) == Min(rem, 38)
  {
    DecaySplitIsShells(rem);
    FillWithinCaps(rem, DecayCaps);
    FillInnerFirst(rem, DecayCaps);
    FillTotal(rem, DecayCaps);
    SumFour(2, 8, 12, 16);
  }

  lemma DecaySplitIsShells(rem: nat)
    ensures DecaySplit(rem) == Shells(rem, DecayCaps)
  {
    ShellsFour(rem, DecayCaps);
  }

  function DecayConf(rem: nat): string
  {
    Conf(ConfText(DecaySplit(rem)))
  }

  /** A full sample (38 or more nuclei, the 43 of a fresh run included)
      fills every ring. */
  lemma FullSampleFillsRings(rem: nat)
    requires rem >= 38
    ensures DecayConf(rem) == "CONF:2,8,12,16"
  {
    assert DecaySplit(rem) == [2, 8, 12, 16];
    JoinFour("2", "8", "12", "16");
    assert NatToString(12) == "12" && NatToString(16) == "16";
    assert seq(4, i requires 0 <= i < 4 => NatToString(DecaySplit(rem)[i])) == ["2", "8", "12", "16"];
  }

  function EventLine(draw: int): string
  {
    if draw > 7 then "DECAY:ALPHA" else "DECAY:BETA"
  }

  /** Decay events shown for a tick that went from `count` to `rem` nuclei. */
  function EventCount(count: int, rem: int): nat
  {
    if count - rem > 0 then Min(count - rem, 2) else 0
  }

  /** The event lines for a sequence of draws, one per draw. */
  function Events(draws: seq<int>): (lines: seq<string>)
    ensures |lines| == |draws|
  {
    seq(|draws|, i requires 0 <= i < |draws| => EventLine(draws[i]))
  }

  lemma EventsSnoc(draws: seq<int>, x: int)
    ensures Events(draws + [x]) == Events(draws) + [EventLine(x)]
  {
    assert Events(draws + [x])[|draws|] == EventLine(x);
  }

  /** One decay tick: an event line per shown event (each using its own
      draw of `randint(0, 10)`), then the configuration of what remains. */
  function TickCommands(count: int, rem: nat, draws: seq<int>): seq<string>
    requires |draws| == 2
  {
    Events(draws[..EventCount(count, rem)]) + [DecayConf(rem)]
  }

  predicate IsEventLine(line: string) { line == "DECAY:ALPHA" || line == "DECAY:BETA" }

  /** Event lines in a command sequence. */
  function EventLines(cmds: seq<string>): nat
  {
    if cmds == [] then 0 else EventLines(cmds[..|cmds| - 1]) + (if IsEventLine(cmds[|cmds| - 1]) then 1 else 0)
  }

  /** Alpha lines in a command sequence. */
  function AlphaLines(cmds: seq<string>): nat
  {
    if cmds == [] then 0 else AlphaLines(cmds[..|cmds| - 1]) + (if cmds[|cmds| - 1] == "DECAY:ALPHA" then 1 else 0)
  }

  /** Draws above 7, the alpha outcomes of `randint(0, 10)`. */
  function HighDraws(draws: seq<int>): nat
  {
    if draws == [] then 0 else HighDraws(draws[..|draws| - 1]) + (if draws[|draws| - 1] > 7 then 1 else 0)
  }

  lemma {:induction false} EventLinesAppend(a: seq<string>, b: seq<string>)
    ensures EventLines(a + b) == EventLines(a) + EventLines(b)
    decreases |b|
  {
    if b != [] {
      assert (a + b)[..|a + b| - 1] == a + b[..|b| - 1];
      EventLinesAppend(a, b[..|b| - 1]);
    } else {
      assert a + b == a;
    }
  }

  /** Every event line is one, and it is the alpha line exactly for a draw
      above 7. */
  lemma EventLineKind(draw: int)
    ensures IsEventLine(EventLine(draw))
    ensures EventLine(draw) == "DECAY:ALPHA" <==> draw > 7
  {
    assert "DECAY:BETA"[6] != "DECAY:ALPHA"[6];
  }

  /** Event lines built from draws: one per draw, alpha for each high draw. */
  lemma {:induction false} EventsFromDraws(draws: seq<int>)
    ensures EventLines(Events(draws)) == |draws|
    ensures AlphaLines(Events(draws)) == HighDraws(draws)
  {
    if draws != [] {
      var front := draws[..|draws| - 1];
      EventsFromDraws(front);
      EventLineKind(draws[|draws| - 1]);
      assert Events(draws)[..|draws| - 1] == Events(front);
    }
  }

  /** Event lines followed by a line that is neither kind: the count of
      events and of alphas is the draws'. */
  lemma EventsThen(draws: seq<int>, last: string)
    requires !IsEventLine(last)
    ensures EventLines(Events(draws) + [last]) == |draws|
    ensures AlphaLines(Events(draws) + [last]) == HighDraws(draws)
  {
    EventsFromDraws(draws);
    DropLast(Events(draws), last);
  }

  /** Peeling the appended line off a command sequence. */
  lemma DropLast(cmds: seq<string>, last: string)
    ensures EventLines(cmds + [last]) == EventLines(cmds) + (if IsEventLine(last) then 1 else 0)
    ensures AlphaLines(cmds + [last]) == AlphaLines(cmds) + (if last == "DECAY:ALPHA" then 1 else 0)
  {
    assert (cmds + [last])[..|cmds|] == cmds;
  }

  /** A configuration line is never an event line. */
  lemma ConfNotEvent(rem: nat)
    ensures !IsEventLine(DecayConf(rem))
  {
    assert DecayConf(rem)[0] == 'C';
  }

  /** A tick shows `min(lost, 2)` events when nuclei were lost and none
      otherwise, alpha exactly for the draws above 7 (3 of the 11
      outcomes), and always ends with one configuration line. */
  lemma TickShape(count: int, rem: nat, draws: seq<int>)
    requires |draws| == 2
    ensures EventLines(TickCommands(count, rem, draws)) == (if count - rem > 0 then Min(count - rem, 2) else 0)
    ensures AlphaLines(TickCommands(count, rem, draws)) == HighDraws(draws[..EventCount(count, rem)])
    ensures TickCommands(count, rem, draws)[|TickCommands(count, rem, draws)| - 1] == DecayConf(rem)
    ensures forall i :: 0 <= i < |TickCommands(count, rem, draws)| - 1 ==> IsEventLine(TickCommands(count, rem, draws)[i])
  {
    var used := draws[..EventCount(count, rem)];
    ConfNotEvent(rem);
    EventsThen(used, DecayConf(rem));
    forall i | 0 <= i < |used|
      ensures IsEventLine(TickCommands(count, rem, draws)[i])
    {
      EventLineKind(used[i]);
    }
  }

  // ---------------------------------------------------------------------
  // A whole decay run.

  /** Draws of `randint(0, 10)` for each tick: two per tick, the most a
      tick can use. Their range matters to nothing stated here: a draw is
      alpha exactly when it is above 7. */
  predicate ValidDraws(draws: seq<seq<int>>)
  {
    forall t :: 0 <= t < |draws| ==> |draws[t]| == 2
  }

  /** Commands of the ticks a run takes from `count` nuclei: one tick per
      new count, stopping once the count reaches 0. */
  function RunCommands(count: int, rems: seq<nat>, draws: seq<seq<int>>): seq<string>
    requires |draws| == |rems| && ValidDraws(draws)
    decreases |rems|
  {
    if rems == [] || count <= 0 then []
    else TickCommands(count, rems[0], draws[0]) + RunCommands(rems[0], rems[1..], draws[1..])
  }

  /** A run that has a tick to take takes it and goes on from its count. */
  lemma RunStep(count: int, rems: seq<nat>, draws: seq<seq<int>>)
    requires |draws| == |rems| && ValidDraws(draws) && rems != [] && count > 0
    ensures RunCommands(count, rems, draws) == TickCommands(count, rems[0], draws[0]) + RunCommands(rems[0], rems[1..], draws[1..])
    ensures RunFinal(count, rems) == RunFinal(rems[0], rems[1..])
  {
  }

  /** A run with no counts left, or from an empty sample, sends nothing
      and keeps its count. */
  lemma RunDone(count: int, rems: seq<nat>, draws: seq<seq<int>>)
    requires |draws| == |rems| && ValidDraws(draws) && (rems == [] || count <= 0)
    ensures RunCommands(count, rems, draws) == []
    ensures RunFinal(count, rems) == count
  {
  }

  /** The same step at tick `t` of a run that has already sent `done`. */
  lemma RunAdvance(whole: seq<string>, done: seq<string>, count: int, rems: seq<nat>, draws: seq<seq<int>>, t: nat)
    requires |draws| == |rems| && ValidDraws(draws) && t < |rems| && count > 0
    requires whole == done + RunCommands(count, rems[t..], draws[t..])
    ensures whole == (done + TickCommands(count, rems[t], draws[t])) + RunCommands(rems[t], rems[t + 1..], draws[t + 1..])
    ensures RunFinal(count, rems[t..]) == RunFinal(rems[t], rems[t + 1..])
  {
    assert rems[t..][1..] == rems[t + 1..] && draws[t..][1..] == draws[t + 1..];
    RunStep(count, rems[t..], draws[t..]);
    var tick := TickCommands(count, rems[t], draws[t]);
    var rest := RunCommands(rems[t], rems[t + 1..], draws[t + 1..]);
    assert done + (tick + rest) == (done + tick) + rest;
  }

  /** The count a run ends with. */
  function RunFinal(count: int, rems: seq<nat>): int
    decreases |rems|
  {
    if rems == [] || count <= 0 then count else RunFinal(rems[0], rems[1..])
  }

  /** The run ends with the display of an empty sample as soon as the count
      reaches 0; later counts are never used. */
  lemma RunStopsAtZero(count: int, rems: seq<nat>, draws: seq<seq<int>>)
    requires |draws| == |rems| && ValidDraws(draws)
    requires count > 0 && |rems| > 0 && rems[0] == 0
    ensures RunCommands(count, rems, draws) == TickCommands(count, 0, draws[0])
    ensures RunFinal(count, rems) == 0
    ensures RunCommands(count, rems, draws)[|RunCommands(count, rems, draws)| - 1] == "CONF:0,0,0,0"
  {
    assert RunCommands(0, rems[1..], draws[1..]) == [];
    TickShape(count, 0, draws[0]);
    assert DecaySplit(0) == [0, 0, 0, 0];
    ConfTextDigits(0, 0, 0, 0);
  }

  /** Counts that never grow, as a positive half-life gives. */
  predicate NonIncreasing(count: int, rems: seq<nat>)
  {
    (|rems| > 0 ==> rems[0] <= count) && forall i :: 0 < i < |rems| ==> rems[i] <= rems[i - 1]
  }

  /** While the counts never grow, a run shows no more decay events than
      nuclei were lost: at most two per tick, never more than the tick's
      loss. */
  lemma {:induction false} RunEventsBounded(count: int, rems: seq<nat>, draws: seq<seq<int>>)
    requires |draws| == |rems| && ValidDraws(draws)
    requires count >= 0 && NonIncreasing(count, rems)
    ensures 0 <= RunFinal(count, rems) <= count
    ensures EventLines(RunCommands(count, rems, draws)) <= count - RunFinal(count, rems)
    decreases |rems|
  {
    if rems != [] && count > 0 {
      assert NonIncreasing(rems[0], rems[1..]);
      RunEventsBounded(rems[0], rems[1..], draws[1..]);
      TickShape(count, rems[0], draws[0]);
      EventLinesAppend(TickCommands(count, rems[0], draws[0]), RunCommands(rems[0], rems[1..], draws[1..]));
    }
  }
}
