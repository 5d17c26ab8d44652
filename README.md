# NeoPixel atom: a verified model

The neopixel repository drives a physical model of an atom. It has four
NeoPixel rings of 7, 8, 12 and 16 LEDs, inner to outer. Ring 0 carries the
nucleus on LED 0, and each ring shows one electron shell (K, L, M, N).

- `app.py` is the classroom controller. It keeps a shared `state` record and
  reads a thermometer, a solar cell (through an MCP3008 ADC) and a colour
  sensor. Web handlers switch between six teaching modes, and a second loop
  plays a radioactive-decay demonstration. Everything the controller does
  reaches the rings as text lines on a serial port: `MODE:…`, `CONF:k,l,m,n`,
  `SPEED:…`, `COLOR:…`, `FLASH:…` and `DECAY:…`.
- `electron_shell.py`, `electron_atom.py` and `electron_move.py` are
  stand-alone scripts. Each fills the shells from an electron count, spreads
  the electrons evenly over their ring's LEDs and animates an orbit.
- `electron_fixed.py` is a desktop editor of the LED grid.

The Dafny project models these pieces:

- **One shell-filling algorithm** (`ShellFill`), shared by every script, with
  the cap tables [2,8,8,18], [2,8,18,32] and [2,8,12,16] as instances. It has
  a reference function `Fill`, its closed form `Shells`, and lemmas for
  conservation, caps, inner-first order and the remainder.
- **Even placement on a ring** (`RingSlots`). The slot-picking loop is a
  method proved equal to the even spread. Python's `round` is written out
  as half-to-even. The lemmas prove the spread strictly increasing, so the
  de-duplication and top-up passes never change it. The orbit step is
  covered too.
- **Each script as its own module.** `ElectronShell`, `ElectronFixed`,
  `ElectronAtom` and `ElectronMove` cover the in-place loops over arrays and
  the editor's LED grid as a class.
- **The controller.**
  - `Elements` covers the element table.
  - `ConfCodec` covers the `CONF:` text and its read-back.
  - `ColorMatch` covers the colour classifier.
  - `Protocol` holds the command lines each handler and tick sends, as
    functions, with the decay tick and run.
  - `Engine` holds the class `SharedState`. It keeps the `state` record and
    the log of lines written to the controller, and has one method per
    handler, sensor pass and decay pass.

Two details of `app.py` that the model keeps as written:

- **The decay flag is never cleared.** Nothing clears `decay_running`, so
  once a run reaches 0, the outer loop of `decay_logic` starts a fresh run
  at 43 (app.py:185-214).
- **The alpha share is 3 of 11.** A draw of `randint(0, 10)` counts as alpha
  when it is above 7, which is 3 of the 11 outcomes (app.py:203).

## Model

| member | source | states |
|---|---|---|
| ShellFill.DistributeByShell | electron_shell.py:81-90 | The loop's list and remainder are the reference filling of the caps: one entry per cap, each shell taking `min(cap, remaining)` of what the inner shells left |
| ShellFill.FillConserves | electron_shell.py:81-90 | For any total, negative included, the shells plus the remainder add up to the total |
| ShellFill.FillStep | electron_shell.py:86-89 | Shell i holds `min(cap_i, total - electrons in shells 0..i-1)` |
| ShellFill.FillRemainder | electron_shell.py:81-90 | For a total >= 0 the remainder is `max(0, total - sum of caps)` |
| ShellFill.FillShells | electron_shell.py:81-90 | For a total >= 0, shell i holds the part of the total beyond the inner caps, clamped to `[0, cap_i]` |
| ShellFill.Shells | electron_shell.py:81-90 | The closed-form filling of a non-negative total equals what the loop computes |
| ShellFill.ShellsFour | electron_shell.py:81-90 | For a four-shell table, the filling written out shell by shell |
| ShellFill.FillProperties | electron_shell.py:81-90 | For a total >= 0: every shell within its cap; a shell used only when every inner one is full; a remainder exactly when the total exceeds the caps; the shells hold `min(total, sum of caps)` |
| ShellFill.FillOrder | electron_shell.py:81-90 | An occupied outer shell implies every inner shell is full |
| ShellFill.FillNegative | electron_shell.py:86-89 | A negative total lands whole in the first shell; the others and the remainder are 0 |
| ElectronShell.ChemicalCarbon | electron_shell.py:35-36 | The chemical preset puts carbon's 6 electrons as `[2, 4, 0, 0]` with nothing left over |
| ElectronShell.PresetFilling | electron_shell.py:35-38 | Under either preset a count >= 0 gives four shells within the caps that conserve the count, with an outer shell holding electrons only once every inner one is full; the leftover is whatever exceeds 36 (chemical) or 60 (Bohr) |
| ElectronShell.FallbackLabels | electron_shell.py:77-78 | The fallback mapping has rings 0..3. Ring i has `RING_LEDS[i]` labels, and each label is a decimal numeral that reads back as its LED index |
| ElectronShell.MapShellToHardwarePositions | electron_shell.py:92-129 | `[]` for a count <= 0. Otherwise exactly `min(count, available)` pairwise-different LEDs of the ring, namely the even spread, starting at the first free LED. Ring 0 results lie in 1..6 and never on the nucleus |
| ElectronShell.OrbitStep | electron_shell.py:192-201 | The array is updated in place: every local position advances to `(p + 1) % slots`. Each drawn LED is `1 + p % 6` on ring 0 and `p % RING_LEDS[ring]` elsewhere, and stays on the ring |
| RingSlots.IndicesOnRing | electron_shell.py:98-104 | A ring's free slots are pairwise different and are exactly its LEDs: 1..6 on ring 0, all of them elsewhere |
| RingSlots.RoundHalfEven | electron_shell.py:112 | `round(n/d)`: within half a step of `n/d`, and even on an exact tie |
| RingSlots.EvenSlot | electron_shell.py:112 | `round(k*available/use) % available` is a slot index of the ring |
| RingSlots.RoundSpreadIncreasing | electron_shell.py:110-113 | For `use <= available`, rounded positions of electrons `i < j` are strictly increasing, tie-breaking included |
| RingSlots.EvenlySpacedDistinct | electron_shell.py:110-113 | The evenly spaced slots are pairwise different and the first is slot 0 |
| RingSlots.SpreadDistinct | electron_shell.py:110-113 | The spread LEDs are pairwise different, drawn from the ring, and begin with its first free LED |
| RingSlots.DedupeOfDistinct | electron_shell.py:114-120 | Removing repeats from a sequence that has none leaves it unchanged |
| RingSlots.SpreadSlots | electron_shell.py:106-129 | The three-pass placement (round, drop repeats, top up) returns exactly the even spread: `use` pairwise-different ring LEDs beginning with the first free one |
| RingSlots.EvenCandidates | electron_shell.py:108-113 | The first pass picks `indices[round(k*available/use) % available]` for each electron |
| RingSlots.DropRepeats | electron_shell.py:114-120 | The second pass keeps the first occurrence of each LED in order. The `seen` set is exactly the kept LEDs, and none repeats |
| RingSlots.TopUp | electron_shell.py:121-129 | The top-up loop stops with exactly `use` pairwise-different ring LEDs: the earlier choices, then the ring's not-yet-seen LEDs in ring order from its first slot, as many as are missing |
| RingSlots.Unseen | electron_shell.py:121-127 | The LEDs the walk can add are ring LEDs that were not seen before |
| RingSlots.ScanStep | electron_shell.py:123-127 | Scanning one more slot of a repeat-free ring adds it exactly when it was not seen, and it was not met earlier in the walk |
| RingSlots.UnseenPrefix | electron_shell.py:122-127 | A walk over the first slots of the ring finds a prefix of all the ring's unseen LEDs |
| RingSlots.UnseenCount | electron_shell.py:122-124 | A repeat-free ring has at most as many seen LEDs as the `seen` set has members, so with the earlier choices its unseen LEDs reach the ring's size and the walk can always fill up to `use` |
| RingSlots.WalkNotExhausted | electron_shell.py:122-124 | While fewer than `use` LEDs are chosen, the walk has not yet passed the ring's last slot, so `i % available` is `i` |
| RingSlots.TopUpDone | electron_shell.py:122-129 | When the walk stops, the choices are repeat-free ring LEDs: the earlier ones, then the first unseen ones |
| RingSlots.StartPositionsShape | electron_atom.py:143-156 | Orbit start positions: `min(count, slots)` of them (none for an empty shell), pairwise different, each a local slot in `[0, slots)` |
| RingSlots.SlotLed | electron_move.py:156-159 | A local slot's LED is `1 + p` on ring 0 and `p` elsewhere, and it is the ring's free LED at that slot |
| RingSlots.AdvanceTimesShift | electron_move.py:153-154 | After f frames, an electron that started on slot p sits on `(p + f) % slots` |
| RingSlots.AdvanceFullLap | electron_move.py:153-154 | After as many frames as the ring has slots, every electron is back where it started |
| ElectronFixed.ComputeShells | electron_fixed.py:46-53 | The in-place loop fills `SHELL_CAP` from `max(0, Z)`: 4 entries, `[0,0,0,0]` for Z <= 0, each within `[2,8,18,32]`, inner shells first, holding `min(max(0, Z), 60)` electrons |
| ElectronFixed.ShellCapFilling | electron_fixed.py:29 | The filling under the classical caps: within the caps, inner first, `min(total, 60)` placed, all empty for no electrons |
| ElectronFixed.FlattenShells | electron_fixed.py:57-59 | The `electrons += [s] * count` loop builds the flattened list, where a count <= 0 adds nothing |
| ElectronFixed.ElectronsShape | electron_fixed.py:57-59 | With non-negative counts the flattened list has one entry per electron, listed shell by shell |
| ElectronFixed.LightRing | electron_fixed.py:62-69 | One ring lights its LEDs while electrons remain and stops at the first without one. The running index becomes `min(total, LEDs in rings 0..r)` |
| ElectronFixed.MapShellsToRings | electron_fixed.py:55-70 | The grid is shaped like `ring_leds`. LED i of ring r is lit exactly when fewer than `total` LEDs precede it in ring-major order; `remaining = total - min(total, sum of ring_leds)` |
| ElectronFixed.LitGridCounts | electron_fixed.py:55-70 | Each ring lights what inner-to-outer filling with the ring sizes as caps puts in it, `min(total, sum of ring_leds)` in all |
| ElectronFixed.ElectronModelApp.constructor | electron_fixed.py:73-80 | The ring sizes come from the mapping or default to `[7,8,12,16]`. Every LED starts off and the shells are `[0,0,0,0]` |
| ElectronFixed.ElectronModelApp.ToggleLed | electron_fixed.py:148-150 | Exactly `led_state[ring][idx]` flips; every other LED, the ring sizes and the shells stay |
| ElectronFixed.ElectronModelApp.ClearLeds | electron_fixed.py:181-186 | Every LED is off with the ring sizes kept; the stored shells are unchanged |
| ElectronFixed.ElectronModelApp.LoadAtom | electron_fixed.py:169-179 | The shells become the classical filling of Z, and the grid lights their electrons in ring order; returns the electrons left without an LED |
| ElectronFixed.ElectronModelApp.OnLoadClick | electron_fixed.py:159-167 | An entry that does not parse gives an error, and one outside 1..118 is rejected; in both cases the grid and shells are unchanged. Exactly the entries in 1..118 are loaded |
| ElectronAtom.DistributeElectrons | electron_atom.py:79-86 | Four shells under `[2,8,8,18]`. For a total >= 0 they are within the caps, filled inner first, and hold `min(total, 36)`; a negative total gives `[total, 0, 0, 0]` |
| ElectronAtom.PresetsLeaveOuterShellEmpty | electron_atom.py:25-31 | Every preset lies in 1..18 and leaves the N shell empty; argon gives `[2, 8, 8, 0]` |
| ElectronAtom.OuterShellEmpty | electron_atom.py:79-86 | Up to 18 electrons never reach the N shell |
| ElectronAtom.ComputePositions | electron_atom.py:89-127 | `[]` for a count <= 0. Otherwise `min(count, available)` pairwise-different ring LEDs, namely the even spread; never the nucleus on ring 0 |
| ElectronAtom.TailIsPrevious | electron_atom.py:196 | After a step from slot p, `(new - 1) % ring_len` is p again |
| ElectronAtom.TailLed | electron_atom.py:196-200 | The tail LED is always an LED of the ring |
| ElectronAtom.OrbitStep | electron_atom.py:174-200 | The array is updated in place: every position advances to `(p + 1) % ring_len`. The electron LED and the tail LED are ring LEDs, and the tail lies on the LED the electron just left |
| ElectronAtom.TailsFollow | electron_atom.py:183-196 | After one step, the slot behind each electron is the slot it occupied before |
| ElectronMove.DistributeElectrons | electron_move.py:59-67 | Always 4 shells. For a total >= 0 they are within `[2,8,8,18]`, filled inner first, and only what exceeds 36 is dropped |
| ElectronMove.ComputePositions | electron_move.py:69-108 | `[]` for a count <= 0. Otherwise `min(count, available)` pairwise-different ring LEDs, the even spread, starting with the ring's first free LED |
| ElectronMove.OrbitStep | electron_move.py:147-159 | The array is updated in place: every position advances to `(p + 1) % ring_len`. The drawn LED is `1 + p` on ring 0 and `p` elsewhere, always on the ring |
| ConfCodec.ParseConfText | app.py:214 | The comma-separated decimal text of any counts reads back as exactly those counts |
| ConfCodec.ConfTextInjective | app.py:214 | Different configurations are never sent as the same text |
| ConfCodec.SplitJoin | app.py:214 | Splitting at commas undoes the joining when no part holds a comma |
| Elements.AtomicNumber | app.py:61-68 | A known name's atomic number is its position in the table; anything else counts as hydrogen |
| Elements.NamesAreKeys | app.py:61-68 | The table has 18 different keys, listed once each |
| Elements.TableRow | app.py:61-68 | Each entry is the digit-by-digit text of its atomic number's filling |
| Elements.ChemicalShells | app.py:61-68 | The chemical filling: K takes the first 2 electrons, L and M the next 8 each, N the next 18 |
| Elements.TableIsChemicalFilling | app.py:61-68 | Every table entry is the `CONF` text of the inner-to-outer filling of its atomic number under `[2,8,8,18]` |
| Elements.ElementConfDecodes | app.py:237 | The lookup with its fallback always gives text that decodes to the filling of the atomic number; an unknown name is shown as hydrogen |
| ColorMatch.GetClosestColor | app.py:78-88 | The scan returns the classifier's answer: the name of the entry it settles on, or "None" beyond radius 120 |
| ColorMatch.MinSqIsMinimum | app.py:78-88 | The running minimum is no larger than any entry's distance. The entry the strict `<` scan settles on reaches it, and every earlier entry is strictly farther |
| ColorMatch.NothingCloseEnough | app.py:78-88 | An empty card, or one whose colours all lie beyond radius 120, gives "None" |
| ColorMatch.FirstClosestWins | app.py:78-88 | Within the radius, the first entry at the smallest distance wins; later ties never replace it |
| Protocol.ReadSolar | app.py:53-55 | The decoded reading always lies in 0..1023 |
| Protocol.ReadSolarBytes | app.py:53-55 | Every 10-bit value is read back from the two reply bytes that carry it |
| Protocol.SolarBytesRead | app.py:53-55 | A reading depends only on the low two bits of the first byte and on the second byte |
| Protocol.SetModeCommands | app.py:226-240 | A mode switch always begins with `MODE:NORMAL`, `SPEED:1.0`, `COLOR:0,255,255` |
| Protocol.SetModeConfs | app.py:226-240 | After the reset lines: mode 6 sends `MODE:RADIO_ON` and `CONF:2,8,8,16`, and mode 5 sends `MODE:BAND_ON`. Mode 2 sends one `CONF` that decodes to the base element's filling, or hydrogen's for an unknown base. Every other mode sends only the reset |
| Protocol.ThermoBands | app.py:131-137 | The thermometer colour is red above 27.0 degrees, yellow in (25.5, 27.0] and green at or below 25.5 |
| Protocol.Mode4ShowsFilling | app.py:141-148 | Mode 4's `CONF` is the chemical filling of 0, 1, 6 or 22 electrons at thresholds 30, 100 and 180; that count never drops as the light grows |
| Protocol.Mode5MovesFour | app.py:150-155 | Mode 5 always shows 14 electrons: `2,8,0,4` exactly when solar > 180, `2,8,4,0` otherwise |
| Protocol.WhiteRelaxes | app.py:162-174 | "White" sends exactly `FLASH:0,0,255`, then a `CONF` that decodes to the base element's filling |
| Protocol.ColorExcites | app.py:176-182 | "Red", "Blue" and "Violet" send one `CONF` holding a single electron in L, M and N respectively; any other colour sends nothing |
| Protocol.DecaySplitFills | app.py:210-214 | The k/l/m/n split is the inner-to-outer filling of `[2,8,12,16]`: each ring within its size, outer rings only after the inner ones are full, `min(rem, 38)` shown |
| Protocol.FullSampleFillsRings | app.py:210-214 | With 38 or more nuclei, the 43 of a fresh run included, the line sent is exactly `CONF:2,8,12,16` |
| Protocol.EventLineKind | app.py:203-208 | Each event line is a `DECAY:` line, and it is `DECAY:ALPHA` exactly when its draw is above 7 |
| Protocol.EventsFromDraws | app.py:202-208 | One event line per draw, with as many alpha lines as draws above 7 |
| Protocol.TickShape | app.py:197-214 | A tick sends `min(lost, 2)` event lines when nuclei were lost and none otherwise. Each is alpha exactly for a draw above 7, and the last line is always the `CONF` of what remains |
| Protocol.RunStopsAtZero | app.py:193-214 | A run whose count reaches 0 ends there: its last line is `CONF:0,0,0,0` and later counts are never used |
| Protocol.RunEventsBounded | app.py:193-214 | While the counts never grow, the count stays in `[0, start]`, and a run never reports more decay events than nuclei were lost |
| Engine.Gate | app.py:57-58 | Lines reach the controller exactly when the port is open; otherwise nothing is sent |
| Engine.SentStep | app.py:57-58 | Lines sent in two steps are the gated concatenation of both |
| Engine.SharedState.constructor | app.py:92-102 | The initial record: mode 1, demo on, base "Hydrogen", readings 0, count 43, half-life 10, no run, nothing sent |
| Engine.SharedState.Send | app.py:57-58 | A line is appended to the log only when the port is open |
| Engine.SharedState.SetMode | app.py:226-240 | The mode becomes m and any decay run stops. The log gains exactly the mode-switch lines for m and the base element |
| Engine.SharedState.SetMode2Type | app.py:243-245 | Demo mode is on exactly for "demo" |
| Engine.SharedState.SetMode2Base | app.py:248-253 | The base element is stored; in mode 2 its `CONF` (with fallback) is sent at once, otherwise nothing is sent |
| Engine.SharedState.ProcessTransition | app.py:160-182 | The log gains exactly the transition lines for the colour and the base element |
| Engine.SharedState.Mode2Sim | app.py:256-259 | A simulated colour acts only in mode 2; elsewhere nothing is sent |
| Engine.SharedState.LoadElement | app.py:262-264 | A known element's table entry is sent; an unknown name sends nothing |
| Engine.SharedState.SetHalfLife | app.py:267 | The half-life becomes any given integer |
| Engine.SharedState.StartDecay | app.py:270-272 | The decay run flag is set |
| Engine.SharedState.SensorTick | app.py:105-157 | A reading that succeeded is stored (temperature in tenths, solar decoded). The log gains the mode-2 colour reaction, then the mode 3/4/5 lines for the new readings |
| Engine.SharedState.UpdateReadings | app.py:107-118 | Each field changes only when its read succeeded |
| Engine.SharedState.ColourStep | app.py:120-129 | Only in mode 2, outside the demo and with a sample is the sample classified; a recognised colour triggers its transition |
| Engine.SharedState.ModeStep | app.py:131-155 | Modes 3, 4 and 5 send their tick lines; other modes send nothing |
| Engine.SharedState.ThermoStep | app.py:131-138 | Mode 3 sends the speed, the thermometer colour and carbon's configuration |
| Engine.SharedState.PhotoStep | app.py:141-148 | Mode 4 sends the light-level configuration, then `SPEED:2.0` |
| Engine.SharedState.BandStep | app.py:150-155 | Mode 5 sends the band configuration and colour for the light level |
| Engine.SharedState.DecayTick | app.py:194-214 | The count becomes the new count. The log gains the tick's event lines, one per shown event and each using its own draw, then its `CONF` line |
| Engine.SharedState.DecayPass | app.py:185-214 | Outside mode 6 or without a run, nothing changes. Otherwise the count restarts at 43, and the ticks run until it reaches 0 or the counts are used up |
| Engine.SharedState.DecayRun | app.py:193-214 | The loop ends with the count the run ends with and sends exactly the run's lines |
| Engine.SetModeTwice | app.py:226-240 | Two identical mode switches send identical line sequences |
| Engine.SwitchStopsDecay | app.py:226-228 | A decay pass right after any mode switch, mode 6 included, sends nothing and keeps the count |

## Left out

- Serial plumbing: port discovery, opening the port, `send` with its `readline`, the intro reads, brightness and nucleus commands. The channel is a flag for whether the port opened plus the log of lines written.
- Hardware drivers: the thermometer, the colour sensor, `spidev.xfer2` and the buzzer `beep`. Readings and samples are inputs; a failed read is `None`.
- Concurrency and timing: the two daemon threads, every `sleep`, the 1.5 s colour-sample gate and the endless orbit loops. Each handler, sensor pass, decay pass and orbit frame is one uninterrupted step, and the gate shows up as a missing sample.
- Engine.SharedState.DecayRun: the loop re-checks the mode and `decay_running` before every tick. Nothing else runs during a pass here, so the caller checks them once.
- Engine.SharedState.DecayTick: each new count is an input, because `int(43 * pow(0.5, elapsed / t_half))` is floating point. The model accepts any count >= 0, including one above the current count (no events are then shown). A half-life of 0 raises in the source and is not modelled.
- Protocol.RunEventsBounded: assumes counts that never grow, which only a positive half-life guarantees. A negative half-life makes the count grow.
- The draws of `randint(0, 10)` are inputs, two per tick; their range is not constrained because only "above 7" matters.
- Protocol.Mode3Commands: the `SPEED:` text of mode 3 is the printed float `1.0 + diff * 0.8` and is an input. The colour bands are modelled on temperatures in tenths of a degree, the precision `round(t, 1)` keeps.
- `photo_current` is a float and is not modelled; no command uses it.
- The nucleus `sin` pulsing, the shell-clearing commands and the `PIX` / `RANGE` / `SET` output of the orbit and static display are not modelled. The orbit step returns the LEDs it draws instead.
- RingSlots.RoundHalfEven: rounds the exact rational `k*available/use`, not its floating-point value. For ring sizes 6, 8, 12 and 16, every tie is a binary fraction computed exactly, and every other value is at least 1/32 from a tie.
- Flask routing, templates, `jsonify`, the tkinter widgets and dialogs, preset menu and button visuals, and the command-line `input()` loops.
- File I/O: the colour card and LED mapping JSON files (they are constructor inputs), `export_state` and `choose_mapping_file`.
- ElectronFixed.ElectronModelApp.ClearLeds: also resets the on-screen shell label, which is a widget and is not modelled; the stored shells stay.
- map_led.py (an interactive labelling tool with trigonometric drawing) and test.py (a hardware smoke test) are not part of this model.
- Ring sizes from a mapping file are taken as natural numbers; a negative size in the file is not modelled.
