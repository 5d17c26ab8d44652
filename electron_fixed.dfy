/** electron_fixed.py: a desktop model of the atom. Shells use the classical
    capacities, the electrons light the LEDs in ring order, and the operator
    can toggle single LEDs or clear the grid. */
module ElectronFixed {
  import opened Common
  import opened ShellFill

  /** `SHELL_CAP`: classical capacities of K, L, M and N. */
  const ShellCap: seq<nat> := [2, 8, 18, 32]

  /** Ring sizes used when the mapping has no `ring_leds` entry. */
  const DefaultRingLeds: seq<nat> := [7, 8, 12, 16]

  /** Highest atomic number the load button accepts. */
  const MaxZ := 118

  // ---------------------------------------------------------------------
  // compute_shells

  /** `compute_shells(Z)`: four shells filled inner to outer from
      `max(0, Z)` electrons, writing `shells[i]` in place. */
  method ComputeShells(z: int) returns (shells: seq<int>)
    ensures shells == Fill(Max(0, z), ShellCap).dist
    ensures |shells| == 4
    ensures z <= 0 ==> shells == [0, 0, 0, 0]
    ensures forall i :: 0 <= i < 4 ==> 0 <= shells[i] <= ShellCap[i]
    ensures forall i, j :: 0 <= i < j < 4 && shells[j] > 0 ==> shells[i] == ShellCap[i]
    ensures Sum(shells) == Min(Max(0, z), 60)
  {
    shells := [0, 0, 0, 0];
    var remaining := Max(0, z);
    for i := 0 to 4
      invariant |shells| == 4
      invariant shells[..i] == Fill(Max(0, z), ShellCap[..i]).dist
      invariant remaining == Fill(Max(0, z), ShellCap[..i]).remaining
    {
      assert ShellCap[..i + 1][..i] == ShellCap[..i];
      var take := Min(remaining, ShellCap[i]);
      shells := shells[i := take];
      remaining := remaining - take;
      assert shells[..i + 1] == shells[..i] + [take];
    }
    assert ShellCap[..4] == ShellCap && shells[..4] == shells;
    ShellCapFilling(Max(0, z));
  }

  /** The filling under `SHELL_CAP` of a non-negative count: within the
      caps, inner shells first, `min(total, 60)` electrons placed, and all
      shells empty for no electrons. */
  lemma ShellCapFilling(total: nat)
    ensures total == 0 ==> Fill(total, ShellCap).dist == [0, 0, 0, 0]
    ensures forall i :: 0 <= i < 4 ==> 0 <= Fill(total, ShellCap).dist[i] <= ShellCap[i]
    ensures forall i, j :: 0 <= i < j < 4 && Fill(total, ShellCap).dist[j] > 0 ==>
      Fill(total, ShellCap).dist[i] == ShellCap[i]
    ensures Sum(Fill(total, ShellCap).dist) == Min(total, 60)
  {
    ShellsFour(total, ShellCap);
    FillWithinCaps(total, ShellCap);
    FillInnerFirst(total, ShellCap);
    FillTotal(total, ShellCap);
    SumFour(2, 8, 18, 32);
  }

  // ---------------------------------------------------------------------
  // map_shells_to_rings

  /** The flattened electron list: one entry per electron, holding the
      index of its shell, inner shells first (`[s] * count` is empty for a
      count of zero or less). */
  function Electrons(shells: seq<int>): (e: seq<int>)
    ensures forall k :: 0 <= k < |e| ==> 0 <= e[k] < |shells|
  {
    if shells == [] then []
    else Electrons(shells[..|shells| - 1]) + seq(Max(0, shells[|shells| - 1]), _ => |shells| - 1)
  }

  /** With non-negative shell counts there are exactly as many electrons as
      the shells hold, and they are listed shell by shell. */
  lemma {:induction false} ElectronsShape(shells: seq<int>)
    requires forall s :: 0 <= s < |shells| ==> shells[s] >= 0
    ensures |Electrons(shells)| == Sum(shells)
    ensures forall k, l :: 0 <= k < l < |Electrons(shells)| ==> Electrons(shells)[k] <= Electrons(shells)[l]
  {
    if shells != [] {
      ElectronsShape(shells[..|shells| - 1]);
    }
  }

  /** A grid shaped like `ring_leds` with every LED off. */
  function AllOff(ringLeds: seq<nat>): (g: seq<seq<bool>>)
    ensures Shaped(g, ringLeds)
    ensures forall r, i :: 0 <= r < |g| && 0 <= i < |g[r]| ==> !g[r][i]
  {
    seq(|ringLeds|, r requires 0 <= r < |ringLeds| => seq(ringLeds[r], _ => false))
  }

  predicate Shaped(g: seq<seq<bool>>, ringLeds: seq<nat>)
  {
    |g| == |ringLeds| && forall r :: 0 <= r < |g| ==> |g[r]| == ringLeds[r]
  }

  /** Reference row: LED `i` of ring `r` is lit exactly when fewer than
      `total` LEDs come before it in ring-major order. */
  function LitRow(ringLeds: seq<nat>, total: int, r: nat): (row: seq<bool>)
    requires r < |ringLeds|
    ensures |row| == ringLeds[r]
  {
    seq(ringLeds[r], i => Sum(ringLeds[..r]) + i < total)
  }

  /** Reference grid: every ring's reference row. */
  function LitGrid(ringLeds: seq<nat>, total: int): (g: seq<seq<bool>>)
    ensures Shaped(g, ringLeds)
  {
    seq(|ringLeds|, r requires 0 <= r < |ringLeds| => LitRow(ringLeds, total, r))
  }

  /** `map_shells_to_rings(shells, ring_leds)`: walk the rings in order and
      light one LED per electron until the electrons run out, then report
      how many electrons found no LED. */
  method MapShellsToRings(shells: seq<int>, ringLeds: seq<nat>) returns (ledState: seq<seq<bool>>, remaining: int)
    ensures ledState == LitGrid(ringLeds, |Electrons(shells)|)
    ensures remaining == |Electrons(shells)| - Min(|Electrons(shells)|, Sum(ringLeds))
  {
    var electrons := FlattenShells(shells);
    var total := |electrons|;
    ledState := AllOff(ringLeds);
    var eidx := 0;
    for r := 0 to |ringLeds|
      invariant Shaped(ledState, ringLeds)
      invariant forall q :: 0 <= q < r ==> ledState[q] == LitRow(ringLeds, total, q)
      invariant forall q :: r <= q < |ringLeds| ==> ledState[q] == AllOff(ringLeds)[q]
      invariant eidx == Min(total, Sum(ringLeds[..r]))
    {
      var row;
      row, eidx := LightRing(ringLeds, total, r, eidx);
      ledState := ledState[r := row];
    }
    assert ringLeds[..|ringLeds|] == ringLeds;
    remaining := total - eidx;
  }

  /** The `electrons += [s] * count` loop. */
  method FlattenShells(shells: seq<int>) returns (electrons: seq<int>)
    ensures electrons == Electrons(shells)
  {
    electrons := [];
    for s := 0 to |shells|
      invariant electrons == Electrons(shells[..s])
    {
      assert shells[..s + 1][..s] == shells[..s];
      electrons := electrons + seq(Max(0, shells[s]), _ => s);
    }
    assert shells[..|shells|] == shells;
  }

  /** The inner loop over one ring: light LEDs while electrons remain,
      `break` at the first one that has none. */
  method LightRing(ringLeds: seq<nat>, total: int, r: nat, eidx0: int) returns (row: seq<bool>, eidx: int)
    requires r < |ringLeds| && eidx0 == Min(total, Sum(ringLeds[..r]))
    ensures row == LitRow(ringLeds, total, r)
    ensures eidx == Min(total, Sum(ringLeds[..r + 1]))
  {
    var offset := Sum(ringLeds[..r]);
    row := seq(ringLeds[r], _ => false);
    eidx := eidx0;
    var i := 0;
    while i < ringLeds[r]
      invariant 0 <= i <= ringLeds[r] && |row| == ringLeds[r]
      invariant forall j :: 0 <= j < i ==> row[j] == (offset + j < total)
      invariant forall j :: i <= j < ringLeds[r] ==> !row[j]
      invariant eidx == Min(total, offset + i)
    {
      if eidx < total {
        row := row[i := true];
        eidx := eidx + 1;
      } else {
        break;
      }
      i := i + 1;
    }
    assert ringLeds[..r + 1] == ringLeds[..r] + [ringLeds[r]];
    SumAppend(ringLeds[..r], ringLeds[r]);
  }

  // ---------------------------------------------------------------------
  // How many LEDs the reference grid lights.

  function CountTrue(row: seq<bool>): nat
  {
    if row == [] then 0 else CountTrue(row[..|row| - 1]) + (if row[|row| - 1] then 1 else 0)
  }

  /** Lit LEDs per ring. */
  function LitCounts(g: seq<seq<bool>>): (c: seq<int>)
    ensures |c| == |g|
  {
    seq(|g|, r requires 0 <= r < |g| => CountTrue(g[r]))
  }

  /** A ring whose LEDs are lit while `offset + i < total` lights as many
      as fall within it. */
  lemma {:induction false} RowCount(n: nat, offset: int, total: int)
    ensures CountTrue(seq(n, i => offset + i < total)) == Clamp(total - offset, n)
  {
    if n > 0 {
      var row := seq(n, i => offset + i < total);
      assert row[..n - 1] == seq(n - 1, i => offset + i < total);
      RowCount(n - 1, offset, total);
    }
  }

  /** Each ring lights what the inner-to-outer filling with the ring sizes
      as capacities puts in it, so the grid lights `min(total, sum of ring
      sizes)` LEDs and the rest of the electrons are left over. */
  lemma LitGridCounts(ringLeds: seq<nat>, total: int)
    requires total >= 0
    ensures LitCounts(LitGrid(ringLeds, total)) == Fill(total, ringLeds).dist
    ensures Sum(LitCounts(LitGrid(ringLeds, total))) == Min(total, Sum(ringLeds))
  {
    var g := LitGrid(ringLeds, total);
    forall r | 0 <= r < |ringLeds|
      ensures LitCounts(g)[r] == Fill(total, ringLeds).dist[r]
    {
      RowCount(ringLeds[r], Sum(ringLeds[..r]), total);
      FillShell(total, ringLeds, r);
    }
    FillProperties(total, ringLeds);
  }

  // ---------------------------------------------------------------------
  // The application's LED state.

  /** What the load button reports. */
  datatype LoadOutcome = InvalidNumber | OutOfRange | Loaded(remaining: int)

  /** The state of `ElectronModelApp`: ring sizes, one flag per LED and the
      last computed shells. */
  class ElectronModelApp {
    var ringLeds: seq<nat>
    var ledState: seq<seq<bool>>
    var shells: seq<int>

    predicate Valid()
      reads this
    {
      Shaped(ledState, ringLeds) && |shells| == 4
    }

    /** Ring sizes from the mapping, or the default ones; all LEDs off and
        empty shells. */
    constructor (mappingRingLeds: Option<seq<nat>>)
      ensures Valid()
      ensures ringLeds == (if mappingRingLeds.Some? then mappingRingLeds.value else DefaultRingLeds)
      ensures ledState == AllOff(ringLeds)
      ensures shells == [0, 0, 0, 0]
    {
      ringLeds := if mappingRingLeds.Some? then mappingRingLeds.value else DefaultRingLeds;
      ledState := AllOff(if mappingRingLeds.Some? then mappingRingLeds.value else DefaultRingLeds);
      shells := [0, 0, 0, 0];
    }

    /** `toggle_led(ring, idx)`: flip that one LED. */
    method ToggleLed(ring: int, idx: int)
      requires Valid()
      requires 0 <= ring < |ledState| && 0 <= idx < |ledState[ring]|
      modifies this
      ensures Valid()
      ensures ringLeds == old(ringLeds) && shells == old(shells)
      ensures ledState[ring][idx] == !old(ledState[ring][idx])
      ensures forall r, i :: 0 <= r < |ledState| && 0 <= i < |ledState[r]| && (r, i) != (ring, idx) ==>
        ledState[r][i] == old(ledState[r][i])
      ensures ledState == old(ledState)[ring := old(ledState)[ring][idx := !old(ledState[ring][idx])]]
    {
      ledState := ledState[ring := ledState[ring][idx := !ledState[ring][idx]]];
    }

    /** `clear_leds`: every LED off, ring sizes kept. The stored shells stay
        as they were (only the on-screen label is reset). */
    method ClearLeds()
      requires Valid()
      modifies this
      ensures Valid()
      ensures ledState == AllOff(ringLeds)
      ensures ringLeds == old(ringLeds) && shells == old(shells)
    {
      ledState := AllOff(ringLeds);
    }

    /** `load_atom(Z)`: compute the shells and light the first electrons in
        ring order; returns the electrons that found no LED. */
    method LoadAtom(z: int) returns (remaining: int)
      requires Valid()
      modifies this
      ensures Valid()
      ensures shells == Fill(Max(0, z), ShellCap).dist
      ensures ledState == LitGrid(ringLeds, Sum(shells))
      ensures remaining == Sum(shells) - Min(Sum(shells), Sum(ringLeds))
      ensures ringLeds == old(ringLeds)
    {
      var s := ComputeShells(z);
      shells := s;
      var state, rem := MapShellsToRings(s, ringLeds);
      ElectronsShape(s);
      ledState := state;
      remaining := rem;
    }

    /** `on_load_click`: the entry must parse as an integer (`None` models
        the `ValueError`) and lie in 1..118; otherwise nothing changes. */
    method OnLoadClick(entry: Option<int>) returns (outcome: LoadOutcome)
      requires Valid()
      modifies this
      ensures Valid()
      ensures entry.None? ==> outcome == InvalidNumber
      ensures entry.Some? && (entry.value < 1 || entry.value > MaxZ) ==> outcome == OutOfRange
      ensures outcome.Loaded? <==> entry.Some? && 1 <= entry.value <= MaxZ
      ensures outcome.Loaded? ==>
        shells == Fill(entry.value, ShellCap).dist && ledState == LitGrid(ringLeds, Sum(shells))
      ensures !outcome.Loaded? ==> ledState == old(ledState) && shells == old(shells)
      ensures ringLeds == old(ringLeds)
    {
      if entry.None? {
        return InvalidNumber;
      }
      var z := entry.value;
      if z < 1 || z > MaxZ {
        return OutOfRange;
      }
      var remaining := LoadAtom(z);
      outcome := Loaded(remaining);
    }
  }
}
