/** electron_atom.py: chemical shell filling up to argon, electrons spread
    evenly per ring and an orbit that draws each electron with a fading tail
    one slot behind it. */
module ElectronAtom {
  import opened Common
  import opened ShellFill
  import opened RingSlots

  /** `SHELL_CAPS`: the chemical distribution, right up to argon. */
  const ShellCaps: seq<nat> := [2, 8, 8, 18]

  /** `ATOM_PRESETS`: symbol to electron count, hydrogen to argon. */
  const AtomPresets: map<string, int> := map[
    "H" := 1, "He" := 2, "Li" := 3, "Be" := 4, "B" := 5, "C" := 6, "N" := 7, "O" := 8, "F" := 9,
    "Ne" := 10, "Na" := 11, "Mg" := 12, "Al" := 13, "Si" := 14, "P" := 15, "S" := 16,
    "Cl" := 17, "Ar" := 18]

  /** `distribute_electrons(total)`: four shells under the chemical caps.
      A non-negative total is spread inner to outer within the caps, and the
      shells hold `min(total, 36)` electrons; a negative one lands whole in
      the K shell, as Python's `min` passes it through. */
  method DistributeElectrons(total: int) returns (dist: seq<int>)
    ensures dist == Fill(total, ShellCaps).dist
    ensures |dist| == 4
    ensures total >= 0 ==> forall i :: 0 <= i < 4 ==> 0 <= dist[i] <= ShellCaps[i]
    ensures total >= 0 ==> forall i, j :: 0 <= i < j < 4 && dist[j] > 0 ==> dist[i] == ShellCaps[i]
    ensures total >= 0 ==> Sum(dist) == Min(total, 36)
    ensures total < 0 ==> dist == [total, 0, 0, 0]
  {
    var remaining;
    dist, remaining := DistributeByShell(total, ShellCaps);
    SumFour(2, 8, 8, 18);
    if total >= 0 {
      FillProperties(total, ShellCaps);
    } else {
      FillNegative(total, ShellCaps);
    }
  }

  /** Every preset is a real element of the first three periods, so the N
      shell stays empty; argon fills K, L and M exactly. */
  lemma PresetsLeaveOuterShellEmpty()
    ensures forall sym :: sym in AtomPresets ==> 1 <= AtomPresets[sym] <= 18
    ensures forall sym :: sym in AtomPresets ==> Fill(AtomPresets[sym], ShellCaps).dist[3] == 0
    ensures Fill(AtomPresets["Ar"], ShellCaps).dist == [2, 8, 8, 0]
  {
    PresetsInRange();
    forall sym | sym in AtomPresets
      ensures Fill(AtomPresets[sym], ShellCaps).dist[3] == 0
    {
      OuterShellEmpty(AtomPresets[sym]);
    }
    ShellsFour(18, ShellCaps);
  }

  lemma PresetsInRange()
    ensures forall sym :: sym in AtomPresets ==> 1 <= AtomPresets[sym] <= 18
  {
  }

  /** Up to 18 electrons never reach the N shell. */
  lemma OuterShellEmpty(total: nat)
    requires total <= 18
    ensures Fill(total, ShellCaps).dist[3] == 0
  {
    ShellsFour(total, ShellCaps);
  }

  /** `compute_positions(ring_idx, count)`: nothing for a count of 0;
      otherwise the count is capped at the free slots and spread evenly.
      A negative count also yields nothing: `range(count)` is empty and the
      fill loop never starts. */
  method ComputePositions(ring: int, count: int) returns (positions: seq<int>)
    requires IsRing(ring)
    ensures count <= 0 ==> positions == []
    ensures count > 0 ==> positions == Spread(Indices(ring), Min(count, Available(ring)))
    ensures |positions| == Max(0, Min(count, Available(ring)))
    ensures Distinct(positions)
    ensures forall x :: x in positions ==> OnRing(ring, x)
    ensures ring == 0 ==> 0 !in positions
  {
    var indices := Indices(ring);
    var available := |indices|;
    if count == 0 {
      return [];
    }
    var use := count;
    if use > available {
      use := available;
    }
    if use < 0 {
      return [];
    }
    IndicesOnRing(ring);
    positions := SpreadSlots(indices, use);
  }

  /** The tail is drawn one slot behind the electron: after a step from a
      slot on the ring, `(new - 1) % ring_len` is the slot it left. */
  lemma TailIsPrevious(p: int, n: int)
    requires 0 <= p < n
    ensures ((p + 1) % n - 1) % n == p
  {
    if p + 1 < n {
      ModSmall(p + 1, n);
      ModSmall(p, n);
    } else {
      ModShift(0, 1, n);
      ModShift(n - 1, -1, n);
      ModSmall(n - 1, n);
    }
  }

  /** The LED of the fading tail behind an electron at local slot `p`:
      the slot before it, wrapping round the ring. */
  function TailLed(ring: int, p: int): (x: int)
    requires IsRing(ring)
    ensures OnRing(ring, x)
  {
    SlotLed(ring, (p - 1) % Available(ring))
  }

  /** One frame of the orbit on one ring: move every electron one slot on
      (in place), and report the LED lit for it and the LED of its tail. */
  method OrbitStep(ring: int, locals: array<int>) returns (drawn: seq<int>, tails: seq<int>)
    requires IsRing(ring)
    modifies locals
    ensures locals[..] == Advance(old(locals[..]), Available(ring))
    ensures |drawn| == locals.Length && |tails| == locals.Length
    ensures forall p :: 0 <= p < locals.Length ==>
      drawn[p] == SlotLed(ring, locals[p]) && OnRing(ring, drawn[p])
    ensures forall p :: 0 <= p < locals.Length ==> tails[p] == TailLed(ring, locals[p]) && OnRing(ring, tails[p])
    ensures forall p :: 0 <= p < locals.Length && 0 <= old(locals[p]) < Available(ring) ==>
      tails[p] == SlotLed(ring, old(locals[p]))
  {
    var ringLen := Available(ring);
    ghost var before := locals[..];
    drawn, tails := [], [];
    for p := 0 to locals.Length
      invariant locals[..p] == Advance(before, ringLen)[..p]
      invariant locals[p..] == before[p..]
      invariant |drawn| == p && |tails| == p
      invariant forall q :: 0 <= q < p ==> drawn[q] == SlotLed(ring, locals[q])
      invariant forall q :: 0 <= q < p ==> tails[q] == TailLed(ring, locals[q])
    {
      locals[p] := (locals[p] + 1) % ringLen;
      var actual := SlotLed(ring, locals[p]);
      var tailActual := TailLed(ring, locals[p]);
      drawn, tails := drawn + [actual], tails + [tailActual];
      assert locals[..p + 1] == locals[..p] + [locals[p]];
    }
    assert locals[..] == locals[..locals.Length];
    TailsFollow(before, locals[..], ringLen);
  }

  /** After one step, the slot behind each electron is the one it left. */
  lemma TailsFollow(before: seq<int>, after: seq<int>, n: int)
    requires n > 0 && after == Advance(before, n)
    ensures forall p :: 0 <= p < |before| && 0 <= before[p] < n ==> (after[p] - 1) % n == before[p]
  {
    forall p | 0 <= p < |before| && 0 <= before[p] < n
      ensures (after[p] - 1) % n == before[p]
    {
      TailIsPrevious(before[p], n);
    }
  }
}
