/** electron_move.py: the same chemical shells as electron_atom.py, spread
    evenly per ring and moved one slot per frame without a tail. */
module ElectronMove {
  import opened Common
  import opened ShellFill
  import opened RingSlots

  /** `SHELL_CAPS`: chemical distribution, right up to argon. */
  const ShellCaps: seq<nat> := [2, 8, 8, 18]

  /** `distribute_electrons(total)`: always four shells, each taking what
      the inner ones left, up to its cap; a non-negative total fills the
      shells inner to outer and whatever exceeds 36 is dropped. */
  method DistributeElectrons(total: int) returns (dist: seq<int>)
    ensures |dist| == 4
    ensures dist == Fill(total, ShellCaps).dist
    ensures total >= 0 ==> forall i :: 0 <= i < 4 ==> 0 <= dist[i] <= ShellCaps[i]
    ensures total >= 0 ==> forall i, j :: 0 <= i < j < 4 && dist[j] > 0 ==> dist[i] == ShellCaps[i]
    ensures total >= 0 ==> Sum(dist) + Max(0, total - 36) == total
  {
    var remaining;
    dist, remaining := DistributeByShell(total, ShellCaps);
    if total >= 0 {
      SumFour(2, 8, 8, 18);
      FillProperties(total, ShellCaps);
      FillConserves(total, ShellCaps);
      FillRemainder(total, ShellCaps);
    }
  }

  /** `compute_positions(ring_idx, count)`: the count is first capped at the
      free slots, then a count of 0 yields nothing. A negative count yields
      nothing too (`range(count)` is empty and the fill loop never starts);
      otherwise the electrons are spread evenly from the first free slot. */
  method ComputePositions(ring: int, count: int) returns (positions: seq<int>)
    requires IsRing(ring)
    ensures count <= 0 ==> positions == []
    ensures count > 0 ==> |positions| == Min(count, Available(ring)) && positions[0] == Indices(ring)[0]
    ensures count > 0 ==> positions == Spread(Indices(ring), Min(count, Available(ring)))
    ensures Distinct(positions)
    ensures forall x :: x in positions ==> OnRing(ring, x)
  {
    var indices := Indices(ring);
    var available := |indices|;
    var use := Min(count, available);
    if use == 0 {
      return [];
    }
    if use < 0 {
      return [];
    }
    IndicesOnRing(ring);
    positions := SpreadSlots(indices, use);
  }

  /** One frame of the orbit on one ring: move every electron one slot on
      (in place) and report the LEDs lit, `1 + p` on ring 0 and `p`
      elsewhere. */
  method OrbitStep(ring: int, locals: array<int>) returns (drawn: seq<int>)
    requires IsRing(ring)
    modifies locals
    ensures locals[..] == Advance(old(locals[..]), Available(ring))
    ensures |drawn| == locals.Length
    ensures forall p :: 0 <= p < locals.Length ==> drawn[p] == SlotLed(ring, locals[p])
    ensures forall p :: 0 <= p < locals.Length ==> OnRing(ring, drawn[p])
  {
    var ringLen := Available(ring);
    drawn := [];
    for i := 0 to locals.Length
      invariant locals[..i] == Advance(old(locals[..]), ringLen)[..i]
      invariant locals[i..] == old(locals[..])[i..]
      invariant |drawn| == i
      invariant forall q :: 0 <= q < i ==> drawn[q] == SlotLed(ring, locals[q])
    {
      locals[i] := (locals[i] + 1) % ringLen;
      var actual := if ring == 0 then 1 + locals[i] else locals[i];
      drawn := drawn + [actual];
      assert locals[..i + 1] == locals[..i] + [locals[i]];
    }
    assert locals[..] == locals[..locals.Length];
  }
}
