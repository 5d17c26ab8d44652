/** electron_shell.py: one hardware ring per atomic shell (ring 0 = K,
    ring 1 = L, ring 2 = M, ring 3 = N), filled by a selectable cap preset,
    shown statically or as an orbit. */
module ElectronShell {
  import opened Common
  import opened ShellFill
  import opened RingSlots

  /** The two filling strategies of `FILL_PRESETS`. */
  const Chemical: seq<nat> := [2, 8, 8, 18]
  const Bohr: seq<nat> := [2, 8, 18, 32]
  const FillPresets: map<string, seq<nat>> := map["chemical" := Chemical, "bohr" := Bohr]

  /** The preset comment's example: carbon under the chemical preset puts
      two electrons in K and four in L. */
  lemma ChemicalCarbon()
    ensures Fill(6, FillPresets["chemical"]) == Filling([2, 4, 0, 0], 0)
  {
    FillRemainder(6, Chemical);
    FillShells(6, Chemical);
    SumFour(2, 0, 0, 0);
    SumFour(2, 8, 0, 0);
    assert Chemical[..1] == [2] && Chemical[..2] == [2, 8] && Chemical[..3] == [2, 8, 8];
    assert Sum([2]) == 2 && Sum([2, 8]) == 10;
  }

  /** Either preset, filled with a non-negative count: four shells within
      their caps, outer shells only once the inner ones are full, and the
      leftover exactly what exceeds the preset's capacity. */
  lemma PresetFilling(mode: string, total: int)
    requires mode in FillPresets && total >= 0
    ensures |Fill(total, FillPresets[mode]).dist| == 4
    ensures forall i :: 0 <= i < 4 ==> 0 <= Fill(total, FillPresets[mode]).dist[i] <= FillPresets[mode][i]
    ensures forall i, j :: 0 <= i < j < 4 && Fill(total, FillPresets[mode]).dist[j] > 0 ==>
      Fill(total, FillPresets[mode]).dist[i] == FillPresets[mode][i]
    ensures Sum(Fill(total, FillPresets[mode]).dist) + Fill(total, FillPresets[mode]).remaining == total
    ensures Fill(total, FillPresets[mode]).remaining == Max(0, total - (if mode == "bohr" then 60 else 36))
  {
    var caps := FillPresets[mode];
    FillProperties(total, caps);
    FillConserves(total, caps);
    FillRemainder(total, caps);
    SumFour(2, 8, 8, 18);
    SumFour(2, 8, 18, 32);
  }

  // ---------------------------------------------------------------------
  // Fallback LED mapping, used when no mapping file exists.

  /** Ring i is labelled "0", "1", ... up to its LED count minus one. */
  function FallbackMapping(): map<int, seq<string>>
  {
    map i | 0 <= i < |RingLeds| :: seq(RingLeds[i], j requires 0 <= j => NatToString(j))
  }

  /** The fallback has an entry for each of the four rings, one label per
      LED, and each label reads back as its own LED index. */
  lemma FallbackLabels()
    ensures FallbackMapping().Keys == {0, 1, 2, 3}
    ensures forall i :: 0 <= i < 4 ==> |FallbackMapping()[i]| == RingLeds[i]
    ensures forall i, j :: 0 <= i < 4 && 0 <= j < |FallbackMapping()[i]| ==>
      forall c :: c in FallbackMapping()[i][j] ==> IsDigit(c)
    ensures forall i, j :: 0 <= i < 4 && 0 <= j < |FallbackMapping()[i]| ==>
      ParseDigits(FallbackMapping()[i][j]) == j
  {
    var m := FallbackMapping();
    forall i, j | 0 <= i < 4 && 0 <= j < |m[i]|
      ensures ParseDigits(m[i][j]) == j
    {
      ParseNatToString(j);
    }
  }

  // ---------------------------------------------------------------------
  // Where the electrons of one shell go on its ring.

  /** `map_shell_to_hardware_positions(ring, count)`: nothing for a count of
      zero or less; otherwise `min(count, available)` pairwise different LED
      indices of the ring, evenly spread and starting at the ring's first
      free LED. Ring 0 never lights its nucleus LED. */
  method MapShellToHardwarePositions(ring: int, count: int) returns (positions: seq<int>)
    requires IsRing(ring)
    ensures count <= 0 ==> positions == []
    ensures count > 0 ==> positions == Spread(Indices(ring), Min(count, Available(ring)))
    ensures |positions| == Max(0, Min(count, Available(ring)))
    ensures Distinct(positions)
    ensures forall x :: x in positions ==> OnRing(ring, x)
    ensures count > 0 ==> positions[0] == (if ring == 0 then 1 else 0)
  {
    var indices := Indices(ring);
    var available := |indices|;
    if available == 0 || count <= 0 {
      return [];
    }
    var use := Min(count, available);
    IndicesOnRing(ring);
    positions := SpreadSlots(indices, use);
  }

  // ---------------------------------------------------------------------
  // One frame of the orbit animation on one ring.

  /** The LED an electron at local position `p` lights: `1 + p % 6` on
      ring 0, `p % RING_LEDS[ring]` elsewhere. */
  function Drawn(ring: int, p: int): (x: int)
    requires IsRing(ring)
  {
    if ring == 0 then 1 + p % (RingLeds[0] - 1) else p % RingLeds[ring]
  }


  /** Advance every electron of the ring one slot (in place, as the
      animation loop does) and report the LEDs it draws. */
  method OrbitStep(ring: int, locals: array<int>) returns (drawn: seq<int>)
    requires IsRing(ring)
    modifies locals
    ensures locals[..] == Advance(old(locals[..]), Available(ring))
    ensures |drawn| == locals.Length
    ensures forall p :: 0 <= p < locals.Length ==> drawn[p] == Drawn(ring, locals[p])
    ensures forall p :: 0 <= p < locals.Length ==> OnRing(ring, drawn[p])
  {
    var totalPositions := Available(ring);
    drawn := [];
    var p := 0;
    while p < locals.Length
      invariant 0 <= p <= locals.Length
      invariant locals[..p] == Advance(old(locals[..]), totalPositions)[..p]
      invariant locals[p..] == old(locals[..])[p..]
      invariant |drawn| == p
      invariant forall q :: 0 <= q < p ==> drawn[q] == Drawn(ring, locals[q])
    {
      locals[p] := (locals[p] + 1) % totalPositions;
      var actual := if ring == 0 then 1 + (locals[p] % (RingLeds[0] - 1)) else locals[p] % RingLeds[ring];
      drawn := drawn + [actual];
      assert locals[..p + 1] == locals[..p] + [locals[p]];
      p := p + 1;
    }
    assert locals[..] == locals[..locals.Length];
  }
}
