/** Ring geometry and the even spacing of electrons over a ring's LEDs,
    shared by electron_shell.py (`map_shell_to_hardware_positions`),
    electron_atom.py and electron_move.py (`compute_positions` and the orbit
    start positions). All three scripts declare the same ring sizes. */
module RingSlots {
  import opened Common

  /** LEDs per hardware ring, inner to outer; ring 0 carries the nucleus
      at LED 0 and six outer LEDs. */
  const RingLeds: seq<nat> := [7, 8, 12, 16]

  predicate IsRing(ring: int) { 0 <= ring < |RingLeds| }

  /** LEDs an electron may occupy: ring 0 without its nucleus LED. */
  function Available(ring: int): (n: nat)
    requires IsRing(ring)
  {
    if ring == 0 then RingLeds[0] - 1 else RingLeds[ring]
  }

  /** The hardware index of each available slot, in order around the ring:
      `1..6` on ring 0, `0..RING_LEDS[ring]-1` elsewhere. */
  function Indices(ring: int): (ix: seq<int>)
    requires IsRing(ring)
    ensures |ix| == Available(ring)
  {
    if ring == 0 then seq(Available(ring), i => 1 + i) else seq(Available(ring), i => i)
  }

  /** The LED range of a ring that an electron may light. */
  predicate OnRing(ring: int, x: int)
    requires IsRing(ring)
  {
    if ring == 0 then 1 <= x <= 6 else 0 <= x < RingLeds[ring]
  }

  lemma IndicesOnRing(ring: int)
    requires IsRing(ring)
    ensures Distinct(Indices(ring))
    ensures forall x :: x in Indices(ring) <==> OnRing(ring, x)
  {
    var ix := Indices(ring);
    forall x | OnRing(ring, x) ensures x in ix {
      assert ix[if ring == 0 then x - 1 else x] == x;
    }
  }

  // ---------------------------------------------------------------------
  // Python's round(), which breaks ties towards the even neighbour.

  /** `round(n / d)`: the integer nearest to `n/d`, ties going to the even
      one. The ring sizes 6, 8, 12 and 16 make every spacing `k*n/use` a
      binary fraction or at least 1/32 away from a tie, so the exact
      rational here rounds the way the floating-point value does. */
  function RoundHalfEven(n: int, d: int): (r: int)
    requires d > 0
    ensures -d <= 2 * (r * d - n) <= d
    ensures (2 * (r * d - n) == d || 2 * (r * d - n) == -d) ==> r % 2 == 0
  {
    var q := n / d;
    var rem := n % d;
    assert n == q * d + rem;
    assert (q + 1) * d == q * d + d;
    if 2 * rem < d then q
    else if 2 * rem > d then q + 1
    else if q % 2 == 0 then q
    else q + 1
  }

  /** Local slot of the k-th of `use` electrons spread evenly over `total`
      slots: `round(k * total / use) % total`. */
  function EvenSlot(total: int, use: int, k: int): (p: int)
    requires 0 < use <= total
    ensures 0 <= p < total
  {
    RoundHalfEven(k * total, use) % total
  }

  /** Starting local positions of `use` evenly spaced electrons. */
  function EvenlySpaced(total: int, use: int): (ps: seq<int>)
    requires 0 < use <= total
    ensures |ps| == use
  {
    seq(use, k requires 0 <= k < use => EvenSlot(total, use, k))
  }

  /** The hardware indices of the evenly spaced slots. */
  function Spread(indices: seq<int>, use: int): (s: seq<int>)
    requires 0 < use <= |indices|
    ensures |s| == use
  {
    seq(use, k requires 0 <= k < use => indices[EvenSlot(|indices|, use, k)])
  }

  lemma MulMono(a: int, b: int, c: int)
    requires a <= b && c >= 0
    ensures a * c <= b * c
  {
    assert b * c - a * c == (b - a) * c;
  }

  /** For `k < use <= total` the rounded spacing already lies in
      `[0, total)`, so the `% total` never wraps. */
  lemma RoundSpreadInRange(total: int, use: int, k: int)
    requires 0 < use <= total && 0 <= k < use
    ensures 0 <= RoundHalfEven(k * total, use) < total
  {
    var n := k * total;
    var r := RoundHalfEven(n, use);
    MulMono(0, k, total);
    MulMono(k, use - 1, total);
    assert (use - 1) * total == use * total - total;
    if r >= total {
      MulMono(total, r, use);
    }
    if r < 0 {
      MulMono(r, -1, use);
    }
  }

  /** A nearest integer is ordered like the values it rounds once those
      are more than one step `d` apart. */
  lemma NearestOrdered(x: int, y: int, a: int, b: int, d: int)
    requires d > 0 && y - x > d
    requires -d <= 2 * (a * d - x) <= d && -d <= 2 * (b * d - y) <= d
    ensures a < b
  {
    assert b * d - a * d == (b - a) * d;
    if b <= a {
      MulMono(b - a, 0, d);
    }
  }

  /** A multiple of `d` within half a step of zero is zero. */
  lemma NearZero(m: int, d: int)
    requires d > 0 && -d <= 2 * (m * d) <= d
    ensures m == 0
  {
    if m >= 1 {
      MulMono(1, m, d);
    } else if m <= -1 {
      MulMono(m, -1, d);
    }
  }

  /** When the spacing is exact, rounding returns it unchanged. */
  lemma RoundExact(i: int, use: int)
    requires use > 0
    ensures RoundHalfEven(i * use, use) == i
  {
    var r := RoundHalfEven(i * use, use);
    assert r * use - i * use == (r - i) * use;
    NearZero(r - i, use);
  }

  /** Spacing of at least one slot keeps the rounded positions strictly
      increasing, tie-breaking included. */
  lemma RoundSpreadIncreasing(total: int, use: int, i: int, j: int)
    requires 0 < use <= total && 0 <= i < j < use
    ensures RoundHalfEven(i * total, use) < RoundHalfEven(j * total, use)
  {
    var g := j - i;
    if g == 1 && total == use {
      // one-slot spacing over a full ring: both positions are exact
      RoundExact(i, use);
      RoundExact(j, use);
    } else {
      WideSpacing(total, use, i, j);
      NearestOrdered(i * total, j * total, RoundHalfEven(i * total, use), RoundHalfEven(j * total, use), use);
    }
  }

  /** Unless the spacing is one slot over a full ring, slots `i < j` lie
      more than `use` apart once multiplied out. */
  lemma WideSpacing(total: int, use: int, i: int, j: int)
    requires 0 < use <= total && 0 <= i < j
    requires !(j - i == 1 && total == use)
    ensures j * total - i * total > use
  {
    var g := j - i;
    assert j * total - i * total == g * total;
    if g >= 2 {
      MulMono(2, g, total);
    }
  }

  /** The evenly spaced slots are strictly increasing (so pairwise
      different) and the first is slot 0. */
  lemma EvenSlotIncreasing(total: int, use: int, i: int, j: int)
    requires 0 < use <= total && 0 <= i < j < use
    ensures EvenSlot(total, use, i) < EvenSlot(total, use, j)
  {
    EvenSlotNoWrap(total, use, i);
    EvenSlotNoWrap(total, use, j);
    RoundSpreadIncreasing(total, use, i, j);
  }

  lemma EvenSlotNoWrap(total: int, use: int, k: int)
    requires 0 < use <= total && 0 <= k < use
    ensures EvenSlot(total, use, k) == RoundHalfEven(k * total, use)
  {
    var r := RoundHalfEven(k * total, use);
    RoundSpreadInRange(total, use, k);
    ModSmall(r, total);
  }

  lemma ModSmall(x: int, m: int)
    requires 0 <= x < m
    ensures x % m == x
  {
  }

  lemma EvenlySpacedDistinct(total: int, use: int)
    requires 0 < use <= total
    ensures Distinct(EvenlySpaced(total, use))
    ensures EvenlySpaced(total, use)[0] == 0
  {
    var ps := EvenlySpaced(total, use);
    forall i, j | 0 <= i < j < use ensures ps[i] != ps[j] {
      EvenSlotIncreasing(total, use, i, j);
    }
    RoundExact(0, use);
  }

  /** Hence the spread hardware indices are pairwise different as well:
      the de-duplication and top-up passes of the scripts never change the
      even spacing. */
  lemma SpreadDistinct(indices: seq<int>, use: int)
    requires 0 < use <= |indices| && Distinct(indices)
    ensures Distinct(Spread(indices, use))
    ensures Spread(indices, use)[0] == indices[0]
    ensures forall x :: x in Spread(indices, use) ==> x in indices
  {
    EvenlySpacedDistinct(|indices|, use);
    var ps := EvenlySpaced(|indices|, use);
    var s := Spread(indices, use);
    forall i, j | 0 <= i < j < use ensures s[i] != s[j] {
      assert s[i] == indices[ps[i]] && s[j] == indices[ps[j]];
    }
    assert s[0] == indices[ps[0]];
  }

  // ---------------------------------------------------------------------
  // The slot-picking routine the three scripts share.

  /** Order-preserving removal of repeats: the first occurrence stays. */
  function Dedupe(s: seq<int>): seq<int>
  {
    if s == [] then []
    else
      var d := Dedupe(s[..|s| - 1]);
      if s[|s| - 1] in d then d else d + [s[|s| - 1]]
  }

  lemma {:induction false} DedupeOfDistinct(s: seq<int>)
    requires Distinct(s)
    ensures Dedupe(s) == s
  {
    if s != [] {
      var front := s[..|s| - 1];
      DedupeOfDistinct(front);
      assert front + [s[|s| - 1]] == s;
    }
  }

  /** The placement the three scripts share: `use` electrons on a ring whose
      free slots are `indices`. It rounds `k * available / use` for each
      electron, drops repeated slots keeping the first, and tops up with the
      lowest unused slots until `use` are chosen. The result is exactly the
      even spread, pairwise different, and begins with the ring's first
      slot. */
  method SpreadSlots(indices: seq<int>, use: int) returns (slots: seq<int>)
    requires 0 < use <= |indices| && Distinct(indices)
    ensures slots == Spread(indices, use)
    ensures |slots| == use && Distinct(slots)
    ensures slots[0] == indices[0]
    ensures forall x :: x in slots ==> x in indices
  {
    var chosen := EvenCandidates(indices, use);
    var unique, seen := DropRepeats(chosen);
    var filled := TopUp(indices, use, unique, seen);
    slots := filled[..use];

    SpreadDistinct(indices, use);
    DedupeOfDistinct(chosen);
    assert filled[..|unique|] == unique;
  }

  /** First pass: slot `indices[round(k * step) % available]` for each k. */
  method EvenCandidates(indices: seq<int>, use: int) returns (chosen: seq<int>)
    requires 0 < use <= |indices|
    ensures chosen == Spread(indices, use)
  {
    var available := |indices|;
    chosen := [];
    var k := 0;
    while k < use
      invariant 0 <= k <= use
      invariant chosen == Spread(indices, use)[..k]
    {
      var pos := RoundHalfEven(k * available, use) % available;
      chosen := chosen + [indices[pos]];
      k := k + 1;
    }
  }

  /** Second pass: keep the first occurrence of each slot, recording the
      kept ones in `seen`. */
  method DropRepeats(chosen: seq<int>) returns (unique: seq<int>, seen: set<int>)
    ensures unique == Dedupe(chosen)
    ensures Distinct(unique) && |unique| <= |chosen|
    ensures forall x :: x in seen <==> x in unique
    ensures forall x :: x in unique ==> x in chosen
    ensures |seen| == |unique|
  {
    seen := {};
    unique := [];
    var j := 0;
    while j < |chosen|
      invariant 0 <= j <= |chosen|
      invariant unique == Dedupe(chosen[..j])
      invariant Distinct(unique) && |unique| <= j
      invariant forall x :: x in seen <==> x in unique
      invariant forall x :: x in unique ==> x in chosen[..j]
      invariant |seen| == |unique|
    {
      var x := chosen[j];
      assert chosen[..j + 1][..j] == chosen[..j];
      if x !in seen {
        unique := unique + [x];
        seen := seen + {x};
      }
      j := j + 1;
    }
    assert chosen[..|chosen|] == chosen;
  }

  /** The entries of `xs` that are not in `seen`, in their order. */
  function Unseen(xs: seq<int>, seen: set<int>): (u: seq<int>)
    ensures forall x :: x in u ==> x in xs && x !in seen
  {
    if xs == [] then []
    else Unseen(xs[..|xs| - 1], seen) + (if xs[|xs| - 1] in seen then [] else [xs[|xs| - 1]])
  }

  lemma UnseenSnoc(xs: seq<int>, x: int, seen: set<int>)
    ensures Unseen(xs + [x], seen) == Unseen(xs, seen) + (if x in seen then [] else [x])
  {
    assert (xs + [x])[..|xs|] == xs;
  }

  /** Scanning one more slot of a ring whose slots are pairwise
      different: the slot was not met before, and it is added exactly when
      it is unseen. */
  lemma ScanStep(indices: seq<int>, i: nat, seen: set<int>)
    requires i < |indices| && Distinct(indices)
    ensures indices[i] !in Unseen(indices[..i], seen)
    ensures Unseen(indices[..i + 1], seen) ==
      Unseen(indices[..i], seen) + (if indices[i] in seen then [] else [indices[i]])
  {
    assert indices[..i + 1] == indices[..i] + [indices[i]];
    UnseenSnoc(indices[..i], indices[i], seen);
    assert indices[i] !in indices[..i];
  }

  /** The unseen entries of two pieces, one after the other. */
  lemma {:induction false} UnseenAppend(a: seq<int>, b: seq<int>, seen: set<int>)
    ensures Unseen(a + b, seen) == Unseen(a, seen) + Unseen(b, seen)
    decreases |b|
  {
    if b == [] {
      assert a + b == a;
    } else {
      var front, last := b[..|b| - 1], b[|b| - 1];
      var extra := if last in seen then [] else [last];
      assert b == front + [last];
      assert a + b == (a + front) + [last];
      calc {
        Unseen(a + b, seen);
        { UnseenSnoc(a + front, last, seen); }
        Unseen(a + front, seen) + extra;
        { UnseenAppend(a, front, seen); }
        (Unseen(a, seen) + Unseen(front, seen)) + extra;
        Unseen(a, seen) + (Unseen(front, seen) + extra);
        { UnseenSnoc(front, last, seen); }
        Unseen(a, seen) + Unseen(b, seen);
      }
    }
  }

  /** Scanning a prefix of `xs` finds a prefix of its unseen entries. */
  lemma UnseenPrefix(xs: seq<int>, i: nat, seen: set<int>)
    requires i <= |xs|
    ensures |Unseen(xs[..i], seen)| <= |Unseen(xs, seen)|
    ensures Unseen(xs[..i], seen) == Unseen(xs, seen)[..|Unseen(xs[..i], seen)|]
  {
    assert xs == xs[..i] + xs[i..];
    UnseenAppend(xs[..i], xs[i..], seen);
  }

  /** Third pass: while fewer than `use` slots are chosen, walk the ring
      from its first slot and add every slot not yet seen. What it adds
      are the ring's unseen slots in ring order, as many as are missing. */
  method TopUp(indices: seq<int>, use: int, unique: seq<int>, seen: set<int>) returns (filled: seq<int>)
    requires 0 < use <= |indices| && Distinct(indices)
    requires Distinct(unique) && |unique| <= use
    requires forall x :: x in seen <==> x in unique
    requires forall x :: x in unique ==> x in indices
    requires |seen| == |unique|
    ensures |filled| == use && filled[..|unique|] == unique
    ensures |Unseen(indices, seen)| >= use - |unique|
    ensures filled[|unique|..] == Unseen(indices, seen)[..use - |unique|]
    ensures Distinct(filled)
    ensures forall x :: x in filled ==> x in indices
  {
    var available := |indices|;
    var seenNow := seen;
    filled := unique;
    var i := 0;
    while |filled| < use
      invariant 0 <= i <= available && |filled| <= use
      invariant filled == unique + Unseen(indices[..i], seen)
      invariant forall x :: x in seenNow <==> x in filled
      decreases available - i
    {
      WalkNotExhausted(indices, i, use, unique, seen, filled);
      var cand := indices[i % available];
      assert cand == indices[i] by { ModSmall(i, available); }
      TopUpStep(indices, i, seen, unique, filled, seenNow);
      if cand !in seenNow {
        filled := filled + [cand];
        seenNow := seenNow + {cand};
      }
      i := i + 1;
    }
    TopUpDone(indices, i, unique, seen, filled);
  }

  /** Once the walk has chosen enough slots, they are the earlier choices
      followed by the first unseen slots of the ring, none repeated. */
  lemma TopUpDone(indices: seq<int>, i: nat, unique: seq<int>, seen: set<int>, filled: seq<int>)
    requires i <= |indices| && Distinct(indices) && Distinct(unique)
    requires forall x :: x in seen <==> x in unique
    requires forall x :: x in unique ==> x in indices
    requires filled == unique + Unseen(indices[..i], seen)
    ensures filled[..|unique|] == unique && Distinct(filled)
    ensures forall x :: x in filled ==> x in indices
    ensures |Unseen(indices, seen)| >= |filled| - |unique|
    ensures filled[|unique|..] == Unseen(indices, seen)[..|filled| - |unique|]
  {
    assert Distinct(indices[..i]) by {
      assert forall a, b :: 0 <= a < b < i ==> indices[..i][a] == indices[a] && indices[..i][b] == indices[b];
    }
    TopUpResult(indices[..i], unique, seen);
    assert forall x :: x in indices[..i] ==> x in indices;
    UnseenPrefix(indices, i, seen);
  }

  /** While fewer than `use` slots are chosen, the walk has not yet passed
      the end of the ring: past the end, every slot would be chosen. */
  lemma WalkNotExhausted(indices: seq<int>, i: nat, use: int, unique: seq<int>, seen: set<int>, filled: seq<int>)
    requires i <= |indices| && Distinct(indices) && use <= |indices|
    requires |seen| == |unique|
    requires filled == unique + Unseen(indices[..i], seen)
    requires |filled| < use
    ensures i < |indices|
  {
    assert |Unseen(indices[..|indices|], seen)| + |seen| >= |indices| by {
      UnseenCount(indices, seen);
      assert indices[..|indices|] == indices;
    }
  }

  /** A repeat-free sequence has at most as many seen entries as `seen`
      has members, so the rest are unseen. */
  lemma {:induction false} UnseenCount(xs: seq<int>, seen: set<int>)
    requires Distinct(xs)
    ensures |Unseen(xs, seen)| + |seen| >= |xs|
  {
    if xs != [] {
      var front, last := xs[..|xs| - 1], xs[|xs| - 1];
      assert xs == front + [last];
      assert Distinct(front) && last !in front by {
        assert forall p :: 0 <= p < |front| ==> front[p] == xs[p] && front[p] != last;
      }
      UnseenSnoc(front, last, seen);
      if last in seen {
        assert |seen - {last}| == |seen| - 1;
        UnseenCount(front, seen - {last});
        UnseenWithout(front, seen, last);
      } else {
        UnseenCount(front, seen);
      }
    }
  }

  /** Dropping from `seen` a value that does not occur changes nothing. */
  lemma {:induction false} UnseenWithout(xs: seq<int>, seen: set<int>, y: int)
    requires y !in xs
    ensures Unseen(xs, seen - {y}) == Unseen(xs, seen)
  {
    if xs != [] {
      assert xs == xs[..|xs| - 1] + [xs[|xs| - 1]];
      UnseenWithout(xs[..|xs| - 1], seen, y);
    }
  }

  /** One step of the top-up walk keeps the chosen slots equal to the
      earlier choices followed by the unseen slots scanned so far. */
  lemma TopUpStep(indices: seq<int>, i: nat, seen: set<int>, unique: seq<int>, filled: seq<int>, seenNow: set<int>)
    requires i < |indices| && Distinct(indices)
    requires forall x :: x in seen <==> x in unique
    requires filled == unique + Unseen(indices[..i], seen)
    requires forall x :: x in seenNow <==> x in filled
    ensures indices[i] in seenNow ==> filled == unique + Unseen(indices[..i + 1], seen)
    ensures indices[i] !in seenNow ==> filled + [indices[i]] == unique + Unseen(indices[..i + 1], seen)
  {
    ScanStep(indices, i, seen);
    var u := Unseen(indices[..i], seen);
    assert indices[i] in seenNow <==> indices[i] in seen by {
      assert indices[i] in seenNow <==> indices[i] in unique + u;
      assert indices[i] !in u;
      assert indices[i] in unique + u <==> indices[i] in unique;
    }
    assert (unique + u) + [indices[i]] == unique + (u + [indices[i]]);
  }

  /** The chosen slots followed by unseen ones of a repeat-free ring are
      pairwise different. */
  lemma TopUpResult(scanned: seq<int>, unique: seq<int>, seen: set<int>)
    requires Distinct(scanned) && Distinct(unique)
    requires forall x :: x in seen <==> x in unique
    ensures Distinct(unique + Unseen(scanned, seen))
    ensures (unique + Unseen(scanned, seen))[..|unique|] == unique
  {
    var u := Unseen(scanned, seen);
    UnseenDistinct(scanned, seen);
    var all := unique + u;
    forall a, b | 0 <= a < b < |all| ensures all[a] != all[b] {
      if b >= |unique| && a < |unique| {
        assert all[b] in u && all[a] in unique;
      }
    }
  }

  lemma {:induction false} UnseenDistinct(xs: seq<int>, seen: set<int>)
    requires Distinct(xs)
    ensures Distinct(Unseen(xs, seen))
  {
    if xs != [] {
      var front := xs[..|xs| - 1];
      UnseenDistinct(front, seen);
      assert forall t :: 0 <= t < |front| ==> front[t] != xs[|xs| - 1];
    }
  }

  // ---------------------------------------------------------------------
  // Orbit animation: start positions and the per-frame advance.

  /** Local start positions of the electrons of one shell (0-based within
      the ring's free slots): none for an empty or negative shell, else
      `round(k * slots / use) % slots` for the first `use = min(count, slots)`. */
  function StartPositions(ring: int, ecount: int): seq<int>
    requires IsRing(ring)
  {
    if ecount <= 0 then [] else EvenlySpaced(Available(ring), Min(ecount, Available(ring)))
  }

  lemma StartPositionsShape(ring: int, ecount: int)
    requires IsRing(ring)
    ensures |StartPositions(ring, ecount)| == Max(0, Min(ecount, Available(ring)))
    ensures forall p :: p in StartPositions(ring, ecount) ==> 0 <= p < Available(ring)
    ensures Distinct(StartPositions(ring, ecount))
  {
    if ecount > 0 {
      EvenlySpacedDistinct(Available(ring), Min(ecount, Available(ring)));
    }
  }

  /** One frame of motion: every electron moves one slot on, wrapping. */
  function Advance(locals: seq<int>, n: int): (next: seq<int>)
    requires n > 0
    ensures |next| == |locals|
  {
    seq(|locals|, p requires 0 <= p < |locals| => (locals[p] + 1) % n)
  }

  /** The hardware LED of a free slot: slot `p` is LED `1 + p` on ring 0,
      LED `p` elsewhere. */
  function SlotLed(ring: int, p: int): (x: int)
    requires IsRing(ring)
    ensures 0 <= p < Available(ring) ==> OnRing(ring, x) && x == Indices(ring)[p]
  {
    if ring == 0 then 1 + p else p
  }

  /** Applying `Advance` a number of times. */
  function AdvanceTimes(locals: seq<int>, n: int, frames: nat): (r: seq<int>)
    requires n > 0
    ensures |r| == |locals|
  {
    if frames == 0 then locals else Advance(AdvanceTimes(locals, n, frames - 1), n)
  }

  /** After `frames` frames an electron that started on the ring sits
      `frames` slots further on. */
  lemma {:induction false} AdvanceTimesShift(locals: seq<int>, n: int, frames: nat)
    requires n > 0
    requires forall p :: 0 <= p < |locals| ==> 0 <= locals[p] < n
    ensures forall p :: 0 <= p < |locals| ==> AdvanceTimes(locals, n, frames)[p] == (locals[p] + frames) % n
  {
    if frames > 0 {
      AdvanceTimesShift(locals, n, frames - 1);
      forall p | 0 <= p < |locals|
        ensures AdvanceTimes(locals, n, frames)[p] == (locals[p] + frames) % n
      {
        ModStep(locals[p] + frames - 1, n);
      }
    }
  }

  lemma ModStep(x: int, n: int)
    requires n > 0
    ensures (x % n + 1) % n == (x + 1) % n
  {
    var q := x / n;
    assert x == q * n + x % n;
    assert x + 1 == q * n + (x % n + 1);
    ModShift(x % n + 1, q, n);
  }

  lemma ModShift(y: int, q: int, n: int)
    requires n > 0
    ensures (q * n + y) % n == y % n
  {
    var d := y / n;
    assert y == d * n + y % n;
    assert q * n + y == (q + d) * n + y % n;
    ModUnique(q * n + y, q + d, y % n, n);
  }

  /** Euclidean division has one quotient and remainder. */
  lemma ModUnique(x: int, a: int, r: int, n: int)
    requires n > 0 && 0 <= r < n && x == a * n + r
    ensures x % n == r
  {
    var b := x / n;
    assert x == b * n + x % n;
    assert (a - b) * n == x % n - r;
    if a - b >= 1 {
      MulMono(1, a - b, n);
    } else if a - b <= -1 {
      MulMono(a - b, -1, n);
    }
  }

  /** A full lap brings every electron back to where it started. */
  lemma AdvanceFullLap(locals: seq<int>, n: int)
    requires n > 0
    requires forall p :: 0 <= p < |locals| ==> 0 <= locals[p] < n
    ensures AdvanceTimes(locals, n, n) == locals
  {
    AdvanceTimesShift(locals, n, n);
    forall p | 0 <= p < |locals| ensures AdvanceTimes(locals, n, n)[p] == locals[p] {
      ModShift(locals[p], 1, n);
      ModSmall(locals[p], n);
    }
  }
}
