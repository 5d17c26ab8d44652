/** Inner-to-outer shell filling, the one algorithm behind every cap table in
    the repository: electron_shell.py (`distribute_by_shell`, either fill
    preset), electron_fixed.py (`compute_shells`, caps [2,8,18,32]),
    electron_atom.py and electron_move.py (`distribute_electrons`,
    caps [2,8,8,18]) and the decay display split of app.py (caps [2,8,12,16]). */
module ShellFill {
  import opened Common

  /** Per-shell counts and the electrons left over after the last shell. */
  datatype Filling = Filling(dist: seq<int>, remaining: int)

  /** Reference definition: shell i takes `min(cap_i, remaining)` and the
      remainder shrinks by what was taken. Peeled from the outermost shell so
      that it reads like the loop that appends one shell at a time. */
  function Fill(total: int, caps: seq<nat>): (f: Filling)
    ensures |f.dist| == |caps|
  {
    if caps == [] then Filling([], total)
    else
      var p := Fill(total, caps[..|caps| - 1]);
      var take := Min(caps[|caps| - 1], p.remaining);
      Filling(p.dist + [take], p.remaining - take)
  }

  /** What a shell holds in closed form: the part of `x` electrons that
      falls within a shell of capacity `cap`. */
  function Clamp(x: int, cap: nat): (r: int)
    ensures 0 <= r <= cap
  {
    Max(0, Min(cap, x))
  }

  /** `distribute_by_shell(total_electrons, fill_caps)` as written: append
      `min(cap, remaining)` per cap and subtract it from `remaining`. */
  method DistributeByShell(total: int, caps: seq<nat>) returns (dist: seq<int>, remaining: int)
    ensures Filling(dist, remaining) == Fill(total, caps)
    ensures |dist| == |caps|
  {
    remaining := total;
    dist := [];
    var i := 0;
    while i < |caps|
      invariant 0 <= i <= |caps|
      invariant Filling(dist, remaining) == Fill(total, caps[..i])
    {
      assert caps[..i + 1][..i] == caps[..i];
      var take := Min(caps[i], remaining);
      dist := dist + [take];
      remaining := remaining - take;
      i := i + 1;
    }
    assert caps[..|caps|] == caps;
  }

  // ---------------------------------------------------------------------
  // Properties of Fill, for every cap table.

  /** Nothing is created or lost: the shells plus the remainder give back
      the total, whatever its sign. */
  lemma {:induction false} FillConserves(total: int, caps: seq<nat>)
    ensures Sum(Fill(total, caps).dist) + Fill(total, caps).remaining == total
  {
    if caps != [] {
      var p := Fill(total, caps[..|caps| - 1]);
      FillConserves(total, caps[..|caps| - 1]);
      SumAppend(p.dist, Min(caps[|caps| - 1], p.remaining));
    }
  }

  /** Filling a shorter cap table gives the same inner shells. */
  lemma {:induction false} FillPrefix(total: int, caps: seq<nat>, n: nat)
    requires n <= |caps|
    ensures Fill(total, caps[..n]) == Filling(Fill(total, caps).dist[..n], Fill(total, caps[..n]).remaining)
    decreases |caps|
  {
    if n < |caps| {
      var front := caps[..|caps| - 1];
      assert front[..n] == caps[..n];
      FillPrefix(total, front, n);
      assert Fill(total, caps).dist[..n] == Fill(total, front).dist[..n];
    } else {
      assert caps[..n] == caps;
    }
  }

  /** Each shell takes `min(cap_i, remaining_i)`, where `remaining_i` is the
      total minus what the inner shells took. */
  lemma FillStep(total: int, caps: seq<nat>, i: nat)
    requires i < |caps|
    ensures Fill(total, caps).dist[i] == Min(caps[i], total - Sum(Fill(total, caps).dist[..i]))
  {
    var d := Fill(total, caps).dist;
    var upto := caps[..i + 1];
    assert upto[..i] == caps[..i];
    var p := Fill(total, caps[..i]);
    FillPrefix(total, caps, i + 1);
    FillPrefix(total, caps, i);
    FillConserves(total, caps[..i]);
    assert Fill(total, upto).dist == p.dist + [Min(caps[i], p.remaining)];
    assert d[i] == Fill(total, upto).dist[i];
  }

  lemma {:induction false} SumPrefixGrows(caps: seq<nat>, i: nat, j: nat)
    requires i <= j <= |caps|
    ensures Sum(caps[..i]) <= Sum(caps[..j])
    decreases j - i
  {
    if i < j {
      SumPrefixGrows(caps, i, j - 1);
      assert caps[..j][..j - 1] == caps[..j - 1];
    }
  }

  /** For a non-negative total the remainder is whatever exceeds all the
      capacities. */
  lemma {:induction false} FillRemainder(total: int, caps: seq<nat>)
    requires total >= 0
    ensures Fill(total, caps).remaining == Max(0, total - Sum(caps))
  {
    if caps != [] {
      var front := caps[..|caps| - 1];
      FillRemainder(total, front);
      ClampStep(total - Sum(front), caps[|caps| - 1]);
    }
  }

  /** Closed form of one shell for a non-negative total: the part of the
      total beyond the inner capacities, clamped to the shell's own. */
  lemma FillShell(total: int, caps: seq<nat>, i: nat)
    requires total >= 0 && i < |caps|
    ensures Fill(total, caps).dist[i] == Clamp(total - Sum(caps[..i]), caps[i])
  {
    var upto := caps[..i + 1];
    FillPrefix(total, caps, i + 1);
    assert upto[..i] == caps[..i];
    FillRemainder(total, caps[..i]);
    ClampStep(total - Sum(caps[..i]), caps[i]);
    assert Fill(total, upto).dist[i] == Fill(total, caps).dist[i];
  }

  lemma FillShells(total: int, caps: seq<nat>)
    requires total >= 0
    ensures forall i :: 0 <= i < |caps| ==>
      Fill(total, caps).dist[i] == Clamp(total - Sum(caps[..i]), caps[i])
  {
    forall i | 0 <= i < |caps|
      ensures Fill(total, caps).dist[i] == Clamp(total - Sum(caps[..i]), caps[i])
    {
      FillShell(total, caps, i);
    }
  }

  /** The filling of a non-negative total as natural numbers, shell by
      shell in closed form; it is the filling `Fill` computes. */
  function Shells(total: nat, caps: seq<nat>): (s: seq<nat>)
    ensures s == Fill(total, caps).dist
  {
    FillShells(total, caps);
    seq(|caps|, i requires 0 <= i < |caps| => Clamp(total - Sum(caps[..i]), caps[i]))
  }

  /** The closed form for a four-shell table, shell by shell. */
  lemma ShellsFour(total: nat, caps: seq<nat>)
    requires |caps| == 4
    ensures Shells(total, caps) == [Clamp(total, caps[0]), Clamp(total - caps[0], caps[1]),
      Clamp(total - caps[0] - caps[1], caps[2]), Clamp(total - caps[0] - caps[1] - caps[2], caps[3])]
  {
    assert caps[..1][..0] == [] && caps[..2][..1] == caps[..1] && caps[..3][..2] == caps[..2];
    assert Sum(caps[..1]) == caps[0];
    assert Sum(caps[..2]) == caps[0] + caps[1];
    assert Sum(caps[..3]) == caps[0] + caps[1] + caps[2];
  }

  /** One shell of the closed form: from `max(0, x)` electrons a shell of
      capacity `c` takes its clamp and leaves `max(0, x - c)`. */
  lemma ClampStep(x: int, c: nat)
    ensures Min(c, Max(0, x)) == Clamp(x, c)
    ensures Max(0, x) - Min(c, Max(0, x)) == Max(0, x - c)
  {
  }

  /** An outer shell is used only once every inner shell is full. */
  lemma FillOrder(total: int, caps: seq<nat>, i: nat, j: nat)
    requires total >= 0 && i < j < |caps| && Fill(total, caps).dist[j] > 0
    ensures Fill(total, caps).dist[i] == caps[i]
  {
    FillShell(total, caps, i);
    FillShell(total, caps, j);
    SumPrefixGrows(caps, i + 1, j);
    assert caps[..i + 1][..i] == caps[..i];
    assert Sum(caps[..i + 1]) == Sum(caps[..i]) + caps[i];
  }

  /** The properties the scripts rely on, for a non-negative total:
      every shell within its cap, outer shells used only once the inner
      ones are full, a remainder exactly when the caps overflow, and the
      shells holding `min(total, sum of caps)` electrons. */
  lemma FillProperties(total: int, caps: seq<nat>)
    requires total >= 0
    ensures forall i :: 0 <= i < |caps| ==> 0 <= Fill(total, caps).dist[i] <= caps[i]
    ensures forall i, j :: 0 <= i < j < |caps| && Fill(total, caps).dist[j] > 0 ==>
      Fill(total, caps).dist[i] == caps[i]
    ensures Fill(total, caps).remaining >= 0
    ensures Fill(total, caps).remaining > 0 <==> total > Sum(caps)
    ensures Sum(Fill(total, caps).dist) == Min(total, Sum(caps))
  {
    FillWithinCaps(total, caps);
    FillInnerFirst(total, caps);
    FillTotal(total, caps);
  }

  lemma FillWithinCaps(total: int, caps: seq<nat>)
    requires total >= 0
    ensures forall i :: 0 <= i < |caps| ==> 0 <= Fill(total, caps).dist[i] <= caps[i]
  {
    var d := Fill(total, caps).dist;
    forall i | 0 <= i < |caps|
      ensures 0 <= d[i] <= caps[i]
    {
      FillShell(total, caps, i);
    }
  }

  lemma FillInnerFirst(total: int, caps: seq<nat>)
    requires total >= 0
    ensures forall i, j :: 0 <= i < j < |caps| && Fill(total, caps).dist[j] > 0 ==>
      Fill(total, caps).dist[i] == caps[i]
  {
    var d := Fill(total, caps).dist;
    forall i, j | 0 <= i < j < |caps| && d[j] > 0
      ensures d[i] == caps[i]
    {
      FillOrder(total, caps, i, j);
    }
  }

  lemma FillTotal(total: int, caps: seq<nat>)
    requires total >= 0
    ensures Fill(total, caps).remaining >= 0
    ensures Fill(total, caps).remaining > 0 <==> total > Sum(caps)
    ensures Sum(Fill(total, caps).dist) == Min(total, Sum(caps))
  {
    FillRemainder(total, caps);
    FillConserves(total, caps);
  }

  /** A negative total (which Python's `min` happily takes) lands entirely
      in the innermost shell and leaves nothing over. */
  lemma {:induction false} FillNegative(total: int, caps: seq<nat>)
    requires total < 0 && |caps| > 0
    ensures Fill(total, caps).dist[0] == total
    ensures forall i :: 0 < i < |caps| ==> Fill(total, caps).dist[i] == 0
    ensures Fill(total, caps).remaining == 0
  {
    if |caps| > 1 {
      FillNegative(total, caps[..|caps| - 1]);
    }
  }
}
