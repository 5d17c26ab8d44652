/** `get_closest_color` of app.py: the calibrated colour nearest to a
    sample, or "None" when nothing is close enough. Distances are compared
    squared: the square root is monotone, the starting bound 100000 is the
    root of 10^10 and `dist > 120` holds exactly when the square exceeds
    14400. */
module ColorMatch {
  import opened Common

  datatype Rgb = Rgb(r: int, g: int, b: int)

  /** One entry of the colour card: a name and its measured colour. */
  datatype Calibration = Calibration(name: string, rgb: Rgb)

  /** The square of the starting `min_dist = 100000`. */
  const StartBoundSq := 10_000_000_000

  /** The square of the acceptance radius 120. */
  const RadiusSq := 14400

  function SqDist(x: Rgb, y: Rgb): nat
  {
    (x.r - y.r) * (x.r - y.r) + (x.g - y.g) * (x.g - y.g) + (x.b - y.b) * (x.b - y.b)
  }

  /** The smallest squared distance from the sample to the card, capped by
      the starting bound. */
  function MinSq(card: seq<Calibration>, sample: Rgb): int
  {
    if card == [] then StartBoundSq
    else Min(MinSq(card[..|card| - 1], sample), SqDist(sample, card[|card| - 1].rgb))
  }

  /** The entry a strict `<` scan settles on: the latest entry that beats
      every entry before it and the starting bound. */
  function Best(card: seq<Calibration>, sample: Rgb): (b: Option<nat>)
    ensures b.Some? ==> b.value < |card|
  {
    if card == [] then None
    else if SqDist(sample, card[|card| - 1].rgb) < MinSq(card[..|card| - 1], sample) then Some(|card| - 1)
    else Best(card[..|card| - 1], sample)
  }

  /** The classifier's answer, as a function of the card and the sample. */
  function Classify(card: seq<Calibration>, sample: Rgb): string
  {
    if MinSq(card, sample) > RadiusSq || Best(card, sample).None? then "None"
    else card[Best(card, sample).value].name
  }

  /** The scan as written: keep the running minimum and the name that
      reached it, then reject a minimum beyond the radius. */
  method GetClosestColor(card: seq<Calibration>, sample: Rgb) returns (name: string)
    ensures name == Classify(card, sample)
  {
    var bestName := "None";
    var minSq := StartBoundSq;
    for i := 0 to |card|
      invariant minSq == MinSq(card[..i], sample)
      invariant bestName == if Best(card[..i], sample).None? then "None" else card[Best(card[..i], sample).value].name
    {
      assert card[..i + 1][..i] == card[..i];
      var d := SqDist(sample, card[i].rgb);
      if d < minSq {
        minSq := d;
        bestName := card[i].name;
      }
    }
    assert card[..|card|] == card;
    if minSq > RadiusSq {
      return "None";
    }
    name := bestName;
  }

  /** `MinSq` is the minimum: no entry is closer, and it is reached by an
      entry unless every entry is beyond the starting bound. */
  lemma {:induction false} MinSqIsMinimum(card: seq<Calibration>, sample: Rgb)
    ensures MinSq(card, sample) <= StartBoundSq
    ensures forall j :: 0 <= j < |card| ==> MinSq(card, sample) <= SqDist(sample, card[j].rgb)
    ensures Best(card, sample).None? <==> MinSq(card, sample) == StartBoundSq && forall j :: 0 <= j < |card| ==> SqDist(sample, card[j].rgb) >= StartBoundSq
    ensures Best(card, sample).Some? ==> SqDist(sample, card[Best(card, sample).value].rgb) == MinSq(card, sample)
    ensures Best(card, sample).Some? ==> forall j :: 0 <= j < Best(card, sample).value ==>
      SqDist(sample, card[j].rgb) > MinSq(card, sample)
  {
    if card != [] {
      var front := card[..|card| - 1];
      MinSqIsMinimum(front, sample);
      assert forall j :: 0 <= j < |front| ==> front[j] == card[j];
    }
  }

  /** An empty card, or one whose every colour lies beyond the radius,
      classifies every sample as "None". */
  lemma NothingCloseEnough(card: seq<Calibration>, sample: Rgb)
    requires forall j :: 0 <= j < |card| ==> SqDist(sample, card[j].rgb) > RadiusSq
    ensures Classify(card, sample) == "None"
  {
    MinSqIsMinimum(card, sample);
    if card != [] {
      assert MinSq(card, sample) > RadiusSq by {
        if Best(card, sample).Some? {
          assert SqDist(sample, card[Best(card, sample).value].rgb) > RadiusSq;
        }
      }
    }
  }

  /** Otherwise the answer is the name of the first entry at the smallest
      distance: a later entry at the same distance never replaces it. */
  lemma FirstClosestWins(card: seq<Calibration>, sample: Rgb, i: nat)
    requires i < |card| && SqDist(sample, card[i].rgb) <= RadiusSq
    requires forall j :: 0 <= j < |card| ==> SqDist(sample, card[i].rgb) <= SqDist(sample, card[j].rgb)
    requires forall j :: 0 <= j < i ==> SqDist(sample, card[i].rgb) < SqDist(sample, card[j].rgb)
    ensures Classify(card, sample) == card[i].name
  {
    MinSqIsMinimum(card, sample);
    var b := Best(card, sample);
    assert b.Some?;
    assert b.value == i;
  }
}
