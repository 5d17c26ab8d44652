/** The text of a `CONF:` command: the electron counts of the four rings
    written in decimal and separated by commas (`CONF:2,8,1,0`), as the
    controller reads them back. */
module ConfCodec {
  import opened Common

  /** Parts joined by commas. */
  function Join(parts: seq<string>): string
    requires |parts| >= 1
  {
    if |parts| == 1 then parts[0] else parts[0] + "," + Join(parts[1..])
  }

  lemma JoinFour(a: string, b: string, c: string, d: string)
    ensures Join([a, b, c, d]) == a + "," + b + "," + c + "," + d
  {
    assert [c, d][1..] == [d];
    assert Join([c, d]) == c + "," + d;
    assert [b, c, d][1..] == [c, d];
    assert Join([b, c, d]) == b + "," + (c + "," + d);
    assert [a, b, c, d][1..] == [b, c, d];
    assert Join([a, b, c, d]) == a + "," + (b + "," + (c + "," + d));
  }

  /** The text of four one-digit counts, character by character. */
  lemma ConfTextDigits(a: nat, b: nat, c: nat, d: nat)
    requires a < 10 && b < 10 && c < 10 && d < 10
    ensures ConfText([a, b, c, d]) == [DigitChar(a), ',', DigitChar(b), ',', DigitChar(c), ',', DigitChar(d)]
  {
    var counts := [a, b, c, d];
    var parts := seq(4, i requires 0 <= i < 4 => NatToString(counts[i]));
    assert parts == [[DigitChar(a)], [DigitChar(b)], [DigitChar(c)], [DigitChar(d)]];
    JoinFour(parts[0], parts[1], parts[2], parts[3]);
  }

  /** Python's `str.split(",")`: the text between commas, empty parts
      included. */
  function Split(s: string): (parts: seq<string>)
    ensures |parts| >= 1
  {
    if s == [] then [""]
    else
      var rest := Split(s[1..]);
      if s[0] == ',' then [""] + rest else [[s[0]] + rest[0]] + rest[1..]
  }

  /** Text without a comma runs into the first part of what follows it. */
  lemma {:induction false} SplitPlain(w: string, t: string)
    requires ',' !in w
    ensures Split(w + t) == [w + Split(t)[0]] + Split(t)[1..]
  {
    if w != [] {
      assert (w + t)[1..] == w[1..] + t;
      SplitPlain(w[1..], t);
      assert [w[0]] + (w[1..] + Split(t)[0]) == w + Split(t)[0];
    } else {
      assert w + t == t && w + Split(t)[0] == Split(t)[0];
      assert [Split(t)[0]] + Split(t)[1..] == Split(t);
    }
  }

  /** Splitting undoes joining when no part holds a comma. */
  lemma {:induction false} SplitJoin(parts: seq<string>)
    requires |parts| >= 1
    requires forall i :: 0 <= i < |parts| ==> ',' !in parts[i]
    ensures Split(Join(parts)) == parts
  {
    if |parts| == 1 {
      SplitPlain(parts[0], "");
      assert parts[0] + "" == parts[0];
    } else {
      var tail := Join(parts[1..]);
      SplitJoin(parts[1..]);
      assert "," + tail == [','] + tail;
      assert Split("," + tail) == [""] + parts[1..] by {
        assert ("," + tail)[1..] == tail;
      }
      assert parts[0] + "," + tail == parts[0] + ("," + tail);
      SplitPlain(parts[0], "," + tail);
      assert parts[0] + "" == parts[0];
      assert [parts[0]] + parts[1..] == parts;
    }
  }

  predicate IsNumeral(p: string)
  {
    |p| >= 1 && forall i :: 0 <= i < |p| ==> IsDigit(p[i])
  }

  /** The comma-separated counts of a configuration text, or `None` when a
      part is not a decimal number. */
  function ParseCounts(s: string): (r: Option<seq<nat>>)
    ensures r.Some? ==> |r.value| == |Split(s)|
  {
    var parts := Split(s);
    if forall i :: 0 <= i < |parts| ==> IsNumeral(parts[i])
    then Some(seq(|parts|, i requires 0 <= i < |parts| => ParseDigits(parts[i])))
    else None
  }

  /** `f"{k},{l},{m},{n}"` for any number of counts. */
  function ConfText(counts: seq<nat>): string
    requires |counts| >= 1
  {
    Join(seq(|counts|, i requires 0 <= i < |counts| => NatToString(counts[i])))
  }

  /** Reading a configuration text back gives the counts written. */
  lemma ParseConfText(counts: seq<nat>)
    requires |counts| >= 1
    ensures ParseCounts(ConfText(counts)) == Some(counts)
  {
    var parts := seq(|counts|, i requires 0 <= i < |counts| => NatToString(counts[i]));
    forall i | 0 <= i < |parts| ensures ',' !in parts[i] {
      assert forall j :: 0 <= j < |parts[i]| ==> IsDigit(parts[i][j]);
    }
    SplitJoin(parts);
    assert Split(ConfText(counts)) == parts;
    assert forall i :: 0 <= i < |parts| ==> IsNumeral(parts[i]);
    forall i | 0 <= i < |parts| ensures ParseDigits(parts[i]) == counts[i] {
      ParseNatToString(counts[i]);
    }
    assert seq(|parts|, i requires 0 <= i < |parts| => ParseDigits(parts[i])) == counts;
  }

  /** Hence two configurations are sent as the same text only when they
      are the same counts. */
  lemma ConfTextInjective(a: seq<nat>, b: seq<nat>)
    requires |a| >= 1 && |b| >= 1 && ConfText(a) == ConfText(b)
    ensures a == b
  {
    ParseConfText(a);
    ParseConfText(b);
  }
}
