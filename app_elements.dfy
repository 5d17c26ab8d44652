/** The `ELEMENTS` table of app.py: the ground-state configuration text of
    hydrogen to argon, and the lookup with its hydrogen fallback. */
module Elements {
  import opened Common
  import opened ShellFill
  import opened ConfCodec

  /** The table's keys in their written order (the order the index page
      lists them in); key `i` is the element with atomic number `i + 1`. */
  const ElementNames: seq<string> := [
    "Hydrogen", "Helium", "Lithium", "Beryllium", "Boron", "Carbon",
    "Nitrogen", "Oxygen", "Fluorine", "Neon", "Sodium", "Magnesium",
    "Aluminum", "Silicon", "Phosphorus", "Sulfur", "Chlorine", "Argon"]

  const ElementTable: map<string, string> := map[
    "Hydrogen" := "1,0,0,0", "Helium" := "2,0,0,0", "Lithium" := "2,1,0,0",
    "Beryllium" := "2,2,0,0", "Boron" := "2,3,0,0", "Carbon" := "2,4,0,0",
    "Nitrogen" := "2,5,0,0", "Oxygen" := "2,6,0,0", "Fluorine" := "2,7,0,0",
    "Neon" := "2,8,0,0", "Sodium" := "2,8,1,0", "Magnesium" := "2,8,2,0",
    "Aluminum" := "2,8,3,0", "Silicon" := "2,8,4,0", "Phosphorus" := "2,8,5,0",
    "Sulfur" := "2,8,6,0", "Chlorine" := "2,8,7,0", "Argon" := "2,8,8,0"]

  /** What an unknown name is shown as. */
  const FallbackConf := "1,0,0,0"

  /** The chemical capacities the table follows. */
  const ChemicalCaps: seq<nat> := [2, 8, 8, 18]

  /** `ELEMENTS.get(name, "1,0,0,0")`. */
  function ElementConf(name: string): string
  {
    if name in ElementTable then ElementTable[name] else FallbackConf
  }

  /** The atomic number of a known element, and 1 for anything else. */
  function AtomicNumber(name: string): (z: nat)
    ensures 1 <= z <= 18
    ensures name in ElementNames ==> ElementNames[z - 1] == name
    ensures name !in ElementNames ==> z == 1
  {
    if name in ElementNames then IndexOf(ElementNames, name) + 1 else 1
  }

  function IndexOf(names: seq<string>, name: string): (i: nat)
    requires name in names
    ensures i < |names| && names[i] == name
  {
    if names[0] == name then 0 else 1 + IndexOf(names[1..], name)
  }

  /** The keys listed are the table's keys, each once. */
  lemma NamesAreKeys()
    ensures |ElementNames| == 18
    ensures forall i, j :: 0 <= i < j < |ElementNames| ==> ElementNames[i] != ElementNames[j]
    ensures forall name :: name in ElementTable <==> name in ElementNames
  {
  }

  /** The configuration text of `z` electrons, 1 <= z <= 18, digit by
      digit: K holds `min(z, 2)`, L the next eight, M the next eight and N
      nothing. */
  function ChemicalText(z: int): string
    requires 1 <= z <= 18
  {
    [DigitChar(Min(z, 2)), ',', DigitChar(Clamp(z - 2, 8)), ',', DigitChar(Clamp(z - 10, 8)), ',', '0']
  }

  /** Each written entry is the digit-by-digit text of its atomic number. */
  lemma TableRow(i: int)
    requires 0 <= i < 18
    ensures ElementTable[ElementNames[i]] == ChemicalText(i + 1)
  {
    if i < 6 {
      TableRowsHToC(i);
    } else if i < 12 {
      TableRowsNToMg(i);
    } else {
      TableRowsAlToAr(i);
    }
  }

  lemma TableRowsHToC(i: int)
    requires 0 <= i < 6
    ensures ElementTable[ElementNames[i]] == ChemicalText(i + 1)
  {
    match i
      case 0 =>
      case 1 =>
      case 2 =>
      case 3 =>
      case 4 =>
      case _ =>
  }

  lemma TableRowsNToMg(i: int)
    requires 6 <= i < 12
    ensures ElementTable[ElementNames[i]] == ChemicalText(i + 1)
  {
    match i
      case 6 =>
      case 7 =>
      case 8 =>
      case 9 =>
      case 10 =>
      case _ =>
  }

  lemma TableRowsAlToAr(i: int)
    requires 12 <= i < 18
    ensures ElementTable[ElementNames[i]] == ChemicalText(i + 1)
  {
    match i
      case 12 =>
      case 13 =>
      case 14 =>
      case 15 =>
      case 16 =>
      case _ =>
  }

  /** The digit-by-digit text is the configuration text of the chemical
      filling. */
  lemma ChemicalTextIsConf(z: int)
    requires 1 <= z <= 18
    ensures ChemicalText(z) == ConfText(Shells(z, ChemicalCaps))
  {
    ChemicalShells(z);
    ConfTextDigits(Min(z, 2), Clamp(z - 2, 8), Clamp(z - 10, 8), 0);
  }

  /** The chemical filling in closed form: K takes the first two
      electrons, L and M the next eight each, N the next eighteen. */
  lemma ChemicalShells(z: nat)
    ensures Shells(z, ChemicalCaps) == [Clamp(z, 2), Clamp(z as int - 2, 8), Clamp(z as int - 10, 8), Clamp(z as int - 18, 18)]
  {
    ShellsFour(z, ChemicalCaps);
  }

  /** Each entry is the inner-to-outer filling of its atomic number under
      the chemical capacities. */
  lemma TableIsChemicalFilling()
    ensures forall i :: 0 <= i < 18 ==> ElementTable[ElementNames[i]] == ConfText(Shells(i + 1, ChemicalCaps))
  {
    forall i | 0 <= i < 18
      ensures ElementTable[ElementNames[i]] == ConfText(Shells(i + 1, ChemicalCaps))
    {
      TableRow(i);
      ChemicalTextIsConf(i + 1);
    }
  }

  /** Whatever name is asked for, the text sent decodes to the chemical
      filling of its atomic number; an unknown name is shown as hydrogen. */
  lemma ElementConfDecodes(name: string)
    ensures ParseCounts(ElementConf(name)) == Some(Shells(AtomicNumber(name), ChemicalCaps))
    ensures name !in ElementTable ==> ElementConf(name) == ElementTable["Hydrogen"]
  {
    NamesAreKeys();
    var z := AtomicNumber(name);
    TableRow(z - 1);
    ChemicalTextIsConf(z);
    ParseConfText(Shells(z, ChemicalCaps));
  }
}
