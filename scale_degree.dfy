/** The scale degree of `src/model/ScaleDegree.ts`: an accidental run and a number
    from 1 to 7, with a semitone value above the root. */
module ScaleDegrees {
  import opened Wrappers
  import opened Text
  import Notes

  /** The number table `{'1': 0, '2': 2, '3': 4, '4': 5, '5': 7, '6': 9, '7': 11}`;
      a key outside it reads as `undefined`, which the validated numbers never use. */
  function NumberValue(k: int): int
    requires 1 <= k <= 7
  {
    [0, 2, 4, 5, 7, 9, 11][k - 1]
  }

  /** A scale degree; the only way to one is `New`, which validates. */
  datatype ScaleDegree = ScaleDegree(accidentals: string, number: int) {

    /** What `New` checks: an accepted accidental run and a number from 1 to 7.
        Degree 1 may carry an accidental. */
    predicate Valid() {
      Notes.IsAccidentals(accidentals) && 1 <= number <= 7
    }

    /** Accidentals followed by the decimal number, e.g. "b3". `FromId` reads a valid
        degree back from its id. */
    function Id(): (r: string)
      ensures Valid() ==> FromId(r) == Ok(this)
    {
      if Valid() then
        IntToStringParses(number);
        MatchDegreeIdFindsParts(accidentals, IntToString(number));
        accidentals + IntToString(number)
      else
        accidentals + IntToString(number)
    }

    function Name(): string {
      Id()
    }

    /** Accidental offset plus the number's table entry plus `floor(number / 8) * 12`.
        For numbers 1 to 7 the last term vanishes, so the value is the accidental offset
        plus the table entry, between -2 and 13 and not reduced modulo 12. */
    function Value(): (r: int)
      requires Valid()
      ensures r == Notes.AccidentalValue(accidentals) + NumberValue(number)
      ensures -2 <= r <= 13
    {
      Notes.AccidentalValue(accidentals) + NumberValue(number % 8) + (number / 8) * 12
    }

    /** Equality of ids, which for valid degrees is equality of accidentals and number. */
    function Equals(other: ScaleDegree): (r: bool)
      ensures Valid() && other.Valid() ==> (r <==> this == other)
    {
      Id() == other.Id()
    }
  }

  /** The validating constructor: accidentals are checked before the number. */
  function New(accidentals: string, number: int): (r: Result<ScaleDegree>)
    ensures r.Ok? <==> Notes.IsAccidentals(accidentals) && 1 <= number <= 7
    ensures r.Ok? ==> r.value.accidentals == accidentals && r.value.number == number
    ensures !Notes.IsAccidentals(accidentals) ==> r == Err(RangeError("Invalid accidentals!"))
    ensures Notes.IsAccidentals(accidentals) && !(1 <= number <= 7) ==> r == Err(RangeError("Invalid number!"))
  {
    if !Notes.IsAccidentals(accidentals) then Err(RangeError("Invalid accidentals!"))
    else if number < 1 || number > 7 then Err(RangeError("Invalid number!"))
    else Ok(ScaleDegree(accidentals, number))
  }

  // ------------------------------------------------------------- parsing

  /** The regular expression `^(b|bb|#|##)?([0-9]+)$` as a language. */
  ghost predicate IsDegreeIdShape(id: string) {
    exists a, t :: Notes.IsAccidentals(a) && IsDigits(t) && id == a + t
  }

  /** The two capture groups of that expression (an absent accidental group read as
      the empty run), or None when the text does not match. */
  function MatchDegreeId(id: string): (m: Option<(string, string)>)
    ensures m.Some? ==> Notes.IsAccidentals(m.value.0) && IsDigits(m.value.1) && id == m.value.0 + m.value.1
  {
    if |id| >= 2 && id[..2] in ["bb", "##"] && IsDigits(id[2..]) then
      assert id == id[..2] + id[2..];
      Some((id[..2], id[2..]))
    else if |id| >= 1 && id[..1] in ["b", "#"] && IsDigits(id[1..]) then
      assert id == id[..1] + id[1..];
      Some((id[..1], id[1..]))
    else if IsDigits(id) then
      assert id == "" + id;
      Some(("", id))
    else None
  }

  /** `ScaleDegree.fromId`: RangeError('Invalid scale degree ID!') unless the id matches,
      then the constructor's checks on the parsed number. */
  function FromId(id: string): (r: Result<ScaleDegree>)
    ensures r.Ok? ==> r.value.Valid()
  {
    match MatchDegreeId(id)
    case None => Err(RangeError("Invalid scale degree ID!"))
    case Some((a, t)) => New(a, ParseDigits(t))
  }

  lemma {:induction false} MatchDegreeIdFindsParts(a: string, t: string)
    requires Notes.IsAccidentals(a) && IsDigits(t)
    ensures MatchDegreeId(a + t) == Some((a, t))
  {
    var id := a + t;
    assert IsDigit(t[0]);
    if |a| == 2 {
      assert id[..2] == a && id[2..] == t;
    } else if |a| == 1 {
      assert id[..1] == a && id[1..] == t;
      assert id[1] == t[0];
      assert !(id[..2] in ["bb", "##"]);
    } else {
      assert id == t;
      assert !(|id| >= 2 && id[..2] in ["bb", "##"]);
      assert !(id[..1] in ["b", "#"]);
    }
  }

  /** `fromId` succeeds exactly on an accidental run followed by digits that spell a
      number from 1 to 7; other shapes get the id error, bad numbers the number error. */
  lemma FromIdOutcome(id: string)
    ensures !IsDegreeIdShape(id) ==> FromId(id) == Err(RangeError("Invalid scale degree ID!"))
    ensures IsDegreeIdShape(id) ==>
      var m := MatchDegreeId(id).value;
      && MatchDegreeId(id).Some?
      && (FromId(id).Ok? <==> 1 <= ParseDigits(m.1) <= 7)
      && (FromId(id).Err? ==> FromId(id) == Err(RangeError("Invalid number!")))
  {
    if IsDegreeIdShape(id) {
      var a, t :| Notes.IsAccidentals(a) && IsDigits(t) && id == a + t;
      MatchDegreeIdFindsParts(a, t);
    }
  }

  /** Degree numbers 0 and 8 are refused with the number error. */
  lemma FromIdRefusesZeroAndEight()
    ensures FromId("0") == Err(RangeError("Invalid number!"))
    ensures FromId("8") == Err(RangeError("Invalid number!"))
  {
    MatchDegreeIdFindsParts("", "0");
    assert ParseDigits("0") == 0 by { assert "0"[..0] == ""; }
    MatchDegreeIdFindsParts("", "8");
    assert ParseDigits("8") == 8 by { assert "8"[..0] == ""; }
  }

  /** Accidentals on degree 1 are not refused. */
  lemma FromIdAcceptsAlteredRoot()
    ensures FromId("b1") == Ok(ScaleDegree("b", 1))
    ensures FromId("#1") == Ok(ScaleDegree("#", 1))
  {
    assert Notes.IsAccidentals("b") by { assert Notes.AccidentalRuns[1] == "b"; }
    assert Notes.IsAccidentals("#") by { assert Notes.AccidentalRuns[3] == "#"; }
    MatchDegreeIdFindsParts("b", "1");
    assert "b" + "1" == "b1";
    assert ParseDigits("1") == 1 by { assert "1"[..0] == ""; }
    MatchDegreeIdFindsParts("#", "1");
    assert "#" + "1" == "#1";
  }

  /** Values outside 0..11: a flattened first degree is below 0, a sharpened seventh is 12. */
  lemma ValueNotReduced()
    ensures ScaleDegree("b", 1).Value() == -1
    ensures ScaleDegree("#", 7).Value() == 12
  {
  }

  // ------------------------------------------------- lookup by semitone value

  /** The index of the first degree, in declaration order, whose value is `v`, or -1:
      where the `for ... of` searches in `Context.getScaleDegreeByValue` and
      `Scale.degreeFromValue` stop. */
  function FirstWithValue(ds: seq<ScaleDegree>, v: int): (k: int)
    requires forall i :: 0 <= i < |ds| ==> ds[i].Valid()
    ensures -1 <= k < |ds|
    ensures k >= 0 ==> ds[k].Value() == v
    ensures forall j :: 0 <= j < |ds| && (k == -1 || j < k) ==> ds[j].Value() != v
  {
    if ds == [] then -1
    else if ds[0].Value() == v then 0
    else
      assert forall j :: 1 <= j < |ds| ==> ds[j] == ds[1..][j - 1];
      if FirstWithValue(ds[1..], v) == -1 then -1 else FirstWithValue(ds[1..], v) + 1
  }

  /** An index holding the value, with no earlier index holding it, is the first one. */
  lemma FirstWithValueAt(ds: seq<ScaleDegree>, k: int, v: int)
    requires forall i :: 0 <= i < |ds| ==> ds[i].Valid()
    requires 0 <= k < |ds| && ds[k].Value() == v
    requires forall j :: 0 <= j < k ==> ds[j].Value() != v
    ensures FirstWithValue(ds, v) == k
  {
  }

  /** When some degree holds the value, the search finds one. */
  lemma FirstWithValueFound(ds: seq<ScaleDegree>, i: int, v: int)
    requires forall i :: 0 <= i < |ds| ==> ds[i].Valid()
    requires 0 <= i < |ds| && ds[i].Value() == v
    ensures FirstWithValue(ds, v) >= 0
  {
  }

  /** Some degree holds the value exactly when the search finds one. */
  lemma FirstWithValueExists(ds: seq<ScaleDegree>, v: int)
    requires forall i :: 0 <= i < |ds| ==> ds[i].Valid()
    ensures FirstWithValue(ds, v) >= 0 <==> exists i :: 0 <= i < |ds| && ds[i].Value() == v
  {
    if exists i :: 0 <= i < |ds| && ds[i].Value() == v {
      var i :| 0 <= i < |ds| && ds[i].Value() == v;
      FirstWithValueFound(ds, i, v);
    }
  }

  /** The fallback names for the twelve residues, `['1', 'b2', '2', 'b3', '3', '4', 'b5',
      '5', 'b6', '6', 'b7', '7']`, held both by `Context.ts` and by `Scale.ts`. */
  const DefaultDegreeNames: seq<string> := ["1", "b2", "2", "b3", "3", "4", "b5", "5", "b6", "6", "b7", "7"]

  /** The degree each default name spells, as accidentals and number. */
  const DefaultDegreeParts: seq<(string, int)> :=
    [("", 1), ("b", 2), ("", 2), ("b", 3), ("", 3), ("", 4), ("b", 5), ("", 5), ("b", 6), ("", 6), ("b", 7), ("", 7)]

  lemma DefaultPartsSpellNames(v: int)
    requires 0 <= v < 12
    ensures var d := ScaleDegree(DefaultDegreeParts[v].0, DefaultDegreeParts[v].1);
      d.Valid() && d.Id() == DefaultDegreeNames[v] && d.Value() == v
  {
    var d := ScaleDegree(DefaultDegreeParts[v].0, DefaultDegreeParts[v].1);
    assert Notes.IsAccidentals("") by { assert Notes.AccidentalRuns[2] == ""; }
    assert Notes.IsAccidentals("b") by { assert Notes.AccidentalRuns[1] == "b"; }
    assert IntToString(d.number) == [DigitChar(d.number)];
  }

  /** The degree `ScaleDegree.fromId(defaultNames[v])` builds for a residue `v`, read
      from the table of parts; `DefaultNameParses` shows the parse gives exactly it. */
  function DefaultDegree(v: int): (d: ScaleDegree)
    requires 0 <= v < 12
    ensures d.Valid() && d.Value() == v
  {
    DefaultPartsSpellNames(v);
    ScaleDegree(DefaultDegreeParts[v].0, DefaultDegreeParts[v].1)
  }

  /** Every default name parses, to the default degree of its residue. */
  lemma DefaultNameParses(v: int)
    requires 0 <= v < 12
    ensures FromId(DefaultDegreeNames[v]) == Ok(DefaultDegree(v))
  {
    DefaultPartsSpellNames(v);
    assert DefaultDegree(v).Valid();
  }
}
