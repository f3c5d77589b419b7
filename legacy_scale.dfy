/** The scale of `src/model/Scale.ts` (the earlier generation): a root pitch-class note,
    the declared degrees, and one spelled note per degree. Notes are `PitchNote`s, whose
    values are not reduced modulo 12; `ScaleDegree.fromName` is taken to be
    `ScaleDegree.fromId`, and `naturalDegree` to keep the number and drop the
    accidentals, so `parseInt(naturalDegree.name) - 1` is `number - 1`. */
module LegacyScales {
  import opened Wrappers
  import opened Text
  import opened Notes
  import opened ScaleDegrees
  import opened PitchClassNotes

  /** What `ScaleDegree.fromName(undefined)` is taken to throw when a value has neither a
      declared degree nor a default name. */
  const UndefinedDegreeName: Error := TypeError("Cannot read properties of undefined")

  /** `(a % 12)` with JavaScript's truncating remainder, then 12 added when negative:
      the normalisation of `degreeFromNote`, which always lands on the residue. */
  function Residue(a: int): (r: int)
    ensures 0 <= r < 12
    ensures r == a % 12
  {
    if JsRem12(a) < 0 then JsRem12(a) + 12 else JsRem12(a)
  }

  /** Equal, or an octave apart in either direction. */
  predicate OctaveApart(a: int, b: int) {
    a == b || a == b + 12 || a == b - 12
  }

  /** The natural letter of a degree: `naturalDegree - 1` letters above the root's
      letter, cyclically over C..B. */
  function NaturalLetter(root: PitchNote, d: ScaleDegree): (l: char)
    requires root.WellFormed() && d.Valid()
    ensures IsLetter(l)
  {
    Letters[(IndexOfLetter(root.letter) + d.number - 1) % 7]
  }

  /** `naturalNoteValue` after the adjustment: the letter's value, lowered by an octave
      when it lies above the target value. */
  function AdjustedNatural(letter: char, value: int): int
    requires IsLetter(letter)
  {
    if LetterValue(letter) > value then LetterValue(letter) - 12 else LetterValue(letter)
  }

  function Sharps(letter: char, value: int): int
    requires IsLetter(letter)
  {
    value - AdjustedNatural(letter, value)
  }

  function Flats(letter: char, value: int): int
    requires IsLetter(letter)
  {
    AdjustedNatural(letter, value) - value + 12
  }

  /** `sharps < flats ? '#'.repeat(sharps) : 'b'.repeat(flats)`. */
  function Modifier(letter: char, value: int): Result<string>
    requires IsLetter(letter)
  {
    if Sharps(letter, value) < Flats(letter, value) then JsRepeat('#', Sharps(letter, value))
    else JsRepeat('b', Flats(letter, value))
  }

  /** For every value from -1 up, the adjusted natural lies at or below the value, and
      the sharp and flat distances always add up to an octave. */
  lemma AdjustedNaturalBelow(letter: char, value: int)
    requires IsLetter(letter)
    ensures value >= -1 ==> AdjustedNatural(letter, value) <= value
    ensures Sharps(letter, value) + Flats(letter, value) == 12
    ensures -1 <= value < 12 ==> 0 <= Sharps(letter, value) < 12
  {
    LetterValueIsIndexed(IndexOfLetter(letter));
  }

  /** A modifier that is built is a run of sharps below six or a run of at most six flats. */
  lemma ModifierIsRun(letter: char, value: int)
    requires IsLetter(letter) && Modifier(letter, value).Ok?
    ensures IsRun(Modifier(letter, value).value)
    ensures Sharps(letter, value) < Flats(letter, value) ==>
      RunValue(Modifier(letter, value).value) == Sharps(letter, value)
    ensures Sharps(letter, value) >= Flats(letter, value) ==>
      RunValue(Modifier(letter, value).value) == -Flats(letter, value)
  {
    if Sharps(letter, value) < Flats(letter, value) {
      RepeatedRunValue('#', Sharps(letter, value));
    } else {
      RepeatedRunValue('b', Flats(letter, value));
    }
  }

  /** The spelling step of `noteFromValue` once the letter is chosen (lines 74-84). The
      note keeps the letter, carries at most five sharps or six flats, and its value is
      congruent to the target; when the letter alone already has the target value no
      accidental is added. It fails only when the chosen count is negative. */
  function SpellOnLetter(letter: char, value: int): (r: Result<PitchNote>)
    requires IsLetter(letter)
    ensures r.Ok? <==> 0 <= Sharps(letter, value) <= 12
    ensures r.Ok? ==> r.value.WellFormed() && r.value.letter == letter
    ensures r.Ok? ==> Modifier(letter, value).Ok? && r.value.modifier == Modifier(letter, value).value
    ensures r.Ok? ==> -6 <= RunValue(r.value.modifier) <= 5
    ensures r.Ok? ==> OctaveApart(r.value.Value(), value)
    ensures r.Err? ==> r.error.RangeError?
    ensures LetterValue(letter) == value ==> r == Ok(PitchNote(letter, ""))
    ensures -1 <= value < 12 ==> r.Ok?
  {
    match Modifier(letter, value)
    case Err(e) => Err(e)
    case Ok(m) =>
      ModifierIsRun(letter, value);
      AdjustedNaturalBelow(letter, value);
      FromNameOfName(PitchNote(letter, m));
      FromName([letter] + m)
  }

  /** How a scale is rooted by `Scale.fromString`: by a name or by a note. */
  datatype RootArg = RootName(name: string) | RootNote(note: PitchNote)

  /** A scale. `notes` is what the constructor computes from the other two fields; the
      functions below other than `ContainsNote` read only `root` and `degrees`, as
      `this.notes` is not yet set while the constructor maps the degrees. */
  datatype Scale = Scale(root: PitchNote, degrees: seq<ScaleDegree>, notes: seq<PitchNote>) {

    /** A well-formed root and valid degrees. */
    predicate Keyed() {
      root.WellFormed() && forall i :: 0 <= i < |degrees| ==> degrees[i].Valid()
    }

    /** What the constructor sets: `notes[i] = noteFromDegree(degrees[i])`. */
    predicate Built() {
      Keyed() && |notes| == |degrees| &&
      forall i :: 0 <= i < |degrees| ==> NoteFromDegree(degrees[i]) == Ok(notes[i])
    }

    /** What the rest of the scale relies on of its notes: one well-formed note per
        degree, within an octave of `(root.value + degree.value) % 12`. `Built` implies it. */
    predicate Valid() {
      Keyed() && |notes| == |degrees| &&
      forall i :: 0 <= i < |degrees| ==>
        notes[i].WellFormed() && OctaveApart(notes[i].Value(), DegreeNoteValue(degrees[i]))
    }

    /** `degreeFromValue`: the first declared degree with exactly this value, else the
        default name of the value, which exists for 0..11 only. */
    function DegreeFromValue(v: int): (r: Result<ScaleDegree>)
      requires Keyed()
      ensures r.Ok? <==> FirstWithValue(degrees, v) >= 0 || 0 <= v < 12
      ensures r.Ok? ==> r.value.Valid() && r.value.Value() == v
      ensures FirstWithValue(degrees, v) >= 0 ==> r == Ok(degrees[FirstWithValue(degrees, v)])
      ensures FirstWithValue(degrees, v) < 0 && 0 <= v < 12 ==> r == Ok(DefaultDegree(v))
      ensures r.Err? ==> r.error == UndefinedDegreeName
    {
      if FirstWithValue(degrees, v) >= 0 then Ok(degrees[FirstWithValue(degrees, v)])
      else if 0 <= v < 12 then Ok(DefaultDegree(v))
      else Err(UndefinedDegreeName)
    }

    /** `degreeFromNote`: the degree of the interval from the root, reduced into 0..11;
        it never fails, and it is a declared degree whenever one has that value. */
    function DegreeFromNote(n: PitchNote): (r: Result<ScaleDegree>)
      requires Keyed() && n.WellFormed()
      ensures r.Ok? && r.value.Valid()
      ensures r.value.Value() == Residue(n.Value() - root.Value())
      ensures FirstWithValue(degrees, Residue(n.Value() - root.Value())) >= 0 ==> r.value in degrees
    {
      DegreeFromValue(Residue(n.Value() - root.Value()))
    }

    /** `scaleDegreeValue` of `noteFromValue`: the interval from the root, with 12 added
        once when it is negative. */
    function WrappedInterval(value: int): int
      requires root.WellFormed()
    {
      if value - root.Value() < 0 then value - root.Value() + 12 else value - root.Value()
    }

    /** `noteFromValue`: the degree of the wrapped interval picks the letter (stepped
        from the root's letter), then the shorter accidental run reaches the value. The note is congruent to the value, and
        for a root valued 0..11 every value from -1 to 11 is spelled. */
    function NoteFromValue(value: int): (r: Result<PitchNote>)
      requires Keyed()
      ensures r.Ok? ==> r.value.WellFormed() && OctaveApart(r.value.Value(), value)
      ensures r.Ok? ==> (DegreeFromValue(WrappedInterval(value)).Ok? &&
        r.value.letter == NaturalLetter(root, DegreeFromValue(WrappedInterval(value)).value))
      ensures r.Ok? ==> (Modifier(r.value.letter, value).Ok? &&
        r.value.modifier == Modifier(r.value.letter, value).value)
      ensures r.Ok? ==> -6 <= RunValue(r.value.modifier) <= 5
      ensures r.Err? ==> r.error == UndefinedDegreeName || r.error.RangeError?
      ensures 0 <= root.Value() < 12 && -1 <= value < 12 ==> r.Ok?
    {
      match DegreeFromValue(WrappedInterval(value))
      case Err(e) => Err(e)
      case Ok(d) => SpellOnLetter(NaturalLetter(root, d), value)
    }

    /** `noteFromDegree`: the note at `(root.value + degree.value) % 12`, congruent to
        the root raised by the degree; it is spelled whenever the root is valued 0..11 and
        the sum is not below -1. */
    function NoteFromDegree(d: ScaleDegree): (r: Result<PitchNote>)
      requires Keyed() && d.Valid()
      ensures r.Ok? ==> r.value.WellFormed() && OctaveApart(r.value.Value(), DegreeNoteValue(d))
      ensures 0 <= root.Value() < 12 && root.Value() + d.Value() >= -1 ==> r.Ok?
    {
      NoteFromValue(DegreeNoteValue(d))
    }

    /** `(root.value + degree.value) % 12`, with JavaScript's truncating remainder. */
    function DegreeNoteValue(d: ScaleDegree): (v: int)
      requires Keyed() && d.Valid()
      ensures root.Value() + d.Value() >= -1 ==> -1 <= v < 12
    {
      JsRem12(root.Value() + d.Value())
    }

    /** `containsNote`: some note of the scale has the same value. A note the scale
        contains lies a declared degree above the root, modulo 12. */
    function ContainsNote(n: PitchNote): (r: bool)
      requires Valid() && n.WellFormed()
      ensures r ==> exists i ::
        0 <= i < |degrees| && Residue(n.Value() - root.Value()) == Residue(degrees[i].Value())
    {
      if exists i :: 0 <= i < |notes| && notes[i].Value() == n.Value() then
        StoredValueOnDegree(this, n);
        true
      else
        false
    }

    /** `containsDegree`: some declared degree has the same value. Exactly then
        `degreeFromValue` finds a declared degree for that value. */
    function ContainsDegree(d: ScaleDegree): (r: bool)
      requires Keyed() && d.Valid()
      ensures r <==> FirstWithValue(degrees, d.Value()) >= 0
      ensures r ==> DegreeFromValue(d.Value()).Ok? && DegreeFromValue(d.Value()).value in degrees
      ensures r ==> DegreeFromValue(d.Value()).value.Value() == d.Value()
    {
      FirstWithValueExists(degrees, d.Value());
      exists i :: 0 <= i < |degrees| && degrees[i].Value() == d.Value()
    }
  }

  /** The functions of a scale read only its root and degrees. */
  lemma NotesNotRead(s: Scale, t: Scale, d: ScaleDegree)
    requires s.root == t.root && s.degrees == t.degrees && s.Keyed() && d.Valid()
    ensures s.NoteFromDegree(d) == t.NoteFromDegree(d)
  {
    assert s.DegreeNoteValue(d) == t.DegreeNoteValue(d);
    NoteFromValueNotesNotRead(s, t, s.DegreeNoteValue(d));
  }

  lemma NoteFromValueNotesNotRead(s: Scale, t: Scale, v: int)
    requires s.root == t.root && s.degrees == t.degrees && s.Keyed()
    ensures s.NoteFromValue(v) == t.NoteFromValue(v)
  {
    assert s.WrappedInterval(v) == t.WrappedInterval(v);
    assert s.DegreeFromValue(s.WrappedInterval(v)) == t.DegreeFromValue(s.WrappedInterval(v));
  }

  /** The constructor: every degree's note, the first failure aborting. */
  function New(root: PitchNote, degrees: seq<ScaleDegree>): (r: Result<Scale>)
    requires Scale(root, degrees, []).Keyed()
    ensures r.Ok? <==> forall i :: 0 <= i < |degrees| ==> Scale(root, degrees, []).NoteFromDegree(degrees[i]).Ok?
    ensures r.Ok? ==> r.value.Built() && r.value.Valid()
    ensures r.Ok? ==> r.value.root == root && r.value.degrees == degrees
  {
    match Collect(seq(|degrees|, i requires 0 <= i < |degrees| => Scale(root, degrees, []).NoteFromDegree(degrees[i])))
    case Err(e) => Err(e)
    case Ok(notes) =>
      assert forall i :: 0 <= i < |degrees| ==>
        Scale(root, degrees, notes).NoteFromDegree(degrees[i]) == Ok(notes[i]) by {
        forall i | 0 <= i < |degrees|
          ensures Scale(root, degrees, notes).NoteFromDegree(degrees[i]) == Ok(notes[i])
        {
          NotesNotRead(Scale(root, degrees, []), Scale(root, degrees, notes), degrees[i]);
        }
      }
      BuiltIsValid(Scale(root, degrees, notes));
      Ok(Scale(root, degrees, notes))
  }

  /** A scale rooted on a note valued 0..11 whose degrees are not below -1 semitone
      always builds. */
  lemma NewSucceeds(root: PitchNote, degrees: seq<ScaleDegree>)
    requires Scale(root, degrees, []).Keyed()
    requires 0 <= root.Value() < 12
    requires forall i :: 0 <= i < |degrees| ==> degrees[i].Value() >= -1
    ensures New(root, degrees).Ok?
  {
    forall i | 0 <= i < |degrees|
      ensures Scale(root, degrees, []).NoteFromDegree(degrees[i]).Ok?
    {
      assert root.Value() + degrees[i].Value() >= -1;
    }
  }

  /** The root a `Scale.fromString` argument stands for. */
  function RootOf(arg: RootArg): (r: Result<PitchNote>)
    requires arg.RootNote? ==> arg.note.WellFormed()
    ensures r.Ok? ==> r.value.WellFormed()
    ensures arg.RootName? ==> r == FromName(arg.name)
    ensures arg.RootNote? ==> r == Ok(arg.note)
  {
    match arg
    case RootName(name) => FromName(name)
    case RootNote(n) => Ok(n)
  }

  /** The degrees of the '-'-separated pieces of a scale string, in declaration order;
      the first piece that fails decides the error. */
  function ParseDegrees(pieces: seq<string>): (r: Result<seq<ScaleDegree>>)
    ensures r.Ok? ==> |r.value| == |pieces|
    ensures r.Ok? ==> forall i :: 0 <= i < |r.value| ==>
      ScaleDegrees.FromId(pieces[i]) == Ok(r.value[i]) && r.value[i].Valid()
    ensures r.Ok? <==> forall i :: 0 <= i < |pieces| ==> ScaleDegrees.FromId(pieces[i]).Ok?
  {
    CollectedDegrees(pieces);
    Collect(DegreeResults(pieces))
  }

  /** Collecting the parsed pieces succeeds exactly when every piece parses. */
  lemma CollectedDegrees(pieces: seq<string>)
    ensures Collect(DegreeResults(pieces)).Ok? <==>
      forall i :: 0 <= i < |pieces| ==> ScaleDegrees.FromId(pieces[i]).Ok?
  {
    var rs := DegreeResults(pieces);
    if forall i :: 0 <= i < |pieces| ==> ScaleDegrees.FromId(pieces[i]).Ok? {
      forall i | 0 <= i < |rs| ensures rs[i].Ok? {
        assert rs[i] == ScaleDegrees.FromId(pieces[i]);
      }
    } else {
      var i :| 0 <= i < |pieces| && !ScaleDegrees.FromId(pieces[i]).Ok?;
      assert !rs[i].Ok?;
    }
  }

  /** Each piece parsed as a degree id. */
  function DegreeResults(pieces: seq<string>): (r: seq<Result<ScaleDegree>>)
    ensures |r| == |pieces| && forall i :: 0 <= i < |pieces| ==> r[i] == ScaleDegrees.FromId(pieces[i])
  {
    seq(|pieces|, i requires 0 <= i < |pieces| => ScaleDegrees.FromId(pieces[i]))
  }

  /** `Scale.fromString`: the root first (a name is parsed), then the degrees, then the
      notes; the first failure is the result. */
  function FromString(arg: RootArg, s: string): (r: Result<Scale>)
    requires arg.RootNote? ==> arg.note.WellFormed()
    ensures r.Ok? ==> r.value.Built() && r.value.Valid()
    ensures RootOf(arg).Err? ==> r == Err(RootOf(arg).error)
    ensures r.Ok? ==> RootOf(arg) == Ok(r.value.root) && ParseDegrees(Split(s, '-')) == Ok(r.value.degrees)
    ensures r.Ok? && arg.RootName? ==> r.value.root.Name() == arg.name
  {
    match RootOf(arg)
    case Err(e) => Err(e)
    case Ok(root) =>
      match ParseDegrees(Split(s, '-'))
      case Err(e) => Err(e)
      case Ok(ds) => New(root, ds)
  }

  /** `containsNote` and `containsDegree` look only at values, never at spellings. */
  lemma ContainsByValue(s: Scale, n: PitchNote, m: PitchNote, d: ScaleDegree, e: ScaleDegree)
    requires s.Valid() && n.WellFormed() && m.WellFormed() && d.Valid() && e.Valid()
    ensures n.Value() == m.Value() ==> s.ContainsNote(n) == s.ContainsNote(m)
    ensures d.Value() == e.Value() ==> s.ContainsDegree(d) == s.ContainsDegree(e)
  {
  }

  /** The notes the constructor sets are each within an octave of
      `(root.value + degree.value) % 12`. */
  lemma BuiltIsValid(s: Scale)
    requires s.Built()
    ensures s.Valid()
  {
    forall i | 0 <= i < |s.degrees|
      ensures s.notes[i].WellFormed()
      ensures OctaveApart(s.notes[i].Value(), s.DegreeNoteValue(s.degrees[i]))
    {
      SpelledDegree(s, s.degrees[i], s.notes[i]);
    }
  }

  lemma SpelledDegree(s: Scale, d: ScaleDegree, n: PitchNote)
    requires s.Keyed() && d.Valid() && s.NoteFromDegree(d) == Ok(n)
    ensures n.WellFormed()
    ensures OctaveApart(n.Value(), s.DegreeNoteValue(d))
  {
  }

  /** A value within an octave of `(root + d) % 12` lies `d` above the root, modulo 12. */
  lemma ResidueOfDegreeNote(n: int, root: int, d: int)
    requires OctaveApart(n, JsRem12(root + d))
    ensures Residue(n - root) == Residue(d)
  {
    var j := JsRem12(root + d);
    var m := (root + d - j) / 12;
    assert root + d - j == 12 * m;
    var t := if n == j then 0 else if n == j + 12 then 1 else -1;
    assert n - root == d + 12 * (t - m);
    ShiftResidue(d, t - m);
  }

  lemma ResidueOfResidue(a: int)
    requires 0 <= a < 12
    ensures Residue(a) == a
  {
  }

  lemma ShiftResidue(a: int, k: int)
    ensures (a + 12 * k) % 12 == a % 12
  {
  }

  /** The note a valid scale holds for a degree lies that degree above the root, modulo 12. */
  lemma StoredNoteResidue(s: Scale, i: int, v: int, a: int)
    requires s.Valid() && 0 <= i < |s.degrees| && v == s.notes[i].Value()
    requires a == Residue(v - s.root.Value())
    ensures a == Residue(s.degrees[i].Value())
  {
    ResidueOfDegreeNote(v, s.root.Value(), s.degrees[i].Value());
  }

  /** The interval of a stored note, reduced, is found among the declared degrees when
      its degree is valued 0..11. */
  lemma StoredNoteDegreeFound(s: Scale, i: int, v: int, a: int)
    requires s.Valid() && 0 <= i < |s.degrees| && 0 <= s.degrees[i].Value() < 12
    requires v == s.notes[i].Value() && a == Residue(v - s.root.Value())
    ensures FirstWithValue(s.degrees, a) >= 0
  {
    StoredNoteResidue(s, i, v, a);
    ResidueOfResidue(s.degrees[i].Value());
    FirstWithValueFound(s.degrees, i, a);
  }

  /** A note valued like one the scale holds lies a declared degree above the root,
      modulo 12. */
  lemma StoredValueOnDegree(s: Scale, n: PitchNote)
    requires s.Valid() && n.WellFormed()
    requires exists i :: 0 <= i < |s.notes| && s.notes[i].Value() == n.Value()
    ensures exists i ::
      0 <= i < |s.degrees| && Residue(n.Value() - s.root.Value()) == Residue(s.degrees[i].Value())
  {
    var i :| 0 <= i < |s.notes| && s.notes[i].Value() == n.Value();
    var a := Residue(n.Value() - s.root.Value());
    StoredNoteResidue(s, i, n.Value(), a);
    OnDegreeWitness(s, i, a);
  }

  lemma OnDegreeWitness(s: Scale, i: int, a: int)
    requires s.Keyed() && 0 <= i < |s.degrees| && a == Residue(s.degrees[i].Value())
    ensures exists k :: 0 <= k < |s.degrees| && a == Residue(s.degrees[k].Value())
  {
  }

  /** When every degree is valued 0..11, the degree `degreeFromNote` gives a note the
      scale contains is a declared degree (the one `setScale` stores beside the note). */
  lemma DegreeOfContainedNote(s: Scale, n: PitchNote)
    requires s.Valid() && n.WellFormed() && s.ContainsNote(n)
    requires forall i :: 0 <= i < |s.degrees| ==> 0 <= s.degrees[i].Value() < 12
    ensures s.DegreeFromNote(n).value in s.degrees
  {
    var i :| 0 <= i < |s.notes| && s.notes[i].Value() == n.Value();
    var a := Residue(n.Value() - s.root.Value());
    StoredNoteDegreeFound(s, i, n.Value(), a);
  }

}
