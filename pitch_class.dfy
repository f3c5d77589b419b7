/** The pitch-class note of the earlier generation (`Note.fromName`, `note.name`,
    `note.value`), which `Scale.ts`, `tuning.ts` and `fretboard-data.ts` call but whose
    file is not part of this model. It is stubbed here on these assumptions: a name is a
    letter C..B followed by a run of only '#' or only 'b' of any length (the runs
    `Scale.noteFromValue` builds reach six), and the value is the letter's entry in the
    table of `Note.ts` plus one semitone per sharp and minus one per flat, not reduced
    mod 12. */
module PitchClassNotes {
  import opened Wrappers
  import opened Text
  import Notes

  /** A run of sharps or a run of flats (the empty run included). */
  predicate IsRun(m: string) {
    (forall i :: 0 <= i < |m| ==> m[i] == '#') || (forall i :: 0 <= i < |m| ==> m[i] == 'b')
  }

  /** The semitone offset of a run. */
  function RunValue(m: string): int
    requires IsRun(m)
  {
    if m == [] then 0 else if m[0] == '#' then |m| else -|m|
  }

  /** A note without octave: a letter and a run of accidentals. */
  datatype PitchNote = PitchNote(letter: char, modifier: string) {

    predicate WellFormed() {
      Notes.IsLetter(letter) && IsRun(modifier)
    }

    /** `note.name`: the letter followed by the run. */
    function Name(): string {
      [letter] + modifier
    }

    /** `note.value`: the letter's semitones above C plus the run's offset. */
    function Value(): int
      requires WellFormed()
    {
      Notes.LetterValue(letter) + RunValue(modifier)
    }
  }

  /** `Note.fromName` (stub): the name must be a letter and a run; the error of a name
      that is not is taken to be the RangeError of `Note.fromId`. */
  function FromName(name: string): (r: Result<PitchNote>)
    ensures r.Ok? <==> |name| >= 1 && Notes.IsLetter(name[0]) && IsRun(name[1..])
    ensures r.Ok? ==> r.value.WellFormed() && r.value.Name() == name
    ensures r.Err? ==> r.error == RangeError("Invalid note!")
  {
    if |name| >= 1 && Notes.IsLetter(name[0]) && IsRun(name[1..]) then
      assert name == [name[0]] + name[1..];
      Ok(PitchNote(name[0], name[1..]))
    else Err(RangeError("Invalid note!"))
  }

  /** The name of a well-formed note parses back to the note. */
  lemma FromNameOfName(n: PitchNote)
    requires n.WellFormed()
    ensures FromName(n.Name()) == Ok(n)
  {
    assert n.Name()[1..] == n.modifier;
  }

  /** A name holds no '-'. */
  lemma NoDashInName(n: PitchNote)
    requires n.WellFormed()
    ensures '-' !in n.Name()
  {
    assert n.Name() == [n.letter] + n.modifier;
  }

  /** A run of k sharps raises the letter by k semitones, a run of k flats lowers it by k. */
  lemma RepeatedRunValue(c: char, k: nat)
    requires c == '#' || c == 'b'
    ensures IsRun(Repeat(c, k))
    ensures RunValue(Repeat(c, k)) == if c == '#' then k as int else -(k as int)
  {
  }
}
