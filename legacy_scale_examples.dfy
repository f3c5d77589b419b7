/** Worked examples of the earlier scale on the minor pentatonic degrees. */
module LegacyScaleExamples {
  import opened Wrappers
  import opened PitchClassNotes
  import opened ScaleDegrees
  import opened LegacyScales
  import opened Notes

  /** The degrees of the minor pentatonic scale, 1-b3-4-5-b7. */
  const MinorPentatonic: seq<ScaleDegree> :=
    [ScaleDegree("", 1), ScaleDegree("b", 3), ScaleDegree("", 4), ScaleDegree("", 5), ScaleDegree("b", 7)]

  /** The minor pentatonic degrees are valid and valued 0, 3, 5, 7 and 10. */
  lemma MinorPentatonicValues()
    ensures forall i :: 0 <= i < |MinorPentatonic| ==> MinorPentatonic[i].Valid()
    ensures forall i :: 0 <= i < |MinorPentatonic| ==> MinorPentatonic[i].Value() == [0, 3, 5, 7, 10][i]
  {
    assert IsAccidentals("") by { assert AccidentalRuns[2] == ""; }
    assert IsAccidentals("b") by { assert AccidentalRuns[1] == "b"; }
  }

  /** On the root A of the minor pentatonic scale, the value 7 is spelled "G" (the letter
      of the declared degree b7), not "F##". */
  lemma AMinorPentatonicSpellsG()
    ensures Scale(PitchNote('A', ""), MinorPentatonic, []).Keyed()
    ensures Scale(PitchNote('A', ""), MinorPentatonic, []).NoteFromValue(7) == Ok(PitchNote('G', ""))
  {
    var s := Scale(PitchNote('A', ""), MinorPentatonic, []);
    SevenOnAIsFlatSeven();
    FlatSevenOnAIsLetterG();
    SevenOnGIsNatural();
  }

  /** The letter six steps above A is G. */
  lemma FlatSevenOnAIsLetterG()
    ensures MinorPentatonic[4].Valid()
    ensures NaturalLetter(PitchNote('A', ""), MinorPentatonic[4]) == 'G'
  {
    MinorPentatonicValues();
    assert IndexOfLetter('A') == 5;
    assert (5 + MinorPentatonic[4].number - 1) % 7 == 4;
  }

  /** The value 7 on the letter G needs no accidental. */
  lemma SevenOnGIsNatural()
    ensures SpellOnLetter('G', 7) == Ok(PitchNote('G', ""))
  {
    assert LetterValue('G') == 7;
  }

  /** On the root A, the value 7 lies 10 semitones up: the declared degree b7. */
  lemma SevenOnAIsFlatSeven()
    ensures Scale(PitchNote('A', ""), MinorPentatonic, []).Keyed()
    ensures Scale(PitchNote('A', ""), MinorPentatonic, []).WrappedInterval(7) == 10
    ensures Scale(PitchNote('A', ""), MinorPentatonic, []).DegreeFromValue(10) == Ok(MinorPentatonic[4])
  {
    MinorPentatonicValues();
    var s := Scale(PitchNote('A', ""), MinorPentatonic, []);
    assert s.root.Value() == 9;
    FirstWithValueAt(MinorPentatonic, 4, 10);
  }

  /** Because the interval is wrapped only once, a root whose value lies outside 0..11
      can reach past the default names: on the root Cb (value -1), the value 11 wraps to
      12, which no minor-pentatonic degree and no default name has. */
  lemma CbRootMissesDefaultName()
    ensures Scale(PitchNote('C', "b"), MinorPentatonic, []).Keyed()
    ensures Scale(PitchNote('C', "b"), MinorPentatonic, []).NoteFromValue(11) == Err(UndefinedDegreeName)
  {
    MinorPentatonicValues();
    CbRootWrapsEleven();
    NoPentatonicTwelve();
  }

  /** On the root Cb, whose value is -1, the value 11 lies 12 semitones up. */
  lemma CbRootWrapsEleven()
    ensures PitchNote('C', "b").WellFormed()
    ensures Scale(PitchNote('C', "b"), MinorPentatonic, []).WrappedInterval(11) == 12
  {
    assert PitchNote('C', "b").Value() == -1;
  }

  /** No minor-pentatonic degree is valued 12. */
  lemma NoPentatonicTwelve()
    ensures forall i :: 0 <= i < |MinorPentatonic| ==> MinorPentatonic[i].Valid()
    ensures FirstWithValue(MinorPentatonic, 12) == -1
  {
    MinorPentatonicValues();
  }
}
