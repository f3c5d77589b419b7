# learn-guitar-scales: the music-theory model in Dafny

This project models `src/model` of learn-guitar-scales, the part of the guitar-scale
trainer that converts between note names, pitch numbers, scale-degree labels and
fretboard coordinates, and that keeps small ordered sets of positions. The code comes in
two generations, and both are modelled.

- **Octave-aware generation.**
  - `Note.ts` (module `Notes`): a letter, accidentals and an octave. Also the absolute
    semitone `value`, and the regular-expression parse `fromId`.
  - `ScaleDegree.ts` (`ScaleDegrees`): an accidental run and a number from 1 to 7, with a
    validating constructor.
  - `Tuning.ts` (`Tunings`): a '-'-separated id, stored reversed.
  - `Position.ts` (`Positions`): a (fret, string) pair. `PositionSet` is a type alias of
    `ValueObjectSet<Position>`.
  - `Util.ts` (`Util`): `formatFlatSharp`, and the deduplicating ordered collection
    `ValueObjectSet` as a class.
  - `PositionList.ts` (`PositionLists`): a second ordered collection of positions, as a
    class.
  - `Context.ts` (`Contexts`): the query engine. It resolves a position to a scale degree
    and to a spelled note, and lists the in-scale and same-note positions.
- **Earlier pitch-class generation.**
  - `Scale.ts` (`LegacyScales`): a scale that owns its root and spells its notes with a
    sharps-versus-flats choice. Worked cases are in `LegacyScaleExamples`.
  - `tuning.ts` (`LegacyTunings`): `fromString` and `toString` with the same reversal.
  - `fretboard-data.ts` (`FretboardDatas`): a position-keyed table, modelled as a class
    with `setContent`, `getContent`, `clip` and `setScale`.
  - These files call `Note.fromName`, whose file is not part of this model. Module
    `PitchClassNotes` stubs it: a letter C..B followed by a run of only '#' or only 'b'.
    The stub's value is the letter's entry in the table of `Note.ts` plus the run's offset.
    It is not reduced mod 12.

Support modules:

- `Wrappers` holds `Option` and `Result`. It also holds the JavaScript error kinds
  (`RangeError`, `TypeError`) with their messages, and `Collect`, which is `Array.map`
  over a callback that may throw.
- `Text` holds the JavaScript string operations the source relies on:
  - `split('-')`, `join('-')` and `reverse`;
  - `Number.prototype.toString` and `parseInt`, on text a regular expression has
    already checked;
  - `String.prototype.repeat`;
  - the truncating `%` (`JsRem12`).

Thrown errors are `Err` results. Methods that change state in the source (`add`,
`remove`, `setContent`, `clip`, `setScale`, the two `getAllPositions` loops and the search
loop of `getScaleDegreeByValue`) are Dafny methods. Each is proved against a
specification function on sequences, and the lemmas about those functions carry what
the source promises.

Where the written specification of the system and the code disagree, the model follows
the code:

- `ScaleDegree.value` is not reduced mod 12. `b1` has value -1 and `#7` has value 12.
- The ScaleDegree constructor accepts accidentals on degree 1.
- `Context` adds the fret to the open string's absolute value without reducing it.
  It raises no out-of-range error: a string index beyond the tuning is a precondition.
- `getNoteByValue` takes the accidental from the table index
  `value - naturalNote.value + 2`. It does not choose the shorter of the sharp and flat
  paths; only `Scale.noteFromValue` makes that choice.

## Model

| member | source | states |
|---|---|---|
| Notes.FromId | src/model/Note.ts:4-12 | A parsed note is well-formed (letter A..G, accidentals in {bb, b, '', #, ##}); any failure is RangeError "Invalid note!" |
| Notes.MatchNoteId | src/model/Note.ts:1 | A match splits the id into a letter, an accidental run and signed integer text that concatenate back to the id |
| Notes.MatchNoteIdFindsParts | src/model/Note.ts:1 | Every letter + accidentals + integer text is matched, into exactly those parts |
| Notes.FromIdAcceptsExactly | src/model/Note.ts:1-12 | fromId succeeds if and only if the id has the regular expression's shape |
| Notes.FromIdOfId | src/model/Note.ts:24-26 | Round trip of the `id` getter: fromId(n.id) gives back n (letter, accidentals and octave) for every well-formed note |
| Notes.IdHasDashIffNegative | src/model/Note.ts:24-26 | The id of a well-formed note holds a '-' iff its octave is negative |
| Notes.Note.Name | src/model/Note.ts:28-30 | The name is the letter followed by the accidentals; for a well-formed note that is a letter A..G and an accepted accidental run, with no '-' |
| Notes.Note.Value | src/model/Note.ts:32-36 | The value lies within two semitones of the natural letter's pitch (octave - 1) * 12 + letter value |
| Notes.FromIdKeepsName | src/model/Note.ts:24-30 | A parsed id starts with the note's name, the rest parses to the octave, and printing the note reproduces a parse of the same id |
| Notes.Note.Equals | src/model/Note.ts:38-40 | For well-formed notes, equal ids iff equal letter, accidentals and octave |
| Notes.OctaveStep | src/model/Note.ts:32-36 | Raising the octave by one adds exactly 12 to the value, and C1 has value 0 |
| Notes.Note.Same | src/model/Note.ts:42-44 | `same` holds iff the values differ by a multiple of 12 |
| Notes.SameIsEquivalence | src/model/Note.ts:42-44 | `same` is reflexive, symmetric and transitive |
| Notes.OctavesAreSame | src/model/Note.ts:42-44 | Notes differing only in octave are `same` |
| Notes.IndexOfLetter | src/model/Context.ts:65-66 | The index of a letter in C..B is below 7 and points back at the letter |
| ScaleDegrees.New | src/model/ScaleDegree.ts:17-28 | The constructor succeeds iff the accidentals are in {bb, b, '', #, ##} and the number is in 1..7; otherwise "Invalid accidentals!" or, after that check, "Invalid number!" |
| ScaleDegrees.MatchDegreeId | src/model/ScaleDegree.ts:1 | A match splits the id into an accidental run and digits that concatenate back to it |
| ScaleDegrees.MatchDegreeIdFindsParts | src/model/ScaleDegree.ts:1 | Every accidental run followed by digits is matched into exactly those parts |
| ScaleDegrees.FromId | src/model/ScaleDegree.ts:4-12 | A parsed degree is valid |
| ScaleDegrees.FromIdOutcome | src/model/ScaleDegree.ts:4-24 | A wrong shape throws "Invalid scale degree ID!"; a right shape succeeds iff the number is in 1..7, else "Invalid number!" |
| ScaleDegrees.FromIdRefusesZeroAndEight | src/model/ScaleDegree.ts:22-24 | fromId("0") and fromId("8") throw "Invalid number!" |
| ScaleDegrees.FromIdAcceptsAlteredRoot | src/model/ScaleDegree.ts:17-28 | "b1" and "#1" construct successfully |
| ScaleDegrees.ScaleDegree.Id | src/model/ScaleDegree.ts:30-32 | Round trip of the `id` getter: fromId(d.id) gives back every valid degree |
| ScaleDegrees.ScaleDegree.Equals | src/model/ScaleDegree.ts:44-46 | For valid degrees, equal ids iff equal accidentals and number |
| ScaleDegrees.ScaleDegree.Value | src/model/ScaleDegree.ts:38-42 | For a valid degree the floor(number / 8) term vanishes: the value is the accidental offset plus the number's entry in {0, 2, 4, 5, 7, 9, 11}, and lies in [-2, 13] |
| ScaleDegrees.ValueNotReduced | src/model/ScaleDegree.ts:38-42 | The value is not reduced mod 12: b1 is -1 and #7 is 12 |
| ScaleDegrees.FirstWithValue | src/model/Context.ts:85-89 | The first index, in declaration order, of a degree with the given value, or -1 when none has it |
| ScaleDegrees.FirstWithValueAt | src/model/Scale.ts:46-50 | An index holding the value with none before it is the one the search finds |
| ScaleDegrees.FirstWithValueFound | src/model/Scale.ts:46-50 | When some degree has the value, the search finds one |
| ScaleDegrees.FirstWithValueExists | src/model/Scale.ts:25-27 | The search finds a degree iff some degree has the value |
| ScaleDegrees.DefaultDegree | src/model/Context.ts:92-94 | The default-name degree for a residue 0..11 is valid and has exactly that value |
| ScaleDegrees.DefaultPartsSpellNames | src/model/Context.ts:92 | Each entry of the default-name table names a valid degree whose value is its index |
| ScaleDegrees.DefaultNameParses | src/model/Context.ts:94 | Parsing the default name of a residue gives the default degree |
| Positions.EqualsIsIdentity | src/model/Position.ts:12-14 | `equals` is field-wise equality, hence reflexive, symmetric and transitive |
| Util.FormatFlatSharp | src/model/Util.ts:1-9 | The input is returned unchanged |
| Util.FilterMembership | src/model/Util.ts:42 | An element survives `filter` iff it was present and the predicate keeps it |
| Util.FilterConcat | src/model/fretboard-data.ts:47-53 | Filtering distributes over concatenation, so order is preserved |
| Util.FilterShrinksAndSettles | src/model/fretboard-data.ts:47-53 | Filtering never grows a list, keeps only accepted items and is idempotent |
| Util.FilterKeepsAll | src/model/Util.ts:42 | Filtering a list every item of which is accepted leaves it unchanged |
| Util.FilterDistinctBy | src/model/fretboard-data.ts:66 | Filtering keeps a list free of two items with the same key |
| Util.AddedProperties | src/model/Util.ts:30-36 | After add(v): v is contained, earlier items keep their order, the length grows by at most one, membership is the old one plus v, no duplicates are introduced, and adding v twice is the same as once |
| Util.AddedAllProperties | src/model/Util.ts:31-32 | add(array) keeps the old items as a prefix, contains exactly the old items and the array's, and introduces no duplicates |
| Util.WithoutProperties | src/model/Util.ts:38-44 | remove(v) drops every item equal to v and keeps the others: membership is the old one minus v, removing an absent v changes nothing, order is kept and no duplicates appear |
| Util.WithoutAllProperties | src/model/Util.ts:39-40 | remove(array) keeps exactly the old items not in the array |
| Util.ValueObjectSet.constructor | src/model/Util.ts:22-24 | The constructor stores the given items as they are, without deduplicating |
| Util.ValueObjectSet.FromArray | src/model/Util.ts:18-20 | fromArray makes a new set holding a copy of the array's items, so later changes to either are not shared |
| Util.ValueObjectSet.ToArray | src/model/Util.ts:26-28 | toArray returns a new array holding the items in order |
| Util.ValueObjectSet.Add | src/model/Util.ts:30-36 | The new items are Added(old, v); v is contained afterwards and no-duplicates is preserved |
| Util.ValueObjectSet.AddAll | src/model/Util.ts:31-32 | The new items are the element-wise adds in array order; every array item is contained afterwards |
| Util.ValueObjectSet.Remove | src/model/Util.ts:38-44 | The new items are the old ones without v; v is not contained afterwards |
| Util.ValueObjectSet.RemoveAll | src/model/Util.ts:39-40 | The new items are the element-wise removes; no array item is contained afterwards |
| PositionLists.FindIndex | src/model/PositionList.ts:30 | findIndex: -1 iff the position is absent, otherwise the first index holding it |
| PositionLists.RemovedFirstShape | src/model/PositionList.ts:28-34 | Removing takes out exactly the first occurrence: an absent position leaves the list unchanged, otherwise the list shrinks by one, splices at that index and loses one copy |
| PositionLists.RemovedFirstNoDuplicates | src/model/PositionList.ts:28-34 | In a list without duplicates, the removed position is gone and no duplicates appear |
| PositionLists.RemovedFirstAllProperties | src/model/PositionList.ts:35 | Removing an array from a duplicate-free list keeps exactly the items not in the array |
| PositionLists.PositionList.constructor | src/model/PositionList.ts:10-12 | The private constructor stores the given positions as they are |
| PositionLists.PositionList.FromArray | src/model/PositionList.ts:6-8 | fromArray makes a new list holding a copy of the array's positions |
| PositionLists.PositionList.ToArray | src/model/PositionList.ts:14-16 | toArray returns a new array holding the positions in order |
| PositionLists.PositionList.ContainsIsMembership | src/model/PositionList.ts:39-41 | contains(p) holds iff some stored position equals p |
| PositionLists.PositionList.Add | src/model/PositionList.ts:18-22 | The list becomes Added(old, p); p is contained and the length grows by at most one |
| PositionLists.PositionList.AddAll | src/model/PositionList.ts:23-25 | The list becomes the element-wise adds in order |
| PositionLists.PositionList.Remove | src/model/PositionList.ts:28-34 | The list loses the first occurrence of p; without earlier duplicates p is then absent |
| PositionLists.PositionList.RemoveAll | src/model/PositionList.ts:35 | The list becomes the element-wise first-occurrence removals in order |
| Tunings.NoteIds | src/model/Tuning.ts:15 | The mapped ids have the notes' length and id i is note i's id |
| Tunings.ParseNotes | src/model/Tuning.ts:5 | Mapping Note.fromId succeeds iff every piece parses, gives the parsed notes in order, and otherwise throws "Invalid note!" |
| Tunings.FromId | src/model/Tuning.ts:4-6 | stringCount is the number of '-'-separated pieces, string i is piece k-1-i, and any bad piece throws "Invalid note!" |
| Tunings.Tuning.Id | src/model/Tuning.ts:14-16 | For a non-empty tuning of well-formed notes with octaves >= 0, splitting the id on '-' gives the note ids lowest string first (the stored order reversed); an empty tuning prints as "" |
| Tunings.FromIdOfId | src/model/Tuning.ts:4-16 | Round trip: fromId(t.id) gives back t for a non-empty tuning of well-formed notes with octaves >= 0 |
| Tunings.IdOfFromId | src/model/Tuning.ts:4-16 | Round trip: fromId(s).id == s when every piece is a canonical note id |
| Tunings.NegativeOctaveBreaksRoundTrip | src/model/Tuning.ts:4-16 | A tuning holding E-1 prints as "E-1", and that id does not parse back |
| Tunings.IdsParse | src/model/Tuning.ts:15 | Every printed id parses back to its note |
| Contexts.Grid | src/model/Context.ts:24-34 | The grid has stringCount*25 positions |
| Contexts.GridProperties | src/model/Context.ts:24-34 | The grid holds exactly the positions with string in [0, stringCount) and fret in [0, 24], in string-major order, without duplicates |
| Contexts.Context.GetAllPositions | src/model/Context.ts:24-34 | The nested loops build exactly the grid of the tuning's string count |
| Contexts.Context.DegreeFor | src/model/Context.ts:81-95 | For a non-negative interval, the resolved degree is valid and its value is interval % 12 |
| Contexts.Context.GetScaleDegreeByValue | src/model/Context.ts:81-95 | The search loop returns the first declared degree whose value is the residue, else the default-name degree; either way its value is value % 12 |
| Contexts.Context.DegreeAt | src/model/Context.ts:54-58 | getScaleDegreeByPosition gives a valid degree whose value is (open value + fret - root value) % 12 |
| Contexts.Natural | src/model/Context.ts:64-72 | The natural note built from the stepped letter and octave is well-formed and has no accidentals |
| Contexts.SpelledLetterSteps | src/model/Context.ts:65-68 | The natural letter is the root's letter stepped number-1 letters forward, cyclically over C..B |
| Contexts.Spell | src/model/Context.ts:74-78 | A note is produced iff value - natural value is in [-2, 2]; it is then well-formed, has exactly the requested value, and keeps the natural's letter and octave |
| Contexts.SpellingGap | src/model/Context.ts:60-79 | The gap to the natural note is within one of the root's and the degree's accidental offsets combined, so a spelling exists whenever those offsets sum to -1..1 |
| Contexts.Context.NoteFor | src/model/Context.ts:60-79 | getNoteByValue: a spelled note exists iff the accidental index is inside the table, and it then has exactly the input value |
| Contexts.Context.NoteAt | src/model/Context.ts:49-52 | getNoteByPosition: a note, when produced, is well-formed and sounds the open value plus the fret |
| Contexts.Context.ResolvableOnFretboard | src/model/Context.ts:55-57 | When no open string lies below the root, every fretted position on a string has a non-negative interval |
| Contexts.Context.DeclaresMeaning | src/model/Context.ts:38-39 | A position's resolved degree equals (by id) a declared degree iff some declared degree has its interval residue as its value |
| Contexts.Context.InScaleAt | src/model/Context.ts:37-40 | The in-scale test holds iff the position is resolvable and some declared degree's value is its interval above the root mod 12 |
| Contexts.Context.InScalePositions | src/model/Context.ts:36-41 | The in-scale positions are exactly the grid positions whose interval residue is a declared degree's value, listed string by string and fret by fret, each once |
| Contexts.Context.ResolvableOnFretboardAll | src/model/Context.ts:55-57 | When no open string lies below the root, every fretted position on a string is resolvable |
| Contexts.Context.SameNoteAt | src/model/Context.ts:44-46 | The same-note test holds iff the position is resolvable, a note is spelled there, and its pitch is congruent to n's mod 12 |
| Contexts.Context.SpelledSame | src/model/Context.ts:45 | The spelled note at a position is `same` as n iff the position's pitch is congruent to n's mod 12 |
| Contexts.Context.SameNotePositions | src/model/Context.ts:43-47 | The same-note positions are exactly the grid positions with a spelled note whose pitch is congruent to n's mod 12, listed string by string and fret by fret, each once |
| PitchClassNotes.FromName | src/model/Scale.ts:6 | The stubbed Note.fromName succeeds iff the name is a letter and a run of '#' or of 'b'; the note's name is the input; otherwise "Invalid note!" |
| PitchClassNotes.FromNameOfName | src/model/tuning.ts:14-16 | Round trip: fromName(n.name) gives back n |
| PitchClassNotes.NoDashInName | src/model/tuning.ts:14-16 | A pitch-class note's name holds no '-' |
| PitchClassNotes.RepeatedRunValue | src/model/Scale.ts:82 | k repetitions of '#' are worth +k semitones, of 'b' -k |
| LegacyTunings.Names | src/model/tuning.ts:15 | The mapped names have the notes' length and name i is note i's name |
| LegacyTunings.ParseNames | src/model/tuning.ts:5 | Mapping fromName succeeds iff every piece parses, gives the notes in order, and otherwise throws "Invalid note!" |
| LegacyTunings.FromString | src/model/tuning.ts:4-6 | The tuning has one note per piece, note i is piece k-1-i, and it succeeds iff every piece parses |
| LegacyTunings.PieceAt | src/model/tuning.ts:4-16 | The i-th printed name of a parsed tuning is the i-th piece of the input |
| LegacyTunings.ToStringOfFromString | src/model/tuning.ts:4-16 | Round trip: toString(fromString(s)) == s |
| LegacyTunings.FromStringOfToString | src/model/tuning.ts:4-16 | Round trip: fromString(t.toString()) gives back t for a non-empty tuning |
| LegacyTunings.Tuning.ToString | src/model/tuning.ts:14-16 | For a non-empty tuning of well-formed notes, splitting the text on '-' gives the names lowest string first (the stored order reversed); an empty tuning prints as "" |
| LegacyTunings.ReversedNames | src/model/tuning.ts:15 | Reversing the names is naming the reversed notes, and no name holds a '-' |
| LegacyScales.Residue | src/model/Scale.ts:35-39 | The normalised interval lies in [0, 12) and is the residue mod 12 |
| LegacyScales.NaturalLetter | src/model/Scale.ts:69-72 | Stepping number-1 letters from the root's letter gives a letter C..B |
| LegacyScales.AdjustedNaturalBelow | src/model/Scale.ts:74-81 | After the adjustment the natural value is at most the target (for targets >= -1), and sharps + flats == 12 |
| LegacyScales.ModifierIsRun | src/model/Scale.ts:80-82 | The modifier is '#' x sharps when sharps < flats, else 'b' x flats, and its offset is +sharps or -flats accordingly |
| LegacyScales.SpellOnLetter | src/model/Scale.ts:74-84 | Spelling on a letter succeeds iff repeat gets a non-negative count; the note keeps the letter and carries the chosen accidental run, lies a whole number of octaves from the target, needs no accidental when the letter already has the target value, and always succeeds for targets in [-1, 12) |
| LegacyScales.Scale.DegreeFromValue | src/model/Scale.ts:44-58 | The first declared degree with exactly that value, else the default degree for 0..11, else TypeError; the result has the requested value |
| LegacyScales.Scale.DegreeFromNote | src/model/Scale.ts:34-42 | The degree of a note always exists, is valid, has value (note - root) normalised into [0, 12), and is a declared degree when one has that value |
| LegacyScales.Scale.NoteFromValue | src/model/Scale.ts:60-85 | The spelled note is written on the natural letter of the wrapped interval's degree, stepped number - 1 letters from the root's letter, with the shorter accidental run (sharps when fewer than flats) for that letter; it is well-formed, a whole number of octaves from the value, has at most 6 flats or 5 sharps, and exists for every root in 0..11 and value in [-1, 12) |
| LegacyScales.Scale.NoteFromDegree | src/model/Scale.ts:29-32 | The spelled note of a degree lies a whole number of octaves from (root + degree) % 12 and exists when root + degree >= -1 |
| LegacyScales.Scale.DegreeNoteValue | src/model/Scale.ts:30 | (root + degree) % 12 lies in [-1, 12) when the sum is at least -1 |
| LegacyScales.NotesNotRead | src/model/Scale.ts:15-19 | noteFromDegree reads only root and degrees, so it is the same while `notes` is still unset |
| LegacyScales.NoteFromValueNotesNotRead | src/model/Scale.ts:60-85 | noteFromValue reads only root and degrees |
| LegacyScales.New | src/model/Scale.ts:15-19 | The constructor succeeds iff every degree spells; it keeps root and degrees and sets notes[i] = noteFromDegree(degrees[i]) |
| LegacyScales.NewSucceeds | src/model/Scale.ts:15-19 | With a root in 0..11 and degree values >= -1, construction always succeeds |
| LegacyScales.RootOf | src/model/Scale.ts:6 | A string root is parsed with fromName; a note root is used as given |
| LegacyScales.ParseDegrees | src/model/Scale.ts:7 | Mapping fromName over the pieces succeeds iff every piece parses, and then gives one valid degree per piece in declaration order |
| LegacyScales.CollectedDegrees | src/model/Scale.ts:7 | The collected map is Ok iff every piece parses |
| LegacyScales.FromString | src/model/Scale.ts:5-9 | fromString builds a properly constructed scale from the parsed root and the pieces in order, and fails with the root's error when the root does not parse |
| LegacyScales.Scale.ContainsNote | src/model/Scale.ts:21-23 | A note the scale contains lies a declared degree above the root, mod 12 |
| LegacyScales.Scale.ContainsDegree | src/model/Scale.ts:25-27 | A degree is contained iff the degree search finds its value; degreeFromValue then returns a declared degree with that value |
| LegacyScales.ContainsByValue | src/model/Scale.ts:21-27 | containsNote and containsDegree depend only on the value, not on the spelling |
| LegacyScales.BuiltIsValid | src/model/Scale.ts:15-19 | A constructed scale satisfies the invariant the other lemmas rely on |
| LegacyScales.SpelledDegree | src/model/Scale.ts:29-32 | A spelled degree note is well-formed and lies a whole number of octaves from (root + degree) % 12 |
| LegacyScales.StoredValueOnDegree | src/model/Scale.ts:21-32 | A note valued like a stored note has an interval residue equal to some declared degree's |
| LegacyScales.DegreeOfContainedNote | src/model/Scale.ts:21-58 | When all declared degrees are in 0..11, degreeFromNote of a contained note is one of the declared degrees |
| LegacyScaleExamples.MinorPentatonicValues | src/model/Scale.ts:44-58 | 1-b3-4-5-b7 has the values 0, 3, 5, 7, 10 |
| LegacyScaleExamples.AMinorPentatonicSpellsG | src/model/Scale.ts:60-85 | With root A and degrees 1-b3-4-5-b7, noteFromValue(7) is "G", not "F##" |
| LegacyScaleExamples.SevenOnAIsFlatSeven | src/model/Scale.ts:61-67 | Value 7 on root A wraps to interval 10, the declared b7 |
| LegacyScaleExamples.FlatSevenOnAIsLetterG | src/model/Scale.ts:69-72 | b7 on root A steps to the letter G |
| LegacyScaleExamples.SevenOnGIsNatural | src/model/Scale.ts:74-84 | Value 7 on the letter G needs no accidental |
| LegacyScaleExamples.CbRootWrapsEleven | src/model/Scale.ts:61-65 | With root Cb (value -1), value 11 gives interval 12, which the wrap does not reduce |
| LegacyScaleExamples.NoPentatonicTwelve | src/model/Scale.ts:46-50 | No degree of the minor pentatonic has value 12 |
| LegacyScaleExamples.CbRootMissesDefaultName | src/model/Scale.ts:53-57 | With root Cb, noteFromValue(11) finds neither a declared degree nor a default name and throws the TypeError |
| FretboardDatas.Equal | src/model/fretboard-data.ts:16-18 | Positions are equal iff string and fret are equal |
| FretboardDatas.StringPositions | src/model/fretboard-data.ts:78-80 | One string contributes frets 0..24 in order |
| FretboardDatas.AllPositions | src/model/fretboard-data.ts:75-83 | Every listed position lies on one of the strings |
| FretboardDatas.AllPositionsShape | src/model/fretboard-data.ts:75-83 | There are 25 positions per string, and position i is (i / 25, i % 25), in string-major order |
| FretboardDatas.AllPositionsMembership | src/model/fretboard-data.ts:28-34 | A position is listed iff its string is below the string count and its fret is in 0..24 |
| FretboardDatas.Lookup | src/model/fretboard-data.ts:56-63 | getContent is undefined iff no entry sits at the position, and otherwise returns the content of an entry there |
| FretboardDatas.LookupConcat | src/model/fretboard-data.ts:57-61 | The search finds an entry in the front part before one in the back part |
| FretboardDatas.LookupWithout | src/model/fretboard-data.ts:66 | After filtering out p, nothing is found at p and every other position finds what it did before |
| FretboardDatas.SetEntryLookup | src/model/fretboard-data.ts:56-68 | After setContent(p, c), getContent(p) is c and every other position is unchanged |
| FretboardDatas.SetEntryDistinct | src/model/fretboard-data.ts:65-68 | setContent keeps at most one entry per position |
| FretboardDatas.ClipProperties | src/model/fretboard-data.ts:46-54 | clip keeps a fret-0 entry iff open strings are shown and any other entry iff first <= fret <= last; it never adds, preserves order, is idempotent and keeps one entry per position |
| FretboardDatas.FillAt | src/model/fretboard-data.ts:37-43 | An exception at step i aborts the walk with the entries so far; otherwise the walk continues from the updated table |
| FretboardDatas.FillFilledIff | src/model/fretboard-data.ts:37-43 | The walk completes iff no step throws; an aborted walk carries the first step's error |
| FretboardDatas.FillLookupAt | src/model/fretboard-data.ts:37-43 | After a completed walk, a position given content holds that content |
| FretboardDatas.FillLookupElsewhere | src/model/fretboard-data.ts:37-43 | After a completed walk, a position never given content keeps its old content |
| FretboardDatas.FillLookupOn | src/model/fretboard-data.ts:37-43 | After a completed walk, a visited position holds its step's content when it has one and keeps its old content otherwise |
| FretboardDatas.FillLookupAbsent | src/model/fretboard-data.ts:37-43 | After a completed walk, an unvisited position keeps its old content |
| FretboardDatas.FillDistinct | src/model/fretboard-data.ts:37-43 | The walk keeps at most one entry per position, whether it completes or aborts |
| FretboardDatas.NoteAt | src/model/fretboard-data.ts:70-73 | getNote is a well-formed note a whole number of octaves from (open value + fret) % 12, under JavaScript's remainder; it exists when the root is in 0..11 and open value + fret >= -1 |
| FretboardDatas.ScaleStep | src/model/fretboard-data.ts:38-42 | A position's step throws iff getNote throws; it enters content iff the scale contains the note, with that note and a valid degree, which is a declared degree when all declared degrees are in 0..11 |
| FretboardDatas.DegreeOfNoteAt | src/model/fretboard-data.ts:40-41 | The degree entered for a contained note is a declared degree when all declared degrees are in 0..11 |
| FretboardDatas.ScaleStepOfNote | src/model/fretboard-data.ts:38-42 | For a note n at the position, the step enters (n, degreeFromNote(n)) if the scale contains n and nothing otherwise |
| FretboardDatas.ScaleSteps | src/model/fretboard-data.ts:37-43 | One step per position, each the position's step |
| FretboardDatas.ScaleStepsAgree | src/model/fretboard-data.ts:37-43 | Two steps taken at the same position are equal: what the walk enters depends only on the position |
| FretboardDatas.FretboardData.constructor | src/model/fretboard-data.ts:21-26 | A new table is empty and keeps the tuning |
| FretboardDatas.FretboardData.GetAllPositions | src/model/fretboard-data.ts:75-83 | The nested loops build exactly AllPositions(stringCount) |
| FretboardDatas.FretboardData.GetContent | src/model/fretboard-data.ts:56-63 | The search loop returns the lookup of the position |
| FretboardDatas.FretboardData.SetContent | src/model/fretboard-data.ts:65-68 | The table becomes the old one without p, followed by (p, c); one entry per position is kept |
| FretboardDatas.FretboardData.Clip | src/model/fretboard-data.ts:46-54 | The table becomes the old one filtered by the clip rule; one entry per position is kept |
| FretboardDatas.FretboardData.SetScale | src/model/fretboard-data.ts:36-44 | The table after the loop is the walk over all positions: completed when no failure is returned, otherwise aborted with the returned error and the entries set so far |
| FretboardDatas.SetScaleContents | src/model/fretboard-data.ts:36-44 | After a completed setScale, every position on the board whose note the scale contains holds (note, degreeFromNote(note)); every other position keeps its old content |
| FretboardDatas.SetScaleSucceeds | src/model/fretboard-data.ts:36-44 | With a root in 0..11 and no open string below -1, setScale never throws |
| Wrappers.Collect | src/model/Tuning.ts:5 | Array.map with a throwing callback is Ok iff every call is Ok, keeps the results in order, and otherwise carries the first error |
| Text.JoinSplit | src/model/Tuning.ts:5 | Joining the pieces of split('-') with '-' gives back the string |
| Text.SplitJoin | src/model/Tuning.ts:15 | Splitting a '-'-join of pieces that hold no '-' gives back the pieces |
| Text.IntToStringParses | src/model/Note.ts:25 | The printed octave parses back to itself and holds '-' iff it is negative |
| Text.JsRepeat | src/model/Scale.ts:82 | repeat throws RangeError iff the count is negative, and otherwise repeats the character |
| Text.JsRem12 | src/model/fretboard-data.ts:72 | JavaScript's % 12 keeps the dividend's sign: the result is in (-12, 12), congruent to the input, and the usual residue for non-negative inputs |

## Left out

- The React components, the canvas drawing, localStorage persistence, the exercises
  (which rely on `Math.random`) and the settings tables of `global.ts` are outside the
  modelled core.
- `Note.fromName`, `Note.text`, `ScaleDegree.fromName`, `ScaleDegree.naturalDegree` and
  `ScaleDegree.text` are called but are not part of this model.
  - `fromName` is the `PitchClassNotes` stub described above.
  - `ScaleDegree.fromName` is taken to be `ScaleDegree.fromId`.
  - `naturalDegree` is taken to keep the number.
  - `text` is not modelled.
- PitchClassNotes.FromName: the stub's value is not reduced mod 12, which is an assumption.
  With that reading a Cb root has value -1. `LegacyScaleExamples.CbRootMissesDefaultName`
  shows where this matters: value 11 then wraps to 12 and finds no default name.
- `fretboard-data.ts` imports `./scale`, `./tuning` and `./note`. The scale is taken to be
  the one in `src/model/Scale.ts`, and the tuning the one in `src/model/tuning.ts`.
- `ScaleDegree.fromName(undefined)` is taken to throw a TypeError with the message "Cannot
  read properties of undefined". The exact message depends on the JavaScript engine.
- Note letters are modelled as single characters, since the regular expression captures
  exactly one. A `Note` built directly with a longer letter string is not representable.
- Contexts.Context.NoteFor: when the accidental index falls outside the table, JavaScript
  builds a note with `undefined` accidentals. The model returns `None` there instead.
- Contexts.Context.DegreeFor: the precondition excludes negative intervals, though the
  source resolves some of them. JavaScript's `%` truncates toward zero:
  - a negative multiple of 12 leaves -0, which compares equal to 0, so it resolves like
    interval 0 (a declared degree of value 0, else the default '1');
  - a remainder of -1 or -2 resolves to a declared degree of that value (`b1`, `bb1`) when
    the scale has one;
  - every other negative interval reads `undefined` from the default-name table, and
    `fromId(undefined)` throws a TypeError.
- Contexts.Context.DegreeAt: a string index at or beyond the tuning's string count is a
  precondition; JavaScript would fail on `undefined.value`.
- FretboardDatas.NoteAt: the same string-index precondition holds for `getNote`.
- FretboardDatas.FretboardData.SetScale: an exception thrown midway through the loop is
  modelled as a returned failure. The entries set before it stay in the table.
- FretboardDatas.FretboardData.Valid: the table is kept with at most one entry per
  position, as an invariant of every method. The source never states this, but only
  `setContent` and `clip` change the table, and both keep it.
- Util.ValueObjectSet: `Equatable.equals` is modelled as Dafny equality.
  `PositionSet`, the only instantiation in the source, has field-wise `equals`, which
  `Positions.EqualsIsIdentity` proves is equality.
- Util.ValueObjectSet: the items are held in a sequence field, which is a value. The
  copies that `fromArray` and `toArray` make are stated as a fresh object or array
  holding the same items. Aliasing through a `values` array that the constructor receives
  directly is not modelled. The same holds for PositionLists.PositionList.
- Tunings.ParseNotes: written as a single test over all pieces rather than a
  left-to-right map. Every failing piece throws the same RangeError, so the outcome is the
  same.
- LegacyScales.Scale.Valid: the invariant the lemmas require is weaker than exact
  construction. It requires one well-formed note per degree, a whole number of octaves
  from the degree's value; `BuiltIsValid` shows that construction implies it.
- LegacyScales.Scale.DegreeFromValue: the default name is returned as the degree it
  parses to, and `ScaleDegrees.DefaultNameParses` proves the two agree.
- Numbers are unbounded integers. JavaScript's doubles agree with them only below 2^53 in
  magnitude. Beyond that `parseInt` rounds: "C99999999999999999" parses to octave
  100000000000000000.
- Notes.FromIdOfId: in the source this round trip holds only for octaves below 2^53 in
  magnitude, because of that rounding.
- Notes.FromIdKeepsName: the same bound applies; a longer octave text parses to a rounded
  octave.
