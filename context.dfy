/** `src/model/Context.ts`: the query engine that maps fretboard positions to scale
    degrees and spelled notes for one root, one scale and one tuning. */
module Contexts {
  import opened Wrappers
  import opened Util
  import opened Positions
  import Notes
  import ScaleDegrees
  import Tunings

  type Note = Notes.Note
  type ScaleDegree = ScaleDegrees.ScaleDegree

  /** The highest fret the loops visit; every string has frets 0 to 24. */
  const LastFret: int := 24

  // ------------------------------------------------------------ the fretboard

  /** The positions `getAllPositions` lists: string after string, frets 0 to 24 on each. */
  function Grid(stringCount: nat): (r: seq<Position>)
    ensures |r| == stringCount * (LastFret + 1)
  {
    seq(stringCount * 25, i requires 0 <= i < stringCount * 25 => Position(i % 25, i / 25))
  }

  /** String-major order: `p` comes before `q` on a lower string, or on the same string
      at a lower fret. */
  predicate Before(p: Position, q: Position) {
    p.stringIndex < q.stringIndex || (p.stringIndex == q.stringIndex && p.fret < q.fret)
  }

  /** The grid holds every (string, fret) pair of the fretboard once, in string-major
      order, and nothing else. */
  lemma GridProperties(n: nat)
    ensures forall p :: p in Grid(n) <==> 0 <= p.stringIndex < n && 0 <= p.fret <= LastFret
    ensures forall i, j :: 0 <= i < j < |Grid(n)| ==> Before(Grid(n)[i], Grid(n)[j])
    ensures NoDuplicates(Grid(n))
  {
    var g := Grid(n);
    forall p: Position | 0 <= p.stringIndex < n && 0 <= p.fret <= LastFret ensures p in g {
      var k := p.stringIndex * 25 + p.fret;
      assert k % 25 == p.fret && k / 25 == p.stringIndex;
      assert g[k] == p;
    }
  }

  /** Stepping `n - 1` letters up from letter `l` reaches a natural note within one
      semitone of the interval the degree number `n` stands for: the letters' own
      spacing is a major scale, off by at most a semitone from any other mode's. */
  lemma LetterStepGap(l: nat, n: int)
    requires l < 7 && 1 <= n <= 7
    ensures -1 <= Notes.LetterValue(Notes.Letters[l]) + ScaleDegrees.NumberValue(n)
                  - 12 * ((l + (n - 1)) / 7) - Notes.LetterValue(Notes.Letters[(l + (n - 1)) % 7]) <= 1
  {
    var j := l + (n - 1);
    Notes.LetterValueIsIndexed(l);
    if j < 7 {
      assert j / 7 == 0 && j % 7 == j;
      Notes.LetterValueIsIndexed(j);
      MajorStepGap(l, n - 1, j);
    } else {
      assert j / 7 == 1 && j % 7 == j - 7;
      Notes.LetterValueIsIndexed(j - 7);
      MajorStepGap(l, n - 1, j - 7);
    }
  }

  /** In the major-scale pattern of semitone offsets, stepping `a` letters up from letter
      `l` covers `a`'s own offset, give or take one semitone. */
  lemma MajorStepGap(l: nat, a: nat, k: nat)
    requires l < 7 && a < 7 && k < 7 && (k == l + a || k == l + a - 7)
    ensures -1 <= [0, 2, 4, 5, 7, 9, 11][l] + [0, 2, 4, 5, 7, 9, 11][a]
                  - (if k == l + a then 0 else 12) - [0, 2, 4, 5, 7, 9, 11][k] <= 1
  {
  }

  /** The arithmetic of `SpellingGap`, apart from the notes it is about. */
  lemma GapArithmetic(value: int, rootValue: int, rootOctave: int, rootLetterValue: int,
                      rootOffset: int, interval: int, q: int, degreeValue: int,
                      degreeOffset: int, numberValue: int, jd: int, naturalValue: int,
                      naturalLetterValue: int)
    requires rootValue == (rootOctave - 1) * 12 + rootLetterValue + rootOffset
    requires interval == value - rootValue
    requires interval == 12 * q + degreeValue && degreeValue == degreeOffset + numberValue
    requires naturalValue == (rootOctave + q + jd - 1) * 12 + naturalLetterValue
    requires -1 <= rootLetterValue + numberValue - 12 * jd - naturalLetterValue <= 1
    ensures -1 <= (value - naturalValue) - (rootOffset + degreeOffset) <= 1
  {
  }

  // ------------------------------------------------------------ spelling a value

  /** `rootLetterIndex + (scaleDegree.number - 1)`: how many letters above C of the root's
      octave the spelled note's letter lies. */
  function LetterStep(root: Note, d: ScaleDegree): int
    requires root.WellFormed() && d.Valid()
  {
    Notes.IndexOfLetter(root.letter) + (d.number - 1)
  }

  /** The natural note `getNoteByValue` settles on: the letter `number - 1` steps after the
      root's letter, in the octave that `Math.floor(interval / 12)` and the letter step
      reach (floor division, which is Dafny's `/` for the divisors 12 and 7). */
  function Natural(root: Note, d: ScaleDegree, value: int): (n: Note)
    requires root.WellFormed() && d.Valid()
    ensures n.WellFormed() && n.accidentals == ""
  {
    Notes.Note(Notes.Letters[LetterStep(root, d) % 7], "",
               root.octave + (value - root.Value()) / 12 + LetterStep(root, d) / 7)
  }

  /** The natural note with the accidental that closes the gap to the value. Where the gap
      exceeds two semitones, `getNoteByValue` indexes the accidental list out of range and
      builds a note with an undefined accidental; the model gives None. */
  function Spell(root: Note, d: ScaleDegree, value: int): (r: Option<Note>)
    requires root.WellFormed() && d.Valid()
    ensures r.Some? <==> -2 <= value - Natural(root, d, value).Value() <= 2
    ensures r.Some? ==> r.value.WellFormed() && r.value.Value() == value
    ensures r.Some? ==> r.value.letter == Natural(root, d, value).letter
                        && r.value.octave == Natural(root, d, value).octave
  {
    if 0 <= value - Natural(root, d, value).Value() + 2 < 5 then
      Notes.AccidentalValueIsIndexed(value - Natural(root, d, value).Value() + 2);
      Some(Notes.Note(Natural(root, d, value).letter,
                      Notes.AccidentalRuns[value - Natural(root, d, value).Value() + 2],
                      Natural(root, d, value).octave))
    else None
  }

  /** The spelled letter is `number - 1` letters after the root's letter, counting
      cyclically through C D E F G A B. */
  lemma SpelledLetterSteps(root: Note, d: ScaleDegree, value: int)
    requires root.WellFormed() && d.Valid()
    ensures Notes.IndexOfLetter(Natural(root, d, value).letter)
      == (Notes.IndexOfLetter(root.letter) + d.number - 1) % 7
  {
    Notes.IndexOfIndexedLetter(LetterStep(root, d) % 7);
  }

  /** The value of the spelled natural, in terms of the letter step. */
  lemma NaturalValue(root: Note, d: ScaleDegree, value: int)
    requires root.WellFormed() && d.Valid()
    ensures Notes.Letters[Notes.IndexOfLetter(root.letter)] == root.letter
    ensures Natural(root, d, value).Value()
      == (root.octave + (value - root.Value()) / 12 + LetterStep(root, d) / 7 - 1) * 12
         + Notes.LetterValue(Notes.Letters[LetterStep(root, d) % 7])
  {
  }

  /** When the degree's value is the interval reduced mod 12, the gap `getNoteByValue`
      closes with an accidental is the root's accidental plus the degree's, give or take one
      semitone; so accidentals that sum to at most one in size always get a defined one. */
  lemma SpellingGap(root: Note, d: ScaleDegree, value: int)
    requires root.WellFormed() && d.Valid() && d.Value() == (value - root.Value()) % 12
    ensures -1 <= (value - Natural(root, d, value).Value())
                  - (Notes.AccidentalValue(root.accidentals) + Notes.AccidentalValue(d.accidentals)) <= 1
    ensures -1 <= Notes.AccidentalValue(root.accidentals) + Notes.AccidentalValue(d.accidentals) <= 1
            ==> Spell(root, d, value).Some?
  {
    var interval := value - root.Value();
    NaturalValue(root, d, value);
    LetterStepGap(Notes.IndexOfLetter(root.letter), d.number);
    GapArithmetic(value, root.Value(), root.octave, Notes.LetterValue(root.letter),
                  Notes.AccidentalValue(root.accidentals), interval, interval / 12, d.Value(),
                  Notes.AccidentalValue(d.accidentals), ScaleDegrees.NumberValue(d.number),
                  LetterStep(root, d) / 7, Natural(root, d, value).Value(),
                  Notes.LetterValue(Notes.Letters[LetterStep(root, d) % 7]));
  }

  // --------------------------------------------------------------- the context

  /** A context: the root note, the degrees of the scale in declaration order (all the
      engine reads of its scale) and the tuning. The fields never change. */
  datatype Context = Context(root: Note, degrees: seq<ScaleDegree>, tuning: Tunings.Tuning) {

    /** Notes with letters and accidentals from the tables, degrees built by the
        validating constructor. */
    predicate WellFormed() {
      && root.WellFormed()
      && (forall i :: 0 <= i < |degrees| ==> degrees[i].Valid())
      && (forall s :: 0 <= s < |tuning.notes| ==> tuning.notes[s].WellFormed())
    }

    /** The position lies on a string of the tuning, so `tuning.notes[position.string]`
        is a note. */
    predicate OnString(p: Position) {
      0 <= p.stringIndex < tuning.StringCount()
    }

    /** The open string's value plus the fret. */
    function PitchAt(p: Position): int
      requires WellFormed() && OnString(p)
    {
      tuning.notes[p.stringIndex].Value() + p.fret
    }

    /** What the position-based queries need: a string of the tuning, sounding no lower
        than the root. A negative interval would index the default table out of range. */
    predicate Resolvable(p: Position) {
      WellFormed() && OnString(p) && PitchAt(p) - root.Value() >= 0
    }

    /** No open string sounds below the root, so every fretboard position is resolvable. */
    predicate NoStringBelowRoot() {
      WellFormed() && forall s :: 0 <= s < |tuning.notes| ==> tuning.notes[s].Value() >= root.Value()
    }

    // ------------------------------------------------- degree of an interval

    /** The degree `getScaleDegreeByValue` gives an interval: the first declared degree
        whose value is the interval modulo 12, else the default name for that residue. */
    function DegreeFor(interval: int): (d: ScaleDegree)
      requires WellFormed() && interval >= 0
      ensures d.Valid() && d.Value() == interval % 12
    {
      if ScaleDegrees.FirstWithValue(degrees, interval % 12) >= 0
      then degrees[ScaleDegrees.FirstWithValue(degrees, interval % 12)]
      else ScaleDegrees.DefaultDegree(interval % 12)
    }

    /** `getScaleDegreeByValue`: reduce modulo 12 (the same as JavaScript's `%` for a
        non-negative value), search the declared degrees, fall back on the default name. */
    method GetScaleDegreeByValue(value: int) returns (d: ScaleDegree)
      requires WellFormed() && value >= 0
      ensures d == DegreeFor(value)
      ensures d.Valid() && d.Value() == value % 12
    {
      var v := value % 12;
      var i := 0;
      while i < |degrees|
        invariant 0 <= i <= |degrees|
        invariant forall j :: 0 <= j < i ==> degrees[j].Value() != v
      {
        if degrees[i].Value() == v {
          return degrees[i];
        }
        i := i + 1;
      }
      d := ScaleDegrees.DefaultDegree(v);
    }

    /** The interval of a position above the root. */
    function IntervalAt(p: Position): int
      requires WellFormed() && OnString(p)
    {
      PitchAt(p) - root.Value()
    }

    /** `getScaleDegreeByPosition`: the degree of the position's interval above the root. */
    function DegreeAt(p: Position): (d: ScaleDegree)
      requires Resolvable(p)
      ensures d.Valid() && d.Value() == IntervalAt(p) % 12
    {
      DegreeFor(IntervalAt(p))
    }

    // ----------------------------------------------------- spelling a value

    /** The natural note `getNoteByValue` settles on for a value. */
    function NaturalFor(value: int): (n: Note)
      requires WellFormed() && value - root.Value() >= 0
      ensures n.WellFormed() && n.accidentals == ""
    {
      Natural(root, DegreeFor(value - root.Value()), value)
    }

    /** `getNoteByValue`: the interval's degree names the letter, the value the accidental. */
    function NoteFor(value: int): (r: Option<Note>)
      requires WellFormed() && value - root.Value() >= 0
      ensures r.Some? <==> -2 <= value - NaturalFor(value).Value() <= 2
      ensures r.Some? ==> r.value.WellFormed() && r.value.Value() == value
      ensures r.Some? ==> r.value.letter == NaturalFor(value).letter && r.value.octave == NaturalFor(value).octave
    {
      Spell(root, DegreeFor(value - root.Value()), value)
    }

    /** `getNoteByPosition`: the note spelled for the position's value. */
    function NoteAt(p: Position): (r: Option<Note>)
      requires Resolvable(p)
      ensures r.Some? ==> r.value.WellFormed() && r.value.Value() == PitchAt(p)
    {
      NoteFor(PitchAt(p))
    }

    // ------------------------------------------------------- the position filters

    /** `scale.degrees.some(d => degree.equals(d))`. */
    predicate Declares(d: ScaleDegree) {
      exists i :: 0 <= i < |degrees| && d.Equals(degrees[i])
    }

    /** A position's degree is declared exactly when some declared degree has the
        position's interval modulo 12 as its value. */
    lemma DeclaresMeaning(p: Position)
      requires Resolvable(p)
      ensures Declares(DegreeAt(p)) <==> exists i :: 0 <= i < |degrees| && degrees[i].Value() == IntervalAt(p) % 12
    {
      var d := DegreeAt(p);
      if exists i :: 0 <= i < |degrees| && degrees[i].Value() == IntervalAt(p) % 12 {
        var k := ScaleDegrees.FirstWithValue(degrees, IntervalAt(p) % 12);
        assert d == degrees[k];
        assert d.Equals(degrees[k]);
      }
    }

    /** The test `getInScalePositions` applies to a position: its degree is declared, that
        is, some declared degree has the interval above the root, modulo 12, as its value. */
    function InScaleAt(p: Position): (r: bool)
      ensures r <==> Resolvable(p) && exists i :: 0 <= i < |degrees| && degrees[i].Value() == IntervalAt(p) % 12
    {
      if Resolvable(p) then
        DeclaresMeaning(p);
        Declares(DegreeAt(p))
      else
        false
    }

    /** The test `getSameNotePositions(n)` applies: the spelled note is `same` as `n`, that
        is, the engine spells a note there and its value is congruent to `n`'s modulo 12. A
        note with an undefined accidental has value NaN, which is never `same`. */
    function SameNoteAt(p: Position, n: Note): (r: bool)
      requires n.WellFormed()
      ensures r <==> Resolvable(p) && NoteAt(p).Some? && (PitchAt(p) - n.Value()) % 12 == 0
    {
      if Resolvable(p) && NoteAt(p).Some? then
        SpelledSame(p, n);
        NoteAt(p).value.Same(n)
      else
        false
    }

    /** The spelled note of a position is `same` as `n` exactly when the position's value
        is congruent to `n`'s modulo 12. */
    lemma SpelledSame(p: Position, n: Note)
      requires Resolvable(p) && NoteAt(p).Some? && n.WellFormed()
      ensures NoteAt(p).value.Same(n) <==> (PitchAt(p) - n.Value()) % 12 == 0
    {
      Notes.SameAtValue(NoteAt(p).value, n, PitchAt(p));
    }

    /** `getAllPositions`: nested loops over strings and frets, pushing each position. */
    method GetAllPositions() returns (r: seq<Position>)
      ensures r == Grid(tuning.StringCount())
    {
      r := [];
      var s := 0;
      while s < tuning.StringCount()
        invariant 0 <= s <= tuning.StringCount()
        invariant |r| == s * 25
        invariant forall i :: 0 <= i < |r| ==> r[i] == Position(i % 25, i / 25)
      {
        var fret := 0;
        while fret <= LastFret
          invariant 0 <= fret <= LastFret + 1
          invariant |r| == s * 25 + fret
          invariant forall i :: 0 <= i < |r| ==> r[i] == Position(i % 25, i / 25)
        {
          assert (s * 25 + fret) % 25 == fret && (s * 25 + fret) / 25 == s;
          r := r + [Position(fret, s)];
          fret := fret + 1;
        }
        s := s + 1;
      }
    }

    /** With no string below the root, every fretboard position is resolvable. */
    lemma ResolvableOnFretboard(p: Position)
      requires NoStringBelowRoot() && OnString(p) && 0 <= p.fret
      ensures Resolvable(p)
    {
      assert tuning.notes[p.stringIndex].Value() >= root.Value();
    }

    /** The same, for every fretboard position at once. */
    lemma ResolvableOnFretboardAll()
      requires NoStringBelowRoot()
      ensures forall p :: OnString(p) && 0 <= p.fret ==> Resolvable(p)
    {
      forall p | OnString(p) && 0 <= p.fret {
        ResolvableOnFretboard(p);
      }
    }

    /** `getInScalePositions`: the fretboard positions, in fretboard order, whose degree
        the scale declares; those are the positions whose interval above the root is,
        modulo 12, the value of a declared degree. */
    function InScalePositions(): (r: seq<Position>)
      requires NoStringBelowRoot()
      ensures forall p :: p in r <==>
        && OnString(p) && 0 <= p.fret <= LastFret
        && exists i :: 0 <= i < |degrees| && degrees[i].Value() == IntervalAt(p) % 12
      ensures forall i, j :: 0 <= i < j < |r| ==> Before(r[i], r[j])
      ensures NoDuplicates(r)
    {
      var grid := Grid(tuning.StringCount());
      GridProperties(tuning.StringCount());
      FilterMembershipAll(grid, p => InScaleAt(p));
      FilterKeepsOrder(grid, p => InScaleAt(p), (p, q) => Before(p, q));
      ResolvableOnFretboardAll();
      Filter(grid, p => InScaleAt(p))
    }

    /** `getSameNotePositions(n)`: the fretboard positions, in fretboard order, whose
        spelled note is `same` as `n`; a position is listed exactly when its value is
        congruent to `n`'s modulo 12 and the engine can spell its note. */
    function SameNotePositions(n: Note): (r: seq<Position>)
      requires NoStringBelowRoot() && n.WellFormed()
      ensures forall p :: p in r <==>
        && OnString(p) && 0 <= p.fret <= LastFret && NoteAt(p).Some?
        && (PitchAt(p) - n.Value()) % 12 == 0
      ensures forall i, j :: 0 <= i < j < |r| ==> Before(r[i], r[j])
      ensures NoDuplicates(r)
    {
      var grid := Grid(tuning.StringCount());
      GridProperties(tuning.StringCount());
      FilterMembershipAll(grid, p => SameNoteAt(p, n));
      FilterKeepsOrder(grid, p => SameNoteAt(p, n), (p, q) => Before(p, q));
      ResolvableOnFretboardAll();
      Filter(grid, p => SameNoteAt(p, n))
    }
  }
}
