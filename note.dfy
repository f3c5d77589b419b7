/** The octave-aware note of `src/model/Note.ts`: a letter, an accidental run and an
    octave, with an absolute semitone value in which C1 is 0. */
module Notes {
  import opened Wrappers
  import opened Text

  /** The seven natural letters, in the order C D E F G A B. A letter is one character,
      the single character the `[A-G]` group of the id pattern admits. */
  const Letters: seq<char> := ['C', 'D', 'E', 'F', 'G', 'A', 'B']

  /** The accepted accidental runs, from two flats up to two sharps. */
  const AccidentalRuns: seq<string> := ["bb", "b", "", "#", "##"]

  predicate IsLetter(l: char) {
    l in Letters
  }

  predicate IsAccidentals(a: string) {
    a in AccidentalRuns
  }

  /** The letter table `{'C': 0, 'D': 2, 'E': 4, 'F': 5, 'G': 7, 'A': 9, 'B': 11}`. */
  function LetterValue(l: char): int
    requires IsLetter(l)
  {
    if l == 'C' then 0
    else if l == 'D' then 2
    else if l == 'E' then 4
    else if l == 'F' then 5
    else if l == 'G' then 7
    else if l == 'A' then 9
    else 11
  }

  /** The accidental table `{'': 0, 'b': -1, 'bb': -2, '#': 1, '##': 2}`. */
  function AccidentalValue(a: string): int
    requires IsAccidentals(a)
  {
    if a == "bb" then -2
    else if a == "b" then -1
    else if a == "" then 0
    else if a == "#" then 1
    else 2
  }

  /** `indexOf` in the letter list. */
  function IndexOfLetter(l: char): (k: nat)
    requires IsLetter(l)
    ensures k < 7 && Letters[k] == l
  {
    if l == 'C' then 0
    else if l == 'D' then 1
    else if l == 'E' then 2
    else if l == 'F' then 3
    else if l == 'G' then 4
    else if l == 'A' then 5
    else 6
  }

  /** `IndexOfLetter` and indexing into `Letters` undo each other. */
  lemma IndexOfIndexedLetter(k: nat)
    requires k < 7
    ensures IsLetter(Letters[k]) && IndexOfLetter(Letters[k]) == k
  {
    assert Letters[k] in Letters;
    var m := IndexOfLetter(Letters[k]);
    assert Letters[m] == Letters[k];
  }

  lemma LetterValueIsIndexed(k: nat)
    requires k < 7
    ensures IsLetter(Letters[k])
    ensures LetterValue(Letters[k]) == [0, 2, 4, 5, 7, 9, 11][k]
  {
  }

  lemma AccidentalValueIsIndexed(k: nat)
    requires k < 5
    ensures IsAccidentals(AccidentalRuns[k])
    ensures AccidentalValue(AccidentalRuns[k]) == k - 2
  {
  }

  /** A note. Like the class it models, the constructor checks nothing: only notes built
      by `FromId` are known to be well formed. */
  datatype Note = Note(letter: char, accidentals: string, octave: int) {

    predicate WellFormed() {
      IsLetter(letter) && IsAccidentals(accidentals)
    }

    /** Letter, accidentals and the decimal octave, e.g. "F#3" or "Bb-1". What the id
        promises is stated by `FromIdOfId` and `IdHasDashIffNegative` below. */
    function Id(): string {
      [letter] + accidentals + IntToString(octave)
    }

    /** Letter and accidentals, without the octave: for a well-formed note, one letter
        followed by an accidental run, and never a '-'. */
    function Name(): (r: string)
      ensures |r| == 1 + |accidentals| && r[0] == letter && r[1..] == accidentals
      ensures WellFormed() ==> IsLetter(r[0]) && IsAccidentals(r[1..]) && '-' !in r
    {
      [letter] + accidentals
    }

    /** The absolute semitone number: the natural letter's pitch in the octave's band of
        twelve, shifted by the accidentals, which move it by at most two semitones. The
        source's table lookups give NaN for a letter or accidental run outside the tables;
        the model asks for a well-formed note. */
    function Value(): (r: int)
      requires WellFormed()
      ensures -2 <= r - (octave - 1) * 12 - LetterValue(letter) <= 2
    {
      (octave - 1) * 12 + LetterValue(letter) + AccidentalValue(accidentals)
    }

    /** Equality of ids, which for well-formed notes is equality of letter, accidentals
        and octave. */
    function Equals(other: Note): (r: bool)
      ensures WellFormed() && other.WellFormed() ==> (r <==> this == other)
    {
      if WellFormed() && other.WellFormed() then
        FromIdOfId(this);
        FromIdOfId(other);
        Id() == other.Id()
      else
        Id() == other.Id()
    }

    /** Equality of pitch class: the values differ by a multiple of 12. */
    function Same(other: Note): (r: bool)
      requires WellFormed() && other.WellFormed()
      ensures r <==> (Value() - other.Value()) % 12 == 0
    {
      NegatedMultiple(Value() - other.Value());
      Abs(Value() - other.Value()) % 12 == 0
    }
  }

  function Abs(x: int): (r: nat)
    ensures r == x || r == -x
  {
    if x < 0 then -x else x
  }

  // ------------------------------------------------------------- parsing

  /** The regular expression `^([A-G])(b|bb|#|##)?(-?[0-9]+)$` as a language: a letter,
      an accepted accidental run and an integer octave, one after the other. */
  ghost predicate IsNoteId(id: string) {
    exists l: char, a, o :: IsLetter(l) && IsAccidentals(a) && IsIntText(o) && id == [l] + a + o
  }

  /** The three capture groups of that expression, with an absent accidental group
      read as the empty run, or None when the text does not match. */
  function MatchNoteId(id: string): (m: Option<(char, string, string)>)
    ensures m.Some? ==> IsLetter(m.value.0) && IsAccidentals(m.value.1) && IsIntText(m.value.2)
    ensures m.Some? ==> id == [m.value.0] + m.value.1 + m.value.2
  {
    if |id| == 0 || id[0] !in Letters then None
    else
      var rest := id[1..];
      assert id == [id[0]] + rest;
      if |rest| >= 2 && rest[..2] in ["bb", "##"] && IsIntText(rest[2..]) then
        assert rest == rest[..2] + rest[2..];
        Some((id[0], rest[..2], rest[2..]))
      else if |rest| >= 1 && rest[..1] in ["b", "#"] && IsIntText(rest[1..]) then
        assert rest == rest[..1] + rest[1..];
        Some((id[0], rest[..1], rest[1..]))
      else if IsIntText(rest) then
        assert rest == "" + rest;
        Some((id[0], "", rest))
      else None
  }

  /** `Note.fromId`: RangeError('Invalid note!') unless the id matches. */
  function FromId(id: string): (r: Result<Note>)
    ensures r.Ok? ==> r.value.WellFormed()
    ensures r.Err? ==> r.error == RangeError("Invalid note!")
  {
    match MatchNoteId(id)
    case None => Err(RangeError("Invalid note!"))
    case Some((l, a, o)) => Ok(Note(l, a, ParseInt(o)))
  }

  /** The matcher finds exactly the letter, accidentals and octave text that make up the
      id: an octave text starts with '-' or a digit, so it cannot swallow an accidental. */
  lemma {:induction false} MatchNoteIdFindsParts(l: char, a: string, o: string)
    requires IsLetter(l) && IsAccidentals(a) && IsIntText(o)
    ensures MatchNoteId([l] + a + o) == Some((l, a, o))
  {
    var id := [l] + a + o;
    assert id[0] == l;
    var rest := id[1..];
    assert rest == a + o;
    assert o[0] == '-' || IsDigit(o[0]);
    if |a| == 2 {
      assert rest[..2] == a && rest[2..] == o;
    } else if |a| == 1 {
      assert rest[..1] == a && rest[1..] == o;
      assert rest[1] == o[0];
      assert !(rest[..2] in ["bb", "##"]);
    } else {
      assert rest == o;
      assert rest[0] == o[0];
      assert !(|rest| >= 2 && rest[..2] in ["bb", "##"]);
      assert !(rest[..1] in ["b", "#"]);
    }
  }

  /** `fromId` accepts exactly the language of the regular expression. */
  lemma FromIdAcceptsExactly(id: string)
    ensures FromId(id).Ok? <==> IsNoteId(id)
  {
    if IsNoteId(id) {
      var l: char, a, o :| IsLetter(l) && IsAccidentals(a) && IsIntText(o) && id == [l] + a + o;
      MatchNoteIdFindsParts(l, a, o);
    }
    if FromId(id).Ok? {
      var m := MatchNoteId(id).value;
      assert IsLetter(m.0) && IsAccidentals(m.1) && IsIntText(m.2) && id == [m.0] + m.1 + m.2;
    }
  }

  /** Parsing the id of a well-formed note gives back the note. */
  lemma FromIdOfId(n: Note)
    requires n.WellFormed()
    ensures FromId(n.Id()) == Ok(n)
  {
    IntToStringParses(n.octave);
    MatchNoteIdFindsParts(n.letter, n.accidentals, IntToString(n.octave));
  }

  /** The id of a well-formed note holds a '-' exactly when the octave is negative. */
  lemma IdHasDashIffNegative(n: Note)
    requires n.WellFormed()
    ensures '-' in n.Id() <==> n.octave < 0
  {
    IntToStringParses(n.octave);
    assert '-' !in [n.letter] + n.accidentals;
  }

  /** A parsed note keeps the letter and accidentals of its id; its octave is the
      integer written after them, and its own id parses back to it. */
  lemma FromIdKeepsName(id: string, n: Note)
    requires FromId(id) == Ok(n)
    ensures |n.Name()| <= |id| && id[..|n.Name()|] == n.Name()
    ensures IsIntText(id[|n.Name()|..]) && ParseInt(id[|n.Name()|..]) == n.octave
    ensures FromId(n.Id()) == Ok(n)
  {
    var m := MatchNoteId(id).value;
    assert id == ([m.0] + m.1) + m.2;
    assert id[..|n.Name()|] == [m.0] + m.1;
    assert id[|n.Name()|..] == m.2;
    FromIdOfId(n);
  }

  // ------------------------------------------------------ equality, value

  /** One octave up adds exactly 12 semitones, and C1 is semitone 0. */
  lemma OctaveStep(n: Note)
    requires n.WellFormed()
    ensures Note(n.letter, n.accidentals, n.octave + 1).Value() == n.Value() + 12
    ensures Note('C', "", 1).Value() == 0
  {
  }

  lemma NegatedMultiple(d: int)
    ensures d % 12 == 0 <==> (-d) % 12 == 0
  {
    if d % 12 == 0 {
      assert -d == 12 * (-(d / 12));
    }
    if (-d) % 12 == 0 {
      assert d == 12 * (-((-d) / 12));
    }
  }

  /** `same` is an equivalence relation on well-formed notes. */
  lemma SameIsEquivalence(a: Note, b: Note, c: Note)
    requires a.WellFormed() && b.WellFormed() && c.WellFormed()
    ensures a.Same(a)
    ensures a.Same(b) <==> b.Same(a)
    ensures a.Same(b) && b.Same(c) ==> a.Same(c)
  {
    if a.Same(b) && b.Same(c) {
      var x, y := a.Value() - b.Value(), b.Value() - c.Value();
      assert x == 12 * (x / 12) && y == 12 * (y / 12);
      assert a.Value() - c.Value() == 12 * (x / 12 + y / 12);
    }
  }

  /** `same` read off a known value of the first note. */
  lemma SameAtValue(m: Note, n: Note, v: int)
    requires m.WellFormed() && n.WellFormed() && m.Value() == v
    ensures m.Same(n) <==> (v - n.Value()) % 12 == 0
  {
  }

  /** Notes that differ only in octave sound the same pitch class. */
  lemma OctavesAreSame(n: Note, octave: int)
    requires n.WellFormed()
    ensures n.Same(Note(n.letter, n.accidentals, octave))
  {
    var m := Note(n.letter, n.accidentals, octave);
    assert n.Value() - m.Value() == 12 * (n.octave - octave);
  }
}
