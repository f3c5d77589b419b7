/** `src/model/tuning.ts`, the earlier tuning: pitch-class notes parsed from a
    '-'-separated string that lists them from the lowest string up, stored in the
    reverse order. The constructor is private, so `FromString` is the only way to a
    tuning, and `notes` is all its state. */
module LegacyTunings {
  import opened Wrappers
  import opened Text
  import opened PitchClassNotes

  datatype Tuning = Tuning(notes: seq<PitchNote>) {

    /** `toString`: the names, put back into listing order and joined with '-'. No name
        holds a '-', so splitting the text on '-' gives back the names, lowest string
        first; an empty tuning prints as "". */
    function ToString(): (r: string)
      ensures |notes| >= 1 && (forall i :: 0 <= i < |notes| ==> notes[i].WellFormed())
              ==> Split(r, '-') == Reverse(Names(notes))
      ensures |notes| == 0 ==> r == ""
    {
      if |notes| >= 1 && forall i :: 0 <= i < |notes| ==> notes[i].WellFormed() then
        ReversedNames(notes);
        SplitJoin(Reverse(Names(notes)), '-');
        Join(Reverse(Names(notes)), '-')
      else
        Join(Reverse(Names(notes)), '-')
    }
  }

  /** `notes.map(note => note.name)`. */
  function Names(ns: seq<PitchNote>): (r: seq<string>)
    ensures |r| == |ns| && forall i :: 0 <= i < |ns| ==> r[i] == ns[i].Name()
  {
    seq(|ns|, i requires 0 <= i < |ns| => ns[i].Name())
  }

  /** `names.map(Note.fromName)`: every name that does not parse throws the same error,
      so the result is an error exactly when some name does not parse. */
  function ParseNames(names: seq<string>): (r: Result<seq<PitchNote>>)
    ensures r.Ok? <==> forall i :: 0 <= i < |names| ==> FromName(names[i]).Ok?
    ensures r.Ok? ==> |r.value| == |names| && forall i :: 0 <= i < |names| ==> FromName(names[i]) == Ok(r.value[i])
    ensures r.Err? ==> r.error == RangeError("Invalid note!")
  {
    if forall i :: 0 <= i < |names| ==> FromName(names[i]).Ok? then
      Ok(seq(|names|, i requires 0 <= i < |names| => FromName(names[i]).value))
    else Err(RangeError("Invalid note!"))
  }

  /** `Tuning.fromString`: split on '-', parse every piece as a name, reverse; string i
      is piece k-1-i of the k pieces. */
  function FromString(s: string): (r: Result<Tuning>)
    ensures r.Ok? ==> |r.value.notes| == |Split(s, '-')|
    ensures r.Ok? ==> forall i :: 0 <= i < |Split(s, '-')| ==>
      FromName(Split(s, '-')[|Split(s, '-')| - 1 - i]) == Ok(r.value.notes[i])
    ensures r.Ok? <==> forall i :: 0 <= i < |Split(s, '-')| ==> FromName(Split(s, '-')[i]).Ok?
  {
    match ParseNames(Split(s, '-'))
    case Err(e) => Err(e)
    case Ok(notes) => Ok(Tuning(Reverse(notes)))
  }

  /** Printed in listing order, name i is piece i of the split string. */
  lemma PieceAt(s: string, t: Tuning, i: int)
    requires FromString(s) == Ok(t) && 0 <= i < |t.notes|
    ensures Reverse(Names(t.notes))[i] == Split(s, '-')[i]
  {
    var pieces := Split(s, '-');
    var k := |pieces|;
    ReverseAt(Names(t.notes), i);
    assert FromName(pieces[k - 1 - (k - 1 - i)]) == Ok(t.notes[k - 1 - i]);
    assert t.notes[k - 1 - i].Name() == pieces[i];
  }

  /** Printing a parsed tuning gives back the string: a name that parses is the name of
      the note it parses to. */
  lemma ToStringOfFromString(s: string, t: Tuning)
    requires FromString(s) == Ok(t)
    ensures t.ToString() == s
  {
    var pieces := Split(s, '-');
    forall i | 0 <= i < |pieces| ensures Reverse(Names(t.notes))[i] == pieces[i] {
      PieceAt(s, t, i);
    }
    assert Reverse(Names(t.notes)) == pieces;
    JoinSplit(s, '-');
  }

  /** The names of a tuning, reversed, are the names of the reversed notes. */
  lemma ReversedNameAt(ns: seq<PitchNote>, i: int)
    requires 0 <= i < |ns|
    ensures Reverse(Names(ns))[i] == Names(Reverse(ns))[i]
  {
    NamesReversedAt(ns, i);
    ReversedNoteNameAt(ns, i);
  }

  lemma NamesReversedAt(ns: seq<PitchNote>, i: int)
    requires 0 <= i < |ns|
    ensures Reverse(Names(ns))[i] == Names(ns)[|ns| - 1 - i]
  {
    ReverseAt(Names(ns), i);
  }

  lemma ReversedNoteNameAt(ns: seq<PitchNote>, i: int)
    requires 0 <= i < |ns|
    ensures Names(Reverse(ns))[i] == ns[|ns| - 1 - i].Name()
  {
    ReverseAt(ns, i);
  }

  /** Every name parses back to its note and holds no '-'. */
  lemma NamesParse(ns: seq<PitchNote>)
    requires forall i :: 0 <= i < |ns| ==> ns[i].WellFormed()
    ensures forall i :: 0 <= i < |ns| ==> '-' !in Names(ns)[i]
    ensures ParseNames(Names(ns)) == Ok(ns)
  {
    forall i | 0 <= i < |ns| ensures '-' !in Names(ns)[i] && FromName(Names(ns)[i]) == Ok(ns[i]) {
      NoDashInName(ns[i]);
      FromNameOfName(ns[i]);
    }
    var parsed := ParseNames(Names(ns));
    assert parsed.Ok?;
    forall i | 0 <= i < |ns| ensures parsed.value[i] == ns[i] {
      assert FromName(Names(ns)[i]) == Ok(parsed.value[i]);
    }
    assert parsed.value == ns;
  }

  /** Reversing the names of well-formed notes is naming the reversed notes, and no
      such name holds a '-'. */
  lemma ReversedNames(ns: seq<PitchNote>)
    requires forall i :: 0 <= i < |ns| ==> ns[i].WellFormed()
    ensures Reverse(Names(ns)) == Names(Reverse(ns))
    ensures forall i :: 0 <= i < |ns| ==> '-' !in Reverse(Names(ns))[i]
  {
    var rev := Reverse(ns);
    forall i | 0 <= i < |rev| ensures Reverse(Names(ns))[i] == Names(rev)[i] {
      ReversedNameAt(ns, i);
    }
    forall i | 0 <= i < |rev| ensures rev[i].WellFormed() {
      ReverseAt(ns, i);
    }
    NamesParse(rev);
  }

  /** A tuning of at least one well-formed note survives printing and parsing. (An empty
      list prints as "", which parses to one piece and does not name a note.) */
  lemma FromStringOfToString(t: Tuning)
    requires |t.notes| >= 1
    requires forall i :: 0 <= i < |t.notes| ==> t.notes[i].WellFormed()
    ensures FromString(t.ToString()) == Ok(t)
  {
    var rev := Reverse(t.notes);
    ReversedNames(t.notes);
    forall i | 0 <= i < |rev| ensures rev[i].WellFormed() {
      ReverseAt(t.notes, i);
    }
    NamesParse(rev);
    ReverseReverse(t.notes);
  }
}
