/** `src/model/Tuning.ts`: the open-string notes, parsed from a '-'-separated id that
    lists them from the lowest string up and stored in the reverse order. */
module Tunings {
  import opened Wrappers
  import opened Text
  import Notes

  datatype Tuning = Tuning(notes: seq<Notes.Note>) {

    /** The note ids, put back into listing order and joined with '-'. When no note
        has a negative octave, no id holds a '-', so splitting the text on '-' gives back
        the ids, lowest string first; an empty tuning prints as "". */
    function Id(): (r: string)
      ensures |notes| >= 1 && (forall i :: 0 <= i < |notes| ==> notes[i].WellFormed() && notes[i].octave >= 0)
              ==> Split(r, '-') == Reverse(NoteIds(notes))
      ensures |notes| == 0 ==> r == ""
    {
      if |notes| >= 1 && forall i :: 0 <= i < |notes| ==> notes[i].WellFormed() && notes[i].octave >= 0 then
        PrintedPiecesHaveNoDash(this);
        SplitJoin(Reverse(NoteIds(notes)), '-');
        Join(Reverse(NoteIds(notes)), '-')
      else
        Join(Reverse(NoteIds(notes)), '-')
    }

    function StringCount(): nat {
      |notes|
    }
  }

  /** `notes.map(note => note.id)`. */
  function NoteIds(ns: seq<Notes.Note>): (r: seq<string>)
    ensures |r| == |ns| && forall i :: 0 <= i < |ns| ==> r[i] == ns[i].Id()
  {
    seq(|ns|, i requires 0 <= i < |ns| => ns[i].Id())
  }

  /** `ids.map(Note.fromId)`: the first id that does not parse throws its error, and
      every id that does not parse throws the same RangeError, so the result is an error
      exactly when some id does not parse. */
  function ParseNotes(ids: seq<string>): (r: Result<seq<Notes.Note>>)
    ensures r.Ok? <==> forall i :: 0 <= i < |ids| ==> Notes.FromId(ids[i]).Ok?
    ensures r.Ok? ==> |r.value| == |ids| && forall i :: 0 <= i < |ids| ==> Notes.FromId(ids[i]) == Ok(r.value[i])
    ensures r.Err? ==> r.error == RangeError("Invalid note!")
  {
    if forall i :: 0 <= i < |ids| ==> Notes.FromId(ids[i]).Ok? then
      Ok(seq(|ids|, i requires 0 <= i < |ids| => Notes.FromId(ids[i]).value))
    else Err(RangeError("Invalid note!"))
  }

  /** `Tuning.fromId`: split on '-', parse every piece as a note id, reverse. String i
      is piece k-1-i of the k pieces; an invalid piece throws the note's RangeError. */
  function FromId(id: string): (r: Result<Tuning>)
    ensures r.Ok? ==> r.value.StringCount() == |Split(id, '-')|
    ensures r.Ok? ==> var pieces := Split(id, '-');
      forall i :: 0 <= i < |pieces| ==> Notes.FromId(pieces[|pieces| - 1 - i]) == Ok(r.value.notes[i])
    ensures r.Ok? <==> forall i :: 0 <= i < |Split(id, '-')| ==> Notes.FromId(Split(id, '-')[i]).Ok?
    ensures r.Err? ==> r.error == RangeError("Invalid note!")
  {
    match ParseNotes(Split(id, '-'))
    case Err(e) => Err(e)
    case Ok(notes) => Ok(Tuning(Reverse(notes)))
  }

  /** The pieces of a printed tuning hold no '-'. */
  lemma PrintedPiecesHaveNoDash(t: Tuning)
    requires forall i :: 0 <= i < |t.notes| ==> t.notes[i].WellFormed() && t.notes[i].octave >= 0
    ensures forall i :: 0 <= i < |t.notes| ==> '-' !in Reverse(NoteIds(t.notes))[i]
  {
    ReversedIds(t.notes);
    forall i | 0 <= i < |t.notes| ensures '-' !in NoteIds(Reverse(t.notes))[i] {
      ReverseAt(t.notes, i);
      Notes.IdHasDashIffNegative(Reverse(t.notes)[i]);
    }
  }

  /** Reversing the ids is taking the ids of the reversed notes. */
  lemma ReversedIds(ns: seq<Notes.Note>)
    ensures Reverse(NoteIds(ns)) == NoteIds(Reverse(ns))
  {
    forall i | 0 <= i < |ns| ensures Reverse(NoteIds(ns))[i] == NoteIds(Reverse(ns))[i] {
      ReversedIdAt(ns, i);
    }
  }

  lemma ReversedIdAt(ns: seq<Notes.Note>, i: int)
    requires 0 <= i < |ns|
    ensures Reverse(NoteIds(ns))[i] == NoteIds(Reverse(ns))[i]
  {
    IdsReversedAt(ns, i);
    ReversedNoteIdAt(ns, i);
  }

  lemma IdsReversedAt(ns: seq<Notes.Note>, i: int)
    requires 0 <= i < |ns|
    ensures Reverse(NoteIds(ns))[i] == NoteIds(ns)[|ns| - 1 - i]
  {
    ReverseAt(NoteIds(ns), i);
  }

  lemma ReversedNoteIdAt(ns: seq<Notes.Note>, i: int)
    requires 0 <= i < |ns|
    ensures NoteIds(Reverse(ns))[i] == ns[|ns| - 1 - i].Id()
  {
    ReverseAt(ns, i);
  }

  /** The id of every well-formed note parses back to the note. */
  lemma IdsParse(ns: seq<Notes.Note>)
    requires forall i :: 0 <= i < |ns| ==> ns[i].WellFormed()
    ensures forall i :: 0 <= i < |ns| ==> Notes.FromId(NoteIds(ns)[i]) == Ok(ns[i])
  {
    forall i | 0 <= i < |ns| ensures Notes.FromId(NoteIds(ns)[i]) == Ok(ns[i]) {
      assert NoteIds(ns)[i] == ns[i].Id();
      Notes.FromIdOfId(ns[i]);
    }
  }

  /** Pieces that each parse to the corresponding note parse to the whole list. */
  lemma ParseNotesOfParsingPieces(ids: seq<string>, ns: seq<Notes.Note>)
    requires |ids| == |ns|
    requires forall i :: 0 <= i < |ids| ==> Notes.FromId(ids[i]) == Ok(ns[i])
    ensures ParseNotes(ids) == Ok(ns)
  {
    var parsed := ParseNotes(ids);
    assert parsed.Ok?;
    forall i | 0 <= i < |ids| ensures parsed.value[i] == ns[i] {
      assert Notes.FromId(ids[i]) == Ok(parsed.value[i]);
    }
    assert parsed.value == ns;
  }

  /** Every tuning of well-formed notes with non-negative octaves survives printing and
      parsing. An empty tuning prints as "", which does not parse. */
  lemma FromIdOfId(t: Tuning)
    requires |t.notes| >= 1
    requires forall i :: 0 <= i < |t.notes| ==> t.notes[i].WellFormed() && t.notes[i].octave >= 0
    ensures FromId(t.Id()) == Ok(t)
  {
    var pieces := Reverse(NoteIds(t.notes));
    ReversedIds(t.notes);
    IdsParse(Reverse(t.notes));
    ParseNotesOfParsingPieces(pieces, Reverse(t.notes));
    ReverseReverse(t.notes);
  }

  /** Parsing then printing gives back the id when every piece is already the canonical
      id of the note it parses to (an octave without leading zeros). */
  lemma IdOfFromId(id: string, t: Tuning)
    requires FromId(id) == Ok(t)
    requires forall p :: p in Split(id, '-') ==> Notes.FromId(p).Ok? && Notes.FromId(p).value.Id() == p
    ensures t.Id() == id
  {
    var pieces := Split(id, '-');
    var k := |pieces|;
    assert Reverse(NoteIds(t.notes)) == pieces by {
      forall i | 0 <= i < k ensures Reverse(NoteIds(t.notes))[i] == pieces[i] {
        assert pieces[i] in Split(id, '-');
        assert Notes.FromId(pieces[|pieces| - 1 - (k - 1 - i)]) == Ok(t.notes[k - 1 - i]);
      }
    }
    JoinSplit(id, '-');
  }

  /** The id of E at octave -1 is "E-1". */
  lemma NegativeOctaveId()
    ensures Tuning([Notes.Note('E', "", -1)]).Id() == "E-1"
  {
    var t := Tuning([Notes.Note('E', "", -1)]);
    assert IntToString(-1) == "-1" by {
      assert NatToString(1) == "1";
    }
    assert t.notes[0].Id() == "E-1" by {
      assert t.notes[0].Id() == ['E'] + "" + "-1";
    }
    assert NoteIds(t.notes) == ["E-1"];
    assert Reverse(["E-1"]) == ["E-1"];
  }

  /** Splitting "E-1" on '-' gives the pieces "E" and "1". */
  lemma SplitNegativeOctaveId()
    ensures Split("E-1", '-') == ["E", "1"]
  {
    SplitWithoutSeparator("1", '-');
    SplitAfterPiece("E", '-', "1");
    assert "E" + ['-'] + "1" == "E-1";
  }

  /** A negative octave cannot round-trip: its minus sign is taken for a separator. */
  lemma NegativeOctaveBreaksRoundTrip()
    ensures Tuning([Notes.Note('E', "", -1)]).Id() == "E-1"
    ensures FromId("E-1").Err?
  {
    NegativeOctaveId();
    SplitNegativeOctaveId();
    assert Notes.MatchNoteId("E") == None;
    assert Notes.FromId(Split("E-1", '-')[0]).Err?;
  }
}
