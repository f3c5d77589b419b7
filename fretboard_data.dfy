/** `src/model/fretboard-data.ts`: the earlier fretboard, a table from (string, fret)
    positions to the note and scale degree shown there. The table is a list of entries that
    `setContent` and `clip` replace by a filtered copy; `setScale` walks every position of
    the tuning and enters the ones whose note the scale contains. The file imports
    `./scale`; it is taken to be the scale of `src/model/Scale.ts`. */
module FretboardDatas {
  import opened Wrappers
  import opened Text
  import opened Util
  import opened PitchClassNotes
  import opened ScaleDegrees
  import opened LegacyScales
  import opened LegacyTunings

  /** `FretboardPosition`: a string index (0 is the first note of the tuning's list) and a
      fret (0 is the open string). */
  datatype FretboardPosition = FretboardPosition(stringIndex: int, fret: int)

  /** `FretboardContent`: what is shown at a position. */
  datatype FretboardContent = FretboardContent(note: PitchNote, degree: ScaleDegree)

  /** One item of the table. */
  datatype Entry = Entry(position: FretboardPosition, content: FretboardContent)

  /** `equal`: positions are compared by string and fret, which is exactly equality of the
      two values. */
  function Equal(p: FretboardPosition, q: FretboardPosition): (r: bool)
    ensures r <==> p == q
  {
    p.stringIndex == q.stringIndex && p.fret == q.fret
  }

  function EntryPosition(e: Entry): FretboardPosition {
    e.position
  }

  /** The highest fret; `getAllPositions` runs from fret 0 up to it. */
  const FretCount: int := 24

  /** Every open-string note of a tuning is a well-formed pitch-class note. */
  predicate TuningWellFormed(t: Tuning) {
    forall i :: 0 <= i < |t.notes| ==> t.notes[i].WellFormed()
  }

  // ------------------------------------------------------------ positions

  /** The positions of one string, frets 0 to 24. */
  function StringPositions(s: int): (r: seq<FretboardPosition>)
    ensures |r| == FretCount + 1
    ensures forall f :: 0 <= f <= FretCount ==> r[f] == FretboardPosition(s, f)
  {
    seq(FretCount + 1, f requires 0 <= f <= FretCount => FretboardPosition(s, f))
  }

  /** The positions of the first `k` strings, string by string, each from fret 0 up. */
  function AllPositions(k: nat): (r: seq<FretboardPosition>)
    ensures forall i :: 0 <= i < |r| ==> 0 <= r[i].stringIndex < k
  {
    if k == 0 then [] else AllPositions(k - 1) + StringPositions(k - 1)
  }

  /** There are 25 positions per string, and position i is fret i % 25 of string i / 25. */
  lemma {:induction false} AllPositionsShape(k: nat)
    ensures |AllPositions(k)| == 25 * k
    ensures forall i :: 0 <= i < 25 * k ==> AllPositions(k)[i] == FretboardPosition(i / 25, i % 25)
  {
    if k > 0 {
      AllPositionsShape(k - 1);
      forall i | 25 * (k - 1) <= i < 25 * k
        ensures AllPositions(k)[i] == FretboardPosition(i / 25, i % 25)
      {
        assert i / 25 == k - 1 && i % 25 == i - 25 * (k - 1);
      }
    }
  }

  /** The positions listed are exactly those on a string of the tuning, at frets 0..24. */
  lemma AllPositionsMembership(k: nat, p: FretboardPosition)
    ensures p in AllPositions(k) <==> 0 <= p.stringIndex < k && 0 <= p.fret <= FretCount
  {
    AllPositionsShape(k);
    if 0 <= p.stringIndex < k && 0 <= p.fret <= FretCount {
      var i := 25 * p.stringIndex + p.fret;
      assert i / 25 == p.stringIndex && i % 25 == p.fret;
      assert AllPositions(k)[i] == p;
    }
  }

  // --------------------------------------------------------- lookup, update

  /** `getContent`: the content of the first entry at the position, if any. */
  function Lookup(data: seq<Entry>, p: FretboardPosition): (r: Option<FretboardContent>)
    ensures r.None? <==> forall i :: 0 <= i < |data| ==> data[i].position != p
    ensures r.Some? ==> Entry(p, r.value) in data
  {
    if data == [] then None
    else if Equal(data[0].position, p) then Some(data[0].content)
    else
      assert forall i :: 1 <= i < |data| ==> data[i] == data[1..][i - 1];
      Lookup(data[1..], p)
  }

  /** Looking up in a concatenation looks in the first part first. */
  lemma {:induction false} LookupConcat(a: seq<Entry>, b: seq<Entry>, q: FretboardPosition)
    ensures Lookup(a + b, q) == if Lookup(a, q).Some? then Lookup(a, q) else Lookup(b, q)
  {
    if a == [] {
      assert a + b == b;
    } else {
      LookupConcat(a[1..], b, q);
      assert (a + b)[1..] == a[1..] + b;
    }
  }

  /** The filter callback of `setContent`: keep the entries at other positions. */
  function NotAt(p: FretboardPosition): Entry -> bool {
    (e: Entry) => !Equal(e.position, p)
  }

  /** After removing the entries at `p`, nothing is found at `p` and everything else is
      found as before. */
  lemma {:induction false} LookupWithout(data: seq<Entry>, p: FretboardPosition, q: FretboardPosition)
    ensures Lookup(Filter(data, NotAt(p)), q) == if q == p then None else Lookup(data, q)
  {
    if data != [] {
      var init, last := data[..|data| - 1], data[|data| - 1];
      LookupWithout(init, p, q);
      assert data == init + [last];
      LookupConcat(init, [last], q);
      var tail := if NotAt(p)(last) then [last] else [];
      LookupConcat(Filter(init, NotAt(p)), tail, q);
    }
  }

  /** `setContent(p, c)`: the entries at `p` are filtered out and (p, c) is pushed. */
  function SetEntry(data: seq<Entry>, p: FretboardPosition, c: FretboardContent): seq<Entry> {
    Filter(data, NotAt(p)) + [Entry(p, c)]
  }

  /** After `setContent(p, c)`, `getContent(p)` is `c` and every other position reads as
      before. */
  lemma SetEntryLookup(data: seq<Entry>, p: FretboardPosition, c: FretboardContent, q: FretboardPosition)
    ensures Lookup(SetEntry(data, p, c), q) == if q == p then Some(c) else Lookup(data, q)
  {
    LookupConcat(Filter(data, NotAt(p)), [Entry(p, c)], q);
    LookupWithout(data, p, q);
  }

  /** `setContent` keeps at most one entry per position. */
  lemma SetEntryDistinct(data: seq<Entry>, p: FretboardPosition, c: FretboardContent)
    requires DistinctBy(data, EntryPosition)
    ensures DistinctBy(SetEntry(data, p, c), EntryPosition)
  {
    var f := Filter(data, NotAt(p));
    FilterDistinctBy(data, NotAt(p), EntryPosition);
    forall i | 0 <= i < |f| ensures f[i].position != p {
      FilterMembership(data, NotAt(p), f[i]);
    }
  }

  // ------------------------------------------------------------------ clip

  /** The `clip` callback: an open-string entry survives exactly when open strings are
      shown, any other entry exactly when its fret lies in first..last. */
  predicate Kept(fret: int, first: int, last: int, open: bool) {
    if fret == 0 then open else first <= fret && fret <= last
  }

  function ClipKeeps(first: int, last: int, open: bool): Entry -> bool {
    (e: Entry) => Kept(e.position.fret, first, last, open)
  }

  /** `clip` keeps exactly the entries its callback accepts, adds none, keeps their order
      (it works piece by piece), leaves nothing more to remove, and keeps positions
      distinct. */
  lemma ClipProperties(data: seq<Entry>, first: int, last: int, open: bool, a: seq<Entry>, b: seq<Entry>)
    ensures forall e :: e in Filter(data, ClipKeeps(first, last, open)) <==>
      e in data && Kept(e.position.fret, first, last, open)
    ensures |Filter(data, ClipKeeps(first, last, open))| <= |data|
    ensures Filter(Filter(data, ClipKeeps(first, last, open)), ClipKeeps(first, last, open)) ==
      Filter(data, ClipKeeps(first, last, open))
    ensures Filter(a + b, ClipKeeps(first, last, open)) ==
      Filter(a, ClipKeeps(first, last, open)) + Filter(b, ClipKeeps(first, last, open))
    ensures DistinctBy(data, EntryPosition) ==> DistinctBy(Filter(data, ClipKeeps(first, last, open)), EntryPosition)
  {
    FilterMembershipAll(data, ClipKeeps(first, last, open));
    FilterShrinksAndSettles(data, ClipKeeps(first, last, open));
    FilterConcat(a, b, ClipKeeps(first, last, open));
    if DistinctBy(data, EntryPosition) {
      FilterDistinctBy(data, ClipKeeps(first, last, open), EntryPosition);
    }
  }

  // ------------------------------------------------------ the setScale walk

  /** The table after one step of the walk: the content, if any, entered at the position. */
  function Apply(data: seq<Entry>, p: FretboardPosition, o: Option<FretboardContent>): seq<Entry> {
    if o.Some? then SetEntry(data, p, o.value) else data
  }

  /** How a walk ends: every position was visited, or a step threw part of the way through,
      leaving the entries made so far. */
  datatype Outcome = Filled(data: seq<Entry>) | Aborted(data: seq<Entry>, error: Error)

  /** A walk over positions in order; step i either throws or says what to enter at
      position i. */
  function Fill(data: seq<Entry>, ps: seq<FretboardPosition>, steps: seq<Result<Option<FretboardContent>>>): Outcome
    requires |ps| == |steps|
    decreases |ps|
  {
    if ps == [] then Filled(data)
    else if steps[0].Err? then Aborted(data, steps[0].error)
    else Fill(Apply(data, ps[0], steps[0].value), ps[1..], steps[1..])
  }

  /** The walk from position i on: step i throws, or its content is entered and the walk
      goes on from position i + 1. */
  lemma FillAt(data: seq<Entry>, ps: seq<FretboardPosition>, steps: seq<Result<Option<FretboardContent>>>, i: int)
    requires |ps| == |steps| && 0 <= i < |ps|
    ensures steps[i].Err? ==> Fill(data, ps[i..], steps[i..]) == Aborted(data, steps[i].error)
    ensures steps[i].Ok? ==>
      Fill(data, ps[i..], steps[i..]) == Fill(Apply(data, ps[i], steps[i].value), ps[i + 1..], steps[i + 1..])
  {
    assert ps[i..][1..] == ps[i + 1..] && steps[i..][1..] == steps[i + 1..];
  }

  /** The walk gets through exactly when no step throws; otherwise it stops at the first
      step that does, with that step's error. */
  lemma {:induction false} FillFilledIff(data: seq<Entry>, ps: seq<FretboardPosition>, steps: seq<Result<Option<FretboardContent>>>)
    requires |ps| == |steps|
    ensures Fill(data, ps, steps).Filled? <==> forall i :: 0 <= i < |steps| ==> steps[i].Ok?
    ensures Fill(data, ps, steps).Aborted? ==>
      (FirstFailure(steps) >= 0 && Fill(data, ps, steps).error == steps[FirstFailure(steps)].error)
    decreases |ps|
  {
    if ps != [] && steps[0].Ok? {
      FillFilledIff(Apply(data, ps[0], steps[0].value), ps[1..], steps[1..]);
      assert forall i :: 1 <= i < |steps| ==> steps[i] == steps[1..][i - 1];
    }
  }

  /** Steps at equal positions say the same. */
  predicate Agree(ps: seq<FretboardPosition>, steps: seq<Result<Option<FretboardContent>>>)
    requires |ps| == |steps|
  {
    forall i, j :: 0 <= i < |ps| && 0 <= j < |ps| && ps[i] == ps[j] ==> steps[i] == steps[j]
  }

  /** When the walk gets through, a listed position whose step enters something holds it. */
  lemma {:induction false} FillLookupAt(data: seq<Entry>, ps: seq<FretboardPosition>, steps: seq<Result<Option<FretboardContent>>>, k: int)
    requires |ps| == |steps| && Agree(ps, steps) && 0 <= k < |ps|
    requires Fill(data, ps, steps).Filled? && steps[k].Ok? && steps[k].value.Some?
    ensures Lookup(Fill(data, ps, steps).data, ps[k]) == steps[k].value
    decreases |ps|
  {
    var next := Apply(data, ps[0], steps[0].value);
    assert Agree(ps[1..], steps[1..]);
    if exists j :: 1 <= j < |ps| && ps[j] == ps[k] {
      var j :| 1 <= j < |ps| && ps[j] == ps[k];
      FillLookupAt(next, ps[1..], steps[1..], j - 1);
    } else {
      assert k == 0;
      FillLookupElsewhere(next, ps[1..], steps[1..], ps[k]);
      SetEntryLookup(data, ps[0], steps[0].value.value, ps[k]);
    }
  }

  /** When the walk gets through, a position where no step enters anything reads as
      before. */
  lemma {:induction false} FillLookupElsewhere(data: seq<Entry>, ps: seq<FretboardPosition>, steps: seq<Result<Option<FretboardContent>>>, q: FretboardPosition)
    requires |ps| == |steps| && Fill(data, ps, steps).Filled?
    requires forall i :: 0 <= i < |ps| && ps[i] == q ==> steps[i].Ok? && steps[i].value.None?
    ensures Lookup(Fill(data, ps, steps).data, q) == Lookup(data, q)
    decreases |ps|
  {
    if ps != [] {
      var next := Apply(data, ps[0], steps[0].value);
      assert forall i :: 1 <= i < |ps| ==> ps[i] == ps[1..][i - 1] && steps[i] == steps[1..][i - 1];
      FillLookupElsewhere(next, ps[1..], steps[1..], q);
      if steps[0].value.Some? {
        SetEntryLookup(data, ps[0], steps[0].value.value, q);
      }
    }
  }

  /** When the walk gets through, every listed position's step succeeded; the position
      holds what its step entered, or reads as before when the step entered nothing. */
  lemma FillLookupOn(data: seq<Entry>, ps: seq<FretboardPosition>, steps: seq<Result<Option<FretboardContent>>>, k: int)
    requires |ps| == |steps| && Agree(ps, steps) && 0 <= k < |ps| && Fill(data, ps, steps).Filled?
    ensures steps[k].Ok?
    ensures steps[k].value.Some? ==> Lookup(Fill(data, ps, steps).data, ps[k]) == steps[k].value
    ensures steps[k].value.None? ==> Lookup(Fill(data, ps, steps).data, ps[k]) == Lookup(data, ps[k])
  {
    FillFilledIff(data, ps, steps);
    if steps[k].value.Some? {
      FillLookupAt(data, ps, steps, k);
    } else {
      FillLookupElsewhere(data, ps, steps, ps[k]);
    }
  }

  /** A position the walk does not list reads as before. */
  lemma FillLookupAbsent(data: seq<Entry>, ps: seq<FretboardPosition>, steps: seq<Result<Option<FretboardContent>>>, q: FretboardPosition)
    requires |ps| == |steps| && Fill(data, ps, steps).Filled? && q !in ps
    ensures Lookup(Fill(data, ps, steps).data, q) == Lookup(data, q)
  {
    FillLookupElsewhere(data, ps, steps, q);
  }

  /** The walk keeps at most one entry per position, whether it gets through or not. */
  lemma {:induction false} FillDistinct(data: seq<Entry>, ps: seq<FretboardPosition>, steps: seq<Result<Option<FretboardContent>>>)
    requires |ps| == |steps| && DistinctBy(data, EntryPosition)
    ensures DistinctBy(Fill(data, ps, steps).data, EntryPosition)
    decreases |ps|
  {
    if ps != [] && steps[0].Ok? {
      if steps[0].value.Some? {
        SetEntryDistinct(data, ps[0], steps[0].value.value);
      }
      FillDistinct(Apply(data, ps[0], steps[0].value), ps[1..], steps[1..]);
    }
  }

  // -------------------------------------------------------------- setScale

  /** `getNote`: the open-string note raised by the fret, reduced with JavaScript's `% 12`,
      spelled by the scale. */
  function NoteAt(tuning: Tuning, scale: Scale, p: FretboardPosition): (r: Result<PitchNote>)
    requires scale.Keyed() && TuningWellFormed(tuning) && 0 <= p.stringIndex < |tuning.notes|
    ensures r.Ok? ==> r.value.WellFormed()
    ensures r.Ok? ==> OctaveApart(r.value.Value(), JsRem12(tuning.notes[p.stringIndex].Value() + p.fret))
    ensures 0 <= scale.root.Value() < 12 && tuning.notes[p.stringIndex].Value() + p.fret >= -1 ==> r.Ok?
  {
    JsRem12AtLeastMinusOne(tuning.notes[p.stringIndex].Value() + p.fret);
    scale.NoteFromValue(JsRem12(tuning.notes[p.stringIndex].Value() + p.fret))
  }

  lemma JsRem12AtLeastMinusOne(a: int)
    ensures a >= -1 ==> -1 <= JsRem12(a) < 12
  {
  }

  /** One step of `setScale` at a position: `getNote` throws, or the note is entered with
      its degree when the scale contains it, or nothing is entered. */
  function ScaleStep(tuning: Tuning, scale: Scale, p: FretboardPosition): (r: Result<Option<FretboardContent>>)
    requires scale.Valid() && TuningWellFormed(tuning) && 0 <= p.stringIndex < |tuning.notes|
    ensures r.Err? <==> NoteAt(tuning, scale, p).Err?
    ensures r.Err? ==> r.error == NoteAt(tuning, scale, p).error
    ensures r.Ok? ==> (r.value.Some? <==> scale.ContainsNote(NoteAt(tuning, scale, p).value))
    ensures r.Ok? && r.value.Some? ==> r.value.value.note == NoteAt(tuning, scale, p).value
    ensures r.Ok? && r.value.Some? ==> r.value.value.degree.Valid()
    ensures r.Ok? && r.value.Some? && (forall i :: 0 <= i < |scale.degrees| ==> 0 <= scale.degrees[i].Value() < 12) ==>
      r.value.value.degree in scale.degrees
  {
    if NoteAt(tuning, scale, p).Err? then Err(NoteAt(tuning, scale, p).error)
    else if !scale.ContainsNote(NoteAt(tuning, scale, p).value) then Ok(None)
    else
      DegreeOfNoteAt(tuning, scale, p);
      Ok(Some(FretboardContent(NoteAt(tuning, scale, p).value, scale.DegreeFromNote(NoteAt(tuning, scale, p).value).value)))
  }

  lemma DegreeOfNoteAt(tuning: Tuning, scale: Scale, p: FretboardPosition)
    requires scale.Valid() && TuningWellFormed(tuning) && 0 <= p.stringIndex < |tuning.notes|
    requires NoteAt(tuning, scale, p).Ok? && scale.ContainsNote(NoteAt(tuning, scale, p).value)
    ensures (forall i :: 0 <= i < |scale.degrees| ==> 0 <= scale.degrees[i].Value() < 12) ==>
      scale.DegreeFromNote(NoteAt(tuning, scale, p).value).value in scale.degrees
  {
    if forall i :: 0 <= i < |scale.degrees| ==> 0 <= scale.degrees[i].Value() < 12 {
      DegreeOfContainedNote(scale, NoteAt(tuning, scale, p).value);
    }
  }

  /** The step of a note that was spelled: the note and its degree when the scale
      contains it. */
  lemma ScaleStepOfNote(tuning: Tuning, scale: Scale, p: FretboardPosition, n: PitchNote)
    requires scale.Valid() && TuningWellFormed(tuning) && 0 <= p.stringIndex < |tuning.notes|
    requires NoteAt(tuning, scale, p) == Ok(n)
    ensures ScaleStep(tuning, scale, p) ==
      Ok(if scale.ContainsNote(n) then Some(FretboardContent(n, scale.DegreeFromNote(n).value)) else None)
  {
  }

  /** Every position lies on a string of the tuning. */
  predicate OnTuning(ps: seq<FretboardPosition>, tuning: Tuning) {
    forall i :: 0 <= i < |ps| ==> 0 <= ps[i].stringIndex < |tuning.notes|
  }

  /** A step depends on the position only. */
  lemma ScaleStepsAgree(tuning: Tuning, scale: Scale, ps: seq<FretboardPosition>)
    requires scale.Valid() && TuningWellFormed(tuning) && OnTuning(ps, tuning)
    ensures Agree(ps, ScaleSteps(tuning, scale, ps))
  {
  }

  /** The steps of `setScale` at a list of positions. */
  function ScaleSteps(tuning: Tuning, scale: Scale, ps: seq<FretboardPosition>): (r: seq<Result<Option<FretboardContent>>>)
    requires scale.Valid() && TuningWellFormed(tuning) && OnTuning(ps, tuning)
    ensures |r| == |ps| && forall i :: 0 <= i < |ps| ==> r[i] == ScaleStep(tuning, scale, ps[i])
  {
    seq(|ps|, i requires 0 <= i < |ps| => ScaleStep(tuning, scale, ps[i]))
  }

  /** The table of a fretboard: the tuning never changes, the entries do. */
  class FretboardData {
    var data: seq<Entry>
    const tuning: Tuning

    /** The open-string notes are well formed and no two entries share a position. */
    predicate Valid()
      reads this
    {
      TuningWellFormed(tuning) && DistinctBy(data, EntryPosition)
    }

    /** An empty table over the tuning. */
    constructor(tuning: Tuning)
      requires TuningWellFormed(tuning)
      ensures Valid() && this.tuning == tuning && data == []
    {
      this.tuning := tuning;
      data := [];
    }

    /** `getStringCount`: the number of notes in the tuning. */
    function StringCount(): nat {
      |tuning.notes|
    }

    /** `getAllPositions`: string by string, frets 0 to 24. */
    method GetAllPositions() returns (ps: seq<FretboardPosition>)
      ensures ps == AllPositions(StringCount())
    {
      ps := [];
      var s: nat := 0;
      while s < StringCount()
        invariant s <= StringCount()
        invariant ps == AllPositions(s)
      {
        var f := 0;
        while f <= FretCount
          invariant 0 <= f <= FretCount + 1
          invariant ps == AllPositions(s) + StringPositions(s)[..f]
        {
          assert StringPositions(s)[..f + 1] == StringPositions(s)[..f] + [FretboardPosition(s, f)];
          ps := ps + [FretboardPosition(s, f)];
          f := f + 1;
        }
        assert StringPositions(s)[..f] == StringPositions(s);
        s := s + 1;
      }
    }

    /** `getContent`: scans the entries in order and returns the first match. */
    method GetContent(p: FretboardPosition) returns (r: Option<FretboardContent>)
      ensures r == Lookup(data, p)
    {
      var i := 0;
      while i < |data|
        invariant 0 <= i <= |data|
        invariant Lookup(data[i..], p) == Lookup(data, p)
      {
        assert data[i..][1..] == data[i + 1..];
        if Equal(data[i].position, p) {
          return Some(data[i].content);
        }
        i := i + 1;
      }
      return None;
    }

    /** `setContent`: the entries at `p` are filtered out and (p, c) is appended. */
    method SetContent(p: FretboardPosition, c: FretboardContent)
      requires Valid()
      modifies this
      ensures Valid()
      ensures data == SetEntry(old(data), p, c)
    {
      SetEntryDistinct(data, p, c);
      data := Filter(data, NotAt(p)) + [Entry(p, c)];
    }

    /** `clip`: the entries are replaced by those the callback keeps. */
    method Clip(first: int, last: int, open: bool)
      requires Valid()
      modifies this
      ensures Valid()
      ensures data == Filter(old(data), ClipKeeps(first, last, open))
    {
      FilterDistinctBy(data, ClipKeeps(first, last, open), EntryPosition);
      data := Filter(data, ClipKeeps(first, last, open));
    }

    /** `setScale`: for every position in order, the note is spelled and, when the scale
        contains it, entered with its degree. A spelling that throws ends the walk with
        the entries made so far; the error is returned. */
    method SetScale(scale: Scale) returns (failure: Option<Error>)
      requires Valid() && scale.Valid()
      modifies this
      ensures Valid()
      ensures Fill(old(data), AllPositions(StringCount()), ScaleSteps(tuning, scale, AllPositions(StringCount()))) ==
        if failure.None? then Filled(data) else Aborted(data, failure.value)
    {
      var positions := GetAllPositions();
      ghost var steps := ScaleSteps(tuning, scale, positions);
      var i := 0;
      while i < |positions|
        invariant 0 <= i <= |positions|
        invariant Valid()
        invariant Fill(data, positions[i..], steps[i..]) == Fill(old(data), positions, steps)
      {
        FillAt(data, positions, steps, i);
        var note := NoteAt(tuning, scale, positions[i]);
        if note.Err? {
          return Some(note.error);
        }
        ScaleStepOfNote(tuning, scale, positions[i], note.value);
        if scale.ContainsNote(note.value) {
          SetContent(positions[i], FretboardContent(note.value, scale.DegreeFromNote(note.value).value));
        }
        i := i + 1;
      }
      return None;
    }
  }

  /** Position 25 * s + f of the list is fret f of string s. */
  lemma AllPositionsIndex(k: nat, p: FretboardPosition)
    requires 0 <= p.stringIndex < k && 0 <= p.fret <= FretCount
    ensures 25 * p.stringIndex + p.fret < |AllPositions(k)|
    ensures AllPositions(k)[25 * p.stringIndex + p.fret] == p
  {
    AllPositionsShape(k);
    var i := 25 * p.stringIndex + p.fret;
    assert i / 25 == p.stringIndex && i % 25 == p.fret;
  }

  /** `setScale` on a whole fretboard: when it gets through, every position of the
      tuning (frets 0..24) whose note the scale contains holds that note and its degree,
      and every other position reads as before. */
  lemma SetScaleContents(data: seq<Entry>, tuning: Tuning, scale: Scale, q: FretboardPosition)
    requires scale.Valid() && TuningWellFormed(tuning)
    requires Fill(data, AllPositions(|tuning.notes|), ScaleSteps(tuning, scale, AllPositions(|tuning.notes|))).Filled?
    ensures 0 <= q.stringIndex < |tuning.notes| && 0 <= q.fret <= FretCount ==>
      ScaleStep(tuning, scale, q).Ok?
    ensures 0 <= q.stringIndex < |tuning.notes| && 0 <= q.fret <= FretCount && ScaleStep(tuning, scale, q).value.Some? ==>
      Lookup(Fill(data, AllPositions(|tuning.notes|), ScaleSteps(tuning, scale, AllPositions(|tuning.notes|))).data, q) ==
      ScaleStep(tuning, scale, q).value
    ensures !(0 <= q.stringIndex < |tuning.notes| && 0 <= q.fret <= FretCount && ScaleStep(tuning, scale, q).value.Some?) ==>
      Lookup(Fill(data, AllPositions(|tuning.notes|), ScaleSteps(tuning, scale, AllPositions(|tuning.notes|))).data, q) ==
      Lookup(data, q)
  {
    var ps := AllPositions(|tuning.notes|);
    var steps := ScaleSteps(tuning, scale, ps);
    ScaleStepsAgree(tuning, scale, ps);
    if 0 <= q.stringIndex < |tuning.notes| && 0 <= q.fret <= FretCount {
      AllPositionsIndex(|tuning.notes|, q);
      var k := 25 * q.stringIndex + q.fret;
      assert steps[k] == ScaleStep(tuning, scale, q);
      FillLookupOn(data, ps, steps, k);
    } else {
      AllPositionsMembership(|tuning.notes|, q);
      FillLookupAbsent(data, ps, steps, q);
    }
  }

  /** `setScale` cannot throw when the root lies in 0..11 and no open string lies below
      the B under C (value -1): every position's value then wraps into -1..11. */
  lemma SetScaleSucceeds(data: seq<Entry>, tuning: Tuning, scale: Scale)
    requires scale.Valid() && TuningWellFormed(tuning)
    requires 0 <= scale.root.Value() < 12
    requires forall i :: 0 <= i < |tuning.notes| ==> tuning.notes[i].Value() >= -1
    ensures Fill(data, AllPositions(|tuning.notes|), ScaleSteps(tuning, scale, AllPositions(|tuning.notes|))).Filled?
  {
    var ps := AllPositions(|tuning.notes|);
    var steps := ScaleSteps(tuning, scale, ps);
    forall i | 0 <= i < |steps| ensures steps[i].Ok? {
      AllPositionsMembership(|tuning.notes|, ps[i]);
    }
    FillFilledIff(data, ps, steps);
  }
}
