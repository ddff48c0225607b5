/** The row mapping of `notapy/converter.py`: a flattened score to CSV rows
    (`midi_to_csv`) and CSV rows to a music21 stream (`csv_to_midi`).
    A row keeps `start_time` and `duration` as integer thousandths of a quarter note,
    which is what `round(x, 3)` leaves of a time. */
module Codec {
  import opened Wrappers
  import opened Seqs
  import opened Music

  /** The tempo assumed for a score without metronome marks. */
  const DefaultTempo: real := 120.0

  /** One CSV row: `note_name`, `start_time`, `duration`, `velocity`, `tempo`. */
  datatype Row = Row(noteName: string, startTime: int, duration: int, velocity: Option<int>, tempo: real)

  /** `round(x, 3)` expressed in thousandths: the nearest integer to 1000 * x,
      the even one of the two on a tie (Python rounds half to even). */
  function RoundMillis(x: real): (m: int)
    ensures -0.5 <= 1000.0 * x - m as real <= 0.5
    ensures (1000.0 * x - m as real == 0.5 || 1000.0 * x - m as real == -0.5) ==> m % 2 == 0
  {
    var y := 1000.0 * x;
    var f := y.Floor;
    if y - f as real < 0.5 then f
    else if y - f as real > 0.5 then f + 1
    else if f % 2 == 0 then f
    else f + 1
  }

  /** A time that is already a whole number of thousandths is rounded to itself. */
  lemma RoundMillisExact(m: int)
    ensures RoundMillis(m as real / 1000.0) == m
  {
    var r := RoundMillis(m as real / 1000.0);
    assert 1000.0 * (m as real / 1000.0) == m as real;
  }

  /** Whether the first entry of `metronomeMarkBoundaries()` is music21's default mark:
      the score has no mark, or an element starts before its first mark. */
  predicate OpensWithoutMark(s: Score) {
    s.marks == [] || exists i :: 0 <= i < |s.elements| && s.elements[i].offset < s.marks[0].offset
  }

  /** The one tempo that every row of a score carries: the number of the first
      boundary's mark, which is the default 120 when `OpensWithoutMark` holds. */
  function NoteTempo(s: Score): real {
    if OpensWithoutMark(s) then DefaultTempo else s.marks[0].number
  }

  /** `element.isNote`: the element is a single note, not a chord or an unpitched event. */
  predicate IsNote(e: Element) { e.kind == SingleNote }

  /** Membership in `.notes`: everything but rests. */
  predicate IsNotRest(e: Element) { e.kind != Rest }

  /** `stream.recurse().notes` of a flat score. */
  function NotesOf(es: seq<Element>): seq<Element> { Filter(es, IsNotRest) }

  /** The row dictionary built for one note. */
  function RowOf(e: Element, tempo: real): Row {
    Row(e.name, RoundMillis(e.offset), RoundMillis(e.quarterLength), e.velocity, tempo)
  }

  /** The table after the loop has visited `notes`: each visited single note added one
      row at the end. */
  function EncodeRows(notes: seq<Element>, tempo: real): seq<Row> {
    if notes == [] then []
    else
      var e := notes[|notes| - 1];
      EncodeRows(notes[..|notes| - 1], tempo) + (if IsNote(e) then [RowOf(e, tempo)] else [])
  }

  /** The table `midi_to_csv` writes for a decoded score. */
  function Encode(s: Score): seq<Row> {
    EncodeRows(NotesOf(s.elements), NoteTempo(s))
  }

  /** `midi_to_csv` from the decoded score on: the tempo once, then one pass over
      `.notes`, adding a row for each single note at the end of the table. */
  method MidiToCsv(score: Score) returns (table: seq<Row>)
    ensures table == Encode(score)
  {
    var tempo := NoteTempo(score);
    var notes := NotesOf(score.elements);
    table := [];
    var i := 0;
    while i < |notes|
      invariant 0 <= i <= |notes|
      invariant table == EncodeRows(notes[..i], tempo)
    {
      var e := notes[i];
      if e.kind == SingleNote {
        var row := Row(e.name, RoundMillis(e.offset), RoundMillis(e.quarterLength), e.velocity, tempo);
        table := table + [row];
      }
      assert notes[..i + 1][..i] == notes[..i];
      i := i + 1;
    }
    assert notes[..i] == notes;
  }

  /** The loop's table is the rows of the visited single notes, in visiting order. */
  lemma {:induction false} EncodeRowsAreSelection(notes: seq<Element>, tempo: real)
    ensures |EncodeRows(notes, tempo)| == |Filter(notes, IsNote)|
    ensures forall i :: 0 <= i < |Filter(notes, IsNote)| ==>
              EncodeRows(notes, tempo)[i] == RowOf(Filter(notes, IsNote)[i], tempo)
    decreases |notes|
  {
    if notes != [] {
      EncodeRowsAreSelection(notes[..|notes| - 1], tempo);
    }
  }

  /** Exactly the single notes of the score give rows, one each and in traversal order;
      chords, unpitched events and rests give none. Each row copies the note's name and
      velocity, holds its offset and length rounded to thousandths, and the score's tempo. */
  lemma EncodeSingleNotes(s: Score)
    ensures var kept := Filter(s.elements, IsNote);
      && |Encode(s)| == |kept|
      && forall i :: 0 <= i < |kept| ==> Encode(s)[i] == RowOf(kept[i], NoteTempo(s))
  {
    FilterFilter(s.elements, IsNotRest, IsNote);
    EncodeRowsAreSelection(NotesOf(s.elements), NoteTempo(s));
  }

  /** Every row of a table carries the same tempo: the first mark's number when no element
      starts before that mark, and 120 otherwise (no mark at all, or a first mark that
      comes after the first element). */
  lemma EncodeTempoUniform(s: Score)
    ensures forall i :: 0 <= i < |Encode(s)| ==>
              Encode(s)[i].tempo ==
                (if s.marks != [] && forall j :: 0 <= j < |s.elements| ==> s.marks[0].offset <= s.elements[j].offset
                 then s.marks[0].number else DefaultTempo)
  {
    EncodeRowsAreSelection(NotesOf(s.elements), NoteTempo(s));
  }

  /** A score whose one note starts at 0 and whose only mark, 90, is at offset 4 is
      written with the default tempo 120, not 90. */
  lemma LateMarkGivesDefaultTempo()
    ensures Encode(Score([Mark(4.0, 90.0)], [Element(SingleNote, "C4", 0.0, 1.0, None)]))
         == [Row("C4", 0, 1000, None, DefaultTempo)]
  {
    var s := Score([Mark(4.0, 90.0)], [Element(SingleNote, "C4", 0.0, 1.0, None)]);
    assert OpensWithoutMark(s) by {
      assert s.elements[0].offset < s.marks[0].offset;
    }
    assert RoundMillis(0.0) == 0;
    assert RoundMillis(1.0) == 1000;
    assert NotesOf(s.elements) == s.elements by {
      assert s.elements[..0] == [];
    }
    assert s.elements[..0] == [];
  }

  /** The table grows only at its end: with the tempo fixed before the loop, elements
      traversed later never change the rows of elements traversed earlier. */
  lemma EncodeAppend(a: seq<Element>, b: seq<Element>, tempo: real)
    ensures EncodeRows(NotesOf(a + b), tempo) == EncodeRows(NotesOf(a), tempo) + EncodeRows(NotesOf(b), tempo)
  {
    FilterConcat(a, b, IsNotRest);
    EncodeRowsConcat(NotesOf(a), NotesOf(b), tempo);
  }

  lemma {:induction false} EncodeRowsConcat(a: seq<Element>, b: seq<Element>, tempo: real)
    ensures EncodeRows(a + b, tempo) == EncodeRows(a, tempo) + EncodeRows(b, tempo)
    decreases |b|
  {
    if b == [] {
      assert a + b == a;
    } else {
      assert (a + b)[..|a + b| - 1] == a + b[..|b| - 1];
      EncodeRowsConcat(a, b[..|b| - 1], tempo);
    }
  }

  /** The single note at traversal position i has its row at the position given by the
      number of single notes before it. */
  lemma EncodeRowOf(s: Score, i: int)
    requires 0 <= i < |s.elements| && IsNote(s.elements[i])
    ensures |Filter(s.elements[..i], IsNote)| < |Encode(s)|
    ensures Encode(s)[|Filter(s.elements[..i], IsNote)|] == RowOf(s.elements[i], NoteTempo(s))
  {
    FilterAt(s.elements, i, IsNote);
    EncodeSingleNotes(s);
  }

  /** The stream entry `csv_to_midi` builds for a row: a Note with the row's name,
      duration and velocity, at the row's start time. */
  function NotePlacement(r: Row): Placed {
    Placed(r.startTime as real / 1000.0, Note(r.noteName, r.duration as real / 1000.0, r.velocity))
  }

  function NotePlacements(t: seq<Row>): (ps: seq<Placed>)
    ensures |ps| == |t|
    ensures forall i :: 0 <= i < |t| ==> ps[i] == NotePlacement(t[i])
  {
    if t == [] then [] else NotePlacements(t[..|t| - 1]) + [NotePlacement(t[|t| - 1])]
  }

  /** The metronome mark appended to the empty stream when the table is not empty. */
  function TempoEntries(t: seq<Row>): seq<Placed> {
    if t == [] then [] else [Placed(0.0, MetronomeMark(t[0].tempo))]
  }

  /** The entries after inserting the notes of `t`, in row order, into `start`. */
  function InsertRows(start: seq<Placed>, t: seq<Row>): seq<Placed> {
    if t == [] then start
    else InsertByOffset(InsertRows(start, t[..|t| - 1]), NotePlacement(t[|t| - 1]))
  }

  /** The stream `csv_to_midi` builds from a table. */
  function Decode(t: seq<Row>): seq<Placed> {
    InsertRows(TempoEntries(t), t)
  }

  /** `csv_to_midi` up to writing the file: a tempo mark from the first row, if any,
      then one Note per row inserted at its own offset. */
  method CsvToMidi(table: seq<Row>) returns (stream: MusicStream)
    ensures fresh(stream) && stream.Valid()
    ensures stream.entries == Decode(table)
  {
    stream := new MusicStream();
    if table != [] {
      var desired := table[0].tempo;
      stream.Append(MetronomeMark(desired));
      AppendToEmpty(MetronomeMark(desired));
    }
    var i := 0;
    while i < |table|
      invariant 0 <= i <= |table|
      invariant stream.Valid()
      invariant stream.entries == InsertRows(TempoEntries(table), table[..i])
    {
      stream.Insert(NotePlacement(table[i]));
      InsertRowsStep(TempoEntries(table), table, i);
      i := i + 1;
    }
    assert table[..i] == table;
  }

  lemma InsertRowsStep(start: seq<Placed>, t: seq<Row>, i: int)
    requires 0 <= i < |t|
    ensures InsertRows(start, t[..i + 1]) == InsertByOffset(InsertRows(start, t[..i]), NotePlacement(t[i]))
  {
    assert t[..i + 1][..i] == t[..i];
  }

  lemma {:induction false} InsertRowsContents(start: seq<Placed>, t: seq<Row>)
    ensures |InsertRows(start, t)| == |start| + |t|
    ensures multiset(InsertRows(start, t)) == multiset(start) + multiset(NotePlacements(t))
    ensures SortedByOffset(start) ==> SortedByOffset(InsertRows(start, t))
    decreases |t|
  {
    if t != [] {
      InsertRowsContents(start, t[..|t| - 1]);
      assert NotePlacements(t) == NotePlacements(t[..|t| - 1]) + [NotePlacement(t[|t| - 1])];
    }
  }

  /** The decoded stream holds exactly one Note per row, built from that row and placed
      by its offset (the stream is ordered by offset whatever the row order), and besides
      them at most the one tempo mark. */
  lemma DecodeContents(t: seq<Row>)
    ensures |Decode(t)| == |t| + |TempoEntries(t)|
    ensures multiset(Decode(t)) == multiset(TempoEntries(t)) + multiset(NotePlacements(t))
    ensures SortedByOffset(Decode(t))
  {
    InsertRowsContents(TempoEntries(t), t);
  }

  /** A tempo mark is in the decoded stream exactly when the table has a row; it is at
      offset 0 and its number is the first row's tempo. */
  lemma DecodeTempoMark(t: seq<Row>)
    ensures (exists i :: 0 <= i < |Decode(t)| && Decode(t)[i].item.MetronomeMark?) <==> t != []
    ensures forall i :: 0 <= i < |Decode(t)| && Decode(t)[i].item.MetronomeMark? ==>
              Decode(t)[i] == Placed(0.0, MetronomeMark(t[0].tempo))
  {
    var d := Decode(t);
    forall i | 0 <= i < |d| && d[i].item.MetronomeMark?
      ensures t != [] && d[i] == Placed(0.0, MetronomeMark(t[0].tempo))
    {
      DecodedMark(t, d[i]);
    }
    if t != [] {
      DecodeContents(t);
      var mark := Placed(0.0, MetronomeMark(t[0].tempo));
      assert mark in multiset(d);
      var i :| 0 <= i < |d| && d[i] == mark;
    }
  }

  /** An entry of the decoded stream that is a metronome mark is the first row's tempo. */
  lemma DecodedMark(t: seq<Row>, p: Placed)
    requires p in Decode(t) && p.item.MetronomeMark?
    ensures t != [] && p == Placed(0.0, MetronomeMark(t[0].tempo))
  {
    DecodeContents(t);
    assert p in multiset(Decode(t));
    NotePlacementsAreNotes(t, p);
  }

  lemma NotePlacementsAreNotes(t: seq<Row>, p: Placed)
    ensures p in multiset(NotePlacements(t)) ==> p.item.Note?
  {
    if p in multiset(NotePlacements(t)) {
      assert p in NotePlacements(t);
    }
  }

  /** Only the first row's tempo matters: tables that differ only in the tempo of later
      rows decode to the same stream. */
  lemma DecodeIgnoresLaterTempos(t: seq<Row>, u: seq<Row>)
    requires |t| == |u|
    requires forall i :: 0 <= i < |t| ==> t[i].(tempo := 0.0) == u[i].(tempo := 0.0)
    requires t != [] ==> t[0].tempo == u[0].tempo
    ensures Decode(t) == Decode(u)
  {
    InsertRowsAgree(TempoEntries(t), t, u);
  }

  lemma {:induction false} InsertRowsAgree(start: seq<Placed>, t: seq<Row>, u: seq<Row>)
    requires |t| == |u|
    requires forall i :: 0 <= i < |t| ==> t[i].(tempo := 0.0) == u[i].(tempo := 0.0)
    ensures InsertRows(start, t) == InsertRows(start, u)
    decreases |t|
  {
    if t != [] {
      var n := |t| - 1;
      assert NotePlacement(t[n]) == NotePlacement(u[n]) by {
        assert t[n].(tempo := 0.0) == u[n].(tempo := 0.0);
      }
      InsertRowsAgree(start, t[..n], u[..n]);
    }
  }

  /** Decoding a row of an encoded note gives back the note's name and velocity, and its
      offset and length to within half a thousandth of a quarter note (exactly, for times
      that were whole thousandths already, by `RoundMillisExact`). */
  lemma NoteRoundTrip(e: Element, tempo: real)
    ensures var p := NotePlacement(RowOf(e, tempo));
      && p.item == Note(e.name, p.item.quarterLength, e.velocity)
      && -0.0005 <= p.offset - e.offset <= 0.0005
      && -0.0005 <= p.item.quarterLength - e.quarterLength <= 0.0005
  {
    var m, q := RoundMillis(e.offset), RoundMillis(e.quarterLength);
    assert -0.5 <= 1000.0 * e.offset - m as real <= 0.5;
    assert -0.5 <= 1000.0 * e.quarterLength - q as real <= 0.5;
  }

  /** Encoding then decoding a score gives a stream with one Note per single note of the
      score, each rebuilt from that note's row, and the score's tempo as its one mark
      unless the score has no single note. */
  lemma DecodeEncode(s: Score)
    ensures var kept := Filter(s.elements, IsNote);
      && multiset(Decode(Encode(s))) ==
           multiset(if kept == [] then [] else [Placed(0.0, MetronomeMark(NoteTempo(s)))])
           + multiset(seq(|kept|, i requires 0 <= i < |kept| => NotePlacement(RowOf(kept[i], NoteTempo(s)))))
  {
    EncodePlacements(s);
    DecodeContents(Encode(s));
  }

  lemma EncodePlacements(s: Score)
    ensures var kept := Filter(s.elements, IsNote);
      && TempoEntries(Encode(s)) == (if kept == [] then [] else [Placed(0.0, MetronomeMark(NoteTempo(s)))])
      && NotePlacements(Encode(s)) ==
           seq(|kept|, i requires 0 <= i < |kept| => NotePlacement(RowOf(kept[i], NoteTempo(s))))
  {
    EncodeSingleNotes(s);
  }
}
