/** The music21 objects the converter touches, reduced to what it reads and writes:
    flattened scores decoded from MIDI files, and the `Stream` it builds by `append` and
    `insert`. Times are quarter-note offsets and lengths, as music21 keeps them. */
module Music {
  import opened Wrappers
  import opened Seqs

  /** The classes of note-like object a flattened stream yields: `Note` (the only one
      with `isNote`), `Chord`, `Unpitched`, and `Rest` (which `.notes` does not yield). */
  datatype Kind = SingleNote | Chord | Unpitched | Rest

  /** One element of a flattened stream: its class, `nameWithOctave`, `offset`,
      `duration.quarterLength` and `volume.velocity` (None when unset). */
  datatype Element = Element(kind: Kind, name: string, offset: real, quarterLength: real, velocity: Option<int>)

  /** A metronome mark of a decoded score: its offset and its number (beats per minute). */
  datatype Mark = Mark(offset: real, number: real)

  /** A decoded MIDI file after `.flat`: its metronome marks in offset order, as
      `metronomeMarkBoundaries()` visits them, and its note-like elements in traversal order. */
  datatype Score = Score(marks: seq<Mark>, elements: seq<Element>)

  function End(e: Element): real { e.offset + e.quarterLength }

  /** `highestTime` of a flat score: the latest end of its elements and marks (a mark has
      no length), 0 when it has neither. */
  function Extent(s: Score): real {
    Latest(ElementEnds(s) + MarkStarts(s))
  }

  function ElementEnds(s: Score): (ends: seq<real>)
    ensures |ends| == |s.elements|
    ensures forall i :: 0 <= i < |s.elements| ==> ends[i] == End(s.elements[i])
  {
    seq(|s.elements|, i requires 0 <= i < |s.elements| => End(s.elements[i]))
  }

  function MarkStarts(s: Score): (starts: seq<real>)
    ensures |starts| == |s.marks|
    ensures forall j :: 0 <= j < |s.marks| ==> starts[j] == s.marks[j].offset
  {
    seq(|s.marks|, j requires 0 <= j < |s.marks| => s.marks[j].offset)
  }

  /** A score's extent is 0 when it is empty, no element ends and no mark starts after
      it, and it is the end of an element or the offset of a mark. */
  lemma ExtentIsHighestTime(s: Score)
    ensures s.elements == [] && s.marks == [] ==> Extent(s) == 0.0
    ensures forall i :: 0 <= i < |s.elements| ==> End(s.elements[i]) <= Extent(s)
    ensures forall j :: 0 <= j < |s.marks| ==> s.marks[j].offset <= Extent(s)
    ensures s.elements != [] || s.marks != [] ==>
      (exists i :: 0 <= i < |s.elements| && End(s.elements[i]) == Extent(s)) ||
      (exists j :: 0 <= j < |s.marks| && s.marks[j].offset == Extent(s))
  {
    LatestOfConcat(ElementEnds(s), MarkStarts(s));
  }

  /** What the MIDI decoder delivers: no element or mark starts before 0, and no element
      has negative length. */
  ghost predicate WellTimed(s: Score) {
    && (forall i :: 0 <= i < |s.elements| ==> 0.0 <= s.elements[i].offset && 0.0 <= s.elements[i].quarterLength)
    && (forall j :: 0 <= j < |s.marks| ==> 0.0 <= s.marks[j].offset)
  }

  /** A well-timed score occupies [0, Extent] and every element ends within it. */
  lemma ExtentBounds(s: Score)
    requires WellTimed(s)
    ensures 0.0 <= Extent(s)
    ensures forall i :: 0 <= i < |s.elements| ==> s.elements[i].offset <= End(s.elements[i]) <= Extent(s)
  {
    ExtentIsHighestTime(s);
    if s.elements != [] {
      assert 0.0 <= End(s.elements[0]);
    } else if s.marks != [] {
      assert 0.0 <= s.marks[0].offset;
    }
  }

  /** Moves every element later by `d`. */
  function Shift(es: seq<Element>, d: real): (r: seq<Element>)
    ensures |r| == |es|
    ensures forall i :: 0 <= i < |es| ==> r[i] == es[i].(offset := es[i].offset + d)
  {
    if es == [] then [] else [es[0].(offset := es[0].offset + d)] + Shift(es[1..], d)
  }

  /** Moves every mark later by `d`. */
  function ShiftMarks(ms: seq<Mark>, d: real): (r: seq<Mark>)
    ensures |r| == |ms|
    ensures forall j :: 0 <= j < |ms| ==> r[j] == Mark(ms[j].offset + d, ms[j].number)
  {
    if ms == [] then [] else [Mark(ms[0].offset + d, ms[0].number)] + ShiftMarks(ms[1..], d)
  }

  /** Shifting keeps the order and the distance between any two elements. */
  lemma ShiftKeepsGaps(es: seq<Element>, d: real, i: int, j: int)
    requires 0 <= i < |es| && 0 <= j < |es|
    ensures Shift(es, d)[j].offset - Shift(es, d)[i].offset == es[j].offset - es[i].offset
    ensures Shift(es, d)[i].quarterLength == es[i].quarterLength
  {
  }

  /** What a `Stream` holds: a metronome mark, a note built from a CSV row, or a whole
      decoded score appended as one sub-stream. */
  datatype Item = MetronomeMark(number: real) | Note(name: string, quarterLength: real, velocity: Option<int>) | Part(score: Score)

  /** An item at its offset in the stream. */
  datatype Placed = Placed(offset: real, item: Item)

  function Length(it: Item): real {
    match it
    case MetronomeMark(_) => 0.0
    case Note(_, q, _) => q
    case Part(s) => Extent(s)
  }

  /** `highestTime` of a stream: the latest end of its entries, 0 when it is empty. */
  function HighestTime(entries: seq<Placed>): (t: real)
    ensures entries == [] ==> t == 0.0
    ensures forall i :: 0 <= i < |entries| ==> EntryEnd(entries[i]) <= t
    ensures entries != [] ==> exists i :: 0 <= i < |entries| && EntryEnd(entries[i]) == t
  {
    var ends := seq(|entries|, i requires 0 <= i < |entries| => EntryEnd(entries[i]));
    assert forall i :: 0 <= i < |entries| ==> ends[i] == EntryEnd(entries[i]);
    Latest(ends)
  }

  function EntryEnd(p: Placed): real { p.offset + Length(p.item) }

  ghost predicate SortedByOffset(s: seq<Placed>) {
    forall i, j :: 0 <= i < j < |s| ==> s[i].offset <= s[j].offset
  }

  /** Where `insert` puts `p`: after every entry at an offset not later than its own,
      so entries at equal offsets stay in insertion order. */
  function InsertPosition(s: seq<Placed>, p: Placed): (k: nat)
    ensures k <= |s|
    ensures forall i :: 0 <= i < k ==> s[i].offset <= p.offset
    ensures k < |s| ==> p.offset < s[k].offset
  {
    if s == [] || p.offset < s[0].offset then 0 else 1 + InsertPosition(s[1..], p)
  }

  /** The entries after `insert(p)`: exactly one more entry, `p`, and the stream stays
      ordered by offset. */
  function InsertByOffset(s: seq<Placed>, p: Placed): (r: seq<Placed>)
    ensures |r| == |s| + 1
    ensures multiset(r) == multiset(s) + multiset{p}
    ensures SortedByOffset(s) ==> SortedByOffset(r)
  {
    var k := InsertPosition(s, p);
    assert s == s[..k] + s[k..];
    InsertKeepsOrder(s, p);
    s[..k] + [p] + s[k..]
  }

  lemma InsertKeepsOrder(s: seq<Placed>, p: Placed)
    ensures var k := InsertPosition(s, p); SortedByOffset(s) ==> SortedByOffset(s[..k] + [p] + s[k..])
  {
    var k := InsertPosition(s, p);
    var r := s[..k] + [p] + s[k..];
    assert forall i :: 0 <= i < k ==> r[i] == s[i];
    assert forall i :: k < i < |r| ==> r[i] == s[i - 1];
    if SortedByOffset(s) {
      SpliceSorted(s, p, k, r);
    }
  }

  /** `p` spliced in at index k of a sorted `s`, after the entries not later and before
      the first one later, keeps the order. */
  lemma SpliceSorted(s: seq<Placed>, p: Placed, k: int, r: seq<Placed>)
    requires SortedByOffset(s) && 0 <= k <= |s| && |r| == |s| + 1
    requires forall i :: 0 <= i < k ==> s[i].offset <= p.offset
    requires k < |s| ==> p.offset < s[k].offset
    requires forall i :: 0 <= i < k ==> r[i] == s[i]
    requires r[k] == p
    requires forall i :: k < i < |r| ==> r[i] == s[i - 1]
    ensures SortedByOffset(r)
  {
    forall i, j | 0 <= i < j < |r|
      ensures r[i].offset <= r[j].offset
    {
      if j > k && i >= k {
        assert s[k].offset <= s[j - 1].offset;
      }
    }
  }

  /** The entries after `append(it)`: `it` placed at the stream's current `highestTime`. */
  function AppendAtEnd(s: seq<Placed>, it: Item): seq<Placed> {
    InsertByOffset(s, Placed(HighestTime(s), it))
  }

  /** One more entry at the back raises `highestTime` to that entry's end if it ends later. */
  lemma HighestTimeSnoc(s: seq<Placed>, p: Placed)
    ensures HighestTime(s + [p]) == if s == [] || HighestTime(s) < EntryEnd(p) then EntryEnd(p) else HighestTime(s)
  {
    var r := s + [p];
    assert r[|s|] == p;
    assert forall i :: 0 <= i < |s| ==> r[i] == s[i];
    if s != [] {
      var i :| 0 <= i < |s| && EntryEnd(s[i]) == HighestTime(s);
      assert EntryEnd(r[i]) == HighestTime(s);
    }
  }

  /** Appending to an empty stream puts the item at offset 0. */
  lemma AppendToEmpty(it: Item)
    ensures AppendAtEnd([], it) == [Placed(0.0, it)]
  {
    assert InsertPosition([], Placed(0.0, it)) == 0;
  }

  ghost predicate NonNegativeLengths(s: seq<Placed>) {
    forall i :: 0 <= i < |s| ==> 0.0 <= Length(s[i].item)
  }

  /** When no entry has negative length, `append` adds the item at the back. */
  lemma AppendIsAtBack(s: seq<Placed>, it: Item)
    requires NonNegativeLengths(s)
    ensures AppendAtEnd(s, it) == s + [Placed(HighestTime(s), it)]
  {
    var p := Placed(HighestTime(s), it);
    var k := InsertPosition(s, p);
    if k < |s| {
      assert false;
    }
    assert s[..k] == s && s[k..] == [];
  }

  /** The flat view of a stream's entries in entry order, as `.flat` yields it:
      a note becomes an element of class Note, a sub-stream contributes its elements
      moved to its offset, a metronome mark contributes no element. */
  function Timeline(entries: seq<Placed>): seq<Element> {
    if entries == [] then []
    else Timeline(entries[..|entries| - 1]) + EntryElements(entries[|entries| - 1])
  }

  function EntryElements(p: Placed): seq<Element> {
    match p.item
    case MetronomeMark(_) => []
    case Note(n, q, v) => [Element(SingleNote, n, p.offset, q, v)]
    case Part(s) => Shift(s.elements, p.offset)
  }

  /** The metronome marks of a stream in entry order, at their offsets in the stream,
      including those inside sub-streams. */
  function MarksOf(entries: seq<Placed>): seq<Mark> {
    if entries == [] then []
    else MarksOf(entries[..|entries| - 1]) + EntryMarks(entries[|entries| - 1])
  }

  function EntryMarks(p: Placed): seq<Mark> {
    match p.item
    case MetronomeMark(n) => [Mark(p.offset, n)]
    case Note(_, _, _) => []
    case Part(s) => ShiftMarks(s.marks, p.offset)
  }

  /** A music21 `Stream`. Its entries are kept in the order music21 iterates them:
      by offset, and by insertion order among equal offsets. */
  class MusicStream {
    var entries: seq<Placed>

    ghost predicate Valid()
      reads this
    {
      SortedByOffset(entries)
    }

    constructor ()
      ensures Valid() && entries == []
    {
      entries := [];
    }

    /** `stream.insert(element)`: place the element at its own offset. */
    method Insert(p: Placed)
      requires Valid()
      modifies this
      ensures Valid()
      ensures entries == InsertByOffset(old(entries), p)
    {
      entries := InsertByOffset(entries, p);
    }

    /** `stream.append(element)`: place the element at the current `highestTime`. */
    method Append(it: Item)
      requires Valid()
      modifies this
      ensures Valid()
      ensures entries == AppendAtEnd(old(entries), it)
    {
      Insert(Placed(HighestTime(entries), it));
    }
  }
}
