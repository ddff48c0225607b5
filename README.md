# notapy converter: a verified model of the row mapping

`notapy/converter.py` moves music between MIDI files and CSV tables through music21
streams. This project models what the converter does between the library calls. It
does not model byte-level MIDI or CSV I/O. It proves the properties that the row
mapping promises.

- **Encode** (`midi_to_csv`): one pass over the `.notes` of a flattened score. Each
  single note (`isNote`) adds one row at the end of the table. Chords, unpitched events
  and rests give no row (converter.py:36). A row holds the note's `nameWithOctave`, its
  offset and quarter length rounded to three decimals, its velocity, and one tempo.
- **Tempo** (converter.py:32): the mark of the first entry of
  `metronomeMarkBoundaries()`. music21 puts a default mark of 120 first when the score
  has no mark, or when its first mark comes after its earliest element. Otherwise it is
  the first mark's number.
- **Decode** (`csv_to_midi`): an empty stream. If the table has rows, a metronome mark
  with the first row's tempo is appended. Then each row is inserted, in row order, as a
  Note at the row's start time. Every row becomes a Note; no chord or rest is ever built
  (converter.py:76).
- **Combine** (`combine_midis`): an empty stream. Each decoded score is appended as one
  sub-stream, in list order.
- **Batch** (`convert_and_combine_midi_files`): each MIDI file is encoded to a CSV file
  under the output-CSV directory. The CSV file is named after the MIDI file's base name,
  with every ".mid" replaced by ".csv". Then all scores are combined.

Modules:

- `wrappers.dfy`: `Option`.
- `seqs.dfy`: order-preserving selection (`Filter`), `Map`, and the latest of a list of
  times.
- `music.dfy`: the music21 objects involved.
  - A flattened score is a `Score`: its metronome marks (offset and number) and its
    note-like elements in traversal order.
  - A `Stream` is the class `MusicStream`. It holds a sequence of placed entries kept
    in offset order.
  - `insert` puts an entry after every entry at an offset not later than its own.
  - `append` inserts at the stream's `highestTime`.
- `codec.dfy`: the row type, `round(x, 3)`, encode (`MidiToCsv`) and decode
  (`CsvToMidi`).
- `combine.dfy`: combine (`CombineMidis`).
- `paths.dfy`: `basename`, `join` and `str.replace` on POSIX paths, and the CSV name.
- `batch.dfy`: the batch driver (`ConvertAndCombine`).

Times are exact rationals (`real`) on the element side. A row keeps `start_time` and
`duration` as integers in thousandths of a quarter note. `RoundMillis` computes them and
rounds half to even, as Python's `round` does. A stored time is therefore always a whole
number of thousandths. A missing velocity is `None`.

Each loop of the source is a method proved against a specification function:

- `MidiToCsv` against `Encode`.
- `CsvToMidi` against `Decode`.
- `CombineMidis` against `Combine`.
- `ConvertAndCombine` against `ConvertAll` and `Combine`.

The two `Stream` calls those loops make, `insert` and `append`, are the methods
`Music.MusicStream.Insert` and `Music.MusicStream.Append`. They are proved against
`InsertByOffset` and `AppendAtEnd`. Lemmas prove the source's promises about these
functions.

## Model

| member | source | states |
|---|---|---|
| Codec.RoundMillis | notapy/converter.py:39-40 | the stored value is within half a thousandth of the time, and on a tie it is even, as Python's round-half-to-even rounding gives |
| Codec.RoundMillisExact | notapy/converter.py:39-40 | a time that is already a whole number of thousandths is stored unchanged |
| Codec.MidiToCsv | notapy/converter.py:29-44 | the loop's table equals `Encode` of the score: one row per visited single note, each added at the end |
| Codec.EncodeRowsAreSelection | notapy/converter.py:35-44 | after visiting any list of notes, the table has one row per single note, in visiting order, each built from that note |
| Codec.EncodeSingleNotes | notapy/converter.py:35-43 | the row count equals the number of single notes of the score (chords, unpitched events and rests give no row); row i copies the i-th single note's name and velocity, holds its offset and length rounded to thousandths, and the score's tempo |
| Codec.EncodeTempoUniform | notapy/converter.py:32-42 | every row carries the same tempo: the first mark's number when no element starts before that mark, and 120 otherwise (no mark, or a first mark after the earliest element) |
| Codec.LateMarkGivesDefaultTempo | notapy/converter.py:32 | a score with one note at offset 0 and one mark of 90 at offset 4 is written with tempo 120, not 90 |
| Codec.EncodeAppend | notapy/converter.py:35-44 | with the tempo fixed before the loop, the rows of elements `a + b` are the rows of `a` followed by the rows of `b`, so rows of earlier notes are never changed |
| Codec.EncodeRowOf | notapy/converter.py:35-44 | the single note at traversal position i has its row at the index given by the number of single notes before it |
| Codec.NotePlacements | notapy/converter.py:70-78 | entry i is the Note built from row i, with the row's name, duration, velocity and start time |
| Codec.CsvToMidi | notapy/converter.py:61-79 | the built stream is fresh and ordered by offset, and its entries equal `Decode` of the table: the optional tempo mark, then each row inserted in row order |
| Codec.InsertRowsStep | notapy/converter.py:70-79 | one more loop turn inserts exactly the next row's Note into the stream built so far |
| Codec.InsertRowsContents | notapy/converter.py:70-79 | inserting the rows adds exactly one entry per row, as a multiset, and keeps an ordered stream ordered |
| Codec.DecodeContents | notapy/converter.py:63-79 | the decoded stream has one entry per row plus the tempo mark when there is one; as a multiset it is exactly that mark and the rows' Notes; it is ordered by offset, not by row position |
| Codec.DecodeTempoMark | notapy/converter.py:64-67 | the stream holds a metronome mark if and only if the table is non-empty, and every mark is at offset 0 with the first row's tempo |
| Codec.DecodedMark | notapy/converter.py:64-67 | any metronome-mark entry of a decoded stream is the first row's tempo at offset 0 |
| Codec.DecodeIgnoresLaterTempos | notapy/converter.py:64-79 | two tables that differ only in the tempo of rows after the first decode to the same stream |
| Codec.InsertRowsAgree | notapy/converter.py:70-79 | the Notes inserted do not depend on the rows' tempo column |
| Codec.NoteRoundTrip | notapy/converter.py:39-40 | a single note encoded to a row and decoded again has the same name and velocity, and its offset and length are within 0.0005 of the original |
| Codec.DecodeEncode | notapy/converter.py:29-79 | decoding the table of a score gives, as a multiset, the score's tempo mark when it has a single note, plus one Note per single note rebuilt from its row |
| Codec.EncodePlacements | notapy/converter.py:35-78 | the tempo entry and the Notes decoded from an encoded score, stated in terms of the score's single notes |
| Music.ExtentIsHighestTime | notapy/converter.py:104-105 | a score's `highestTime` is 0 when it is empty, no element ends and no mark starts after it, and it is the end of an element or the offset of a mark |
| Music.ExtentBounds | notapy/converter.py:104-105 | a well-timed score ends at or after 0 and after every element's end |
| Music.Shift | notapy/converter.py:105 | a sub-stream's elements are its score's elements, each moved by the sub-stream's offset |
| Music.ShiftMarks | notapy/converter.py:105 | a sub-stream's marks are its score's marks, each moved by the sub-stream's offset, numbers unchanged |
| Music.ShiftKeepsGaps | notapy/converter.py:105 | moving a score keeps the distance between any two of its elements and every length |
| Music.HighestTime | notapy/converter.py:105 | a stream's `highestTime` is 0 when empty, bounds every entry's end, and is the end of one entry |
| Music.InsertPosition | notapy/converter.py:79 | `insert` places the new entry after every entry not later than it, and before the first later one |
| Music.InsertByOffset | notapy/converter.py:79 | `insert` adds exactly the new entry, as a multiset, and keeps the stream ordered by offset |
| Music.InsertKeepsOrder | notapy/converter.py:79 | splicing an entry at its insert position keeps an ordered stream ordered |
| Music.HighestTimeSnoc | notapy/converter.py:105 | adding an entry at the back raises `highestTime` to that entry's end exactly when it ends later |
| Music.AppendToEmpty | notapy/converter.py:66-67 | appending to an empty stream places the item at offset 0 |
| Music.AppendIsAtBack | notapy/converter.py:105 | when no entry has negative length, `append` adds the item as the last entry, at the stream's `highestTime` |
| Music.MusicStream.constructor | notapy/converter.py:61 | a new stream is empty and ordered |
| Music.MusicStream.Insert | notapy/converter.py:79 | the new entries are `InsertByOffset` of the old ones, and the stream stays ordered |
| Music.MusicStream.Append | notapy/converter.py:105 | the new entries are `AppendAtEnd` of the old ones, and the stream stays ordered |
| Combiner.CombineMidis | notapy/converter.py:94-105 | the combined stream is fresh and ordered, and its entries equal `Combine` of the scores in list order |
| Combiner.CombineUnfold | notapy/converter.py:96-105 | one more loop turn appends exactly the next score to the stream built so far |
| Combiner.TotalExtentNonNegative | notapy/converter.py:96-105 | well-timed scores laid end to end never take up negative time |
| Combiner.TotalExtentGrows | notapy/converter.py:96-105 | later scores in the list never start before earlier ones |
| Combiner.CombineStep | notapy/converter.py:105 | appending one more score adds one sub-stream at the back, at the total extent of the earlier scores |
| Combiner.CombineLayout | notapy/converter.py:94-105 | there is one entry per input, in list order; score k sits at the total extent of scores 0..k-1; the combined stream ends where the scores laid end to end end |
| Combiner.LayoutStep | notapy/converter.py:105 | with one more score at the back, the entry count, the position of every score, the end time and the non-negative lengths all carry over |
| Combiner.EndStep | notapy/converter.py:105 | with one more score at the back, the stream ends where the scores laid end to end end |
| Combiner.LayoutSnoc | notapy/converter.py:105 | appending a score does not move the sub-streams already in the stream |
| Combiner.CombineSnoc | notapy/converter.py:105 | for well-timed scores, appending the last score adds it at the back, at the total extent of the others |
| Combiner.TimelineStep | notapy/converter.py:105 | one more score at the back adds its events, moved to the earlier scores' end, to the flat view |
| Combiner.MarksStep | notapy/converter.py:105 | one more score at the back adds its marks, moved to the earlier scores' end, to the stream's marks |
| Combiner.CombineTimeline | notapy/converter.py:94-105 | the flat view of the combined stream is every score's elements in list order, each score moved as a block to start where the earlier scores end |
| Combiner.CombineMarks | notapy/converter.py:94-105 | the combined stream's metronome marks are the scores' marks, in list order, each moved with its score to where the earlier scores end |
| Combiner.CombineSeparated | notapy/converter.py:94-105 | every event of an earlier score ends at or before any event of a later score starts |
| Paths.LastSlash | notapy/converter.py:152 | the index of the last '/', or -1 when there is none |
| Paths.Basename | notapy/converter.py:152 | the base name is the part of the path after its last '/': a suffix of the path with no '/', preceded by a '/' unless it is the whole path |
| Paths.ReplaceAbsent | notapy/converter.py:152 | a name without the pattern is left unchanged by the replacement |
| Paths.ReplaceKeepsOut | notapy/converter.py:152 | the replacement adds no character that is in neither the name nor the replacement text |
| Paths.ReplaceMidHead | notapy/converter.py:152 | the rewrite keeps the first character, and a name not starting with '.' is rewritten after its first character |
| Paths.ReplaceMidLeavesNone | notapy/converter.py:152 | after replacing ".mid" by ".csv" no ".mid" is left in the name |
| Paths.RewriteStartsLikeSource | notapy/converter.py:152 | a rewritten name that starts with "mid" came from a name that starts with "mid" |
| Paths.ReplaceMidSuffix | notapy/converter.py:152 | a name ending in ".mid", with no other ".mid" in it, gets ".csv" in its place |
| Paths.BasenameAfterSlash | notapy/converter.py:152 | the base name of `dir/name` is `name` when `name` has no '/' |
| Paths.CsvPathShape | notapy/converter.py:152 | the CSV path is the output-CSV directory, '/', and the base name with every ".mid" replaced by ".csv"; its own base name is that name and holds no ".mid" |
| Paths.CsvPathOfMidiFile | notapy/converter.py:152 | `dir/song.mid` is written as `data/output-csv/song.csv` |
| Seqs.Filter | notapy/converter.py:35-36 | the selection keeps only elements satisfying the test, and every such element |
| Seqs.FilterConcat | notapy/converter.py:35-44 | what is selected from a prefix does not change when more elements follow |
| Seqs.FilterAt | notapy/converter.py:35-36 | a kept element lands at the index given by the number of kept elements before it |
| Seqs.FilterFilter | notapy/converter.py:35-36 | taking `.notes` and then the single notes is the same as taking the single notes |
| Seqs.LatestOfConcat | notapy/converter.py:104-105 | the latest time of two lists together bounds both, and is found in one of them |
| Seqs.Map | notapy/converter.py:151-153 | element i of the result is the image of element i, and nothing else is there |
| Seqs.MapStep | notapy/converter.py:151-153 | one more loop turn adds exactly the next file's image at the end |
| Seqs.Latest | notapy/converter.py:105 | the latest of a list of times is 0 for an empty list, bounds every time, and is one of them |
| Batch.Scores | notapy/converter.py:96-104 | the scores combined are those of the files, in list order |
| Batch.ConvertAndCombine | notapy/converter.py:150-156 | each file is converted, in list order, to the CSV whose path is its `CsvPath` and whose rows are its `Encode`; the combined stream is fresh and ordered and is `Combine` of all the scores in list order |

## Left out

- MIDI reading and writing (`MidiFile.open/read/close`, `midiFileToStream`,
  `stream.write('midi', ...)`) are music21 calls. A MIDI file is modelled as its decoded
  flat `Score`. `Batch.MidiFile` pairs each path with the score music21 would decode
  from it.
- CSV reading and writing (`pd.read_csv`, `to_csv`) and DataFrame internals are not
  modelled. A table is a sequence of `Row`s.
- The `print` logging, `ensure_directories_exist` and the `__main__` example script
  (directory listing, `.mid` filter) are file-system plumbing with no logic to verify.
- `convert_midi_to_csv` and `convert_csv_to_midi` only forward to `midi_to_csv` and
  `csv_to_midi`. They are covered by `Codec.MidiToCsv` and `Codec.CsvToMidi`.
- Floating-point representation is not modelled. Times are exact reals. Pandas turning
  a missing velocity into NaN and back is modelled as `None`.
- music21's parsing of a note name (and its failure on a malformed one) is not modelled.
  The row's name is copied.
- Codec.NoteTempo: music21 compares the first mark with the lowest offset of the whole
  flat stream. That includes elements the model does not hold, such as instruments and
  time signatures. The model compares it only with the note-like elements. The marks are
  assumed to be listed in offset order, as `metronomeMarkBoundaries()` lists them.
- music21's secondary sort by class and priority among entries at the same offset is not
  modelled. Entries at equal offsets stay in insertion order. A consequence is that the
  tempo mark and the notes at offset 0 are modelled in that order.
- `WellTimed` (no negative offsets or lengths) is assumed of decoded scores in the
  combine lemmas. The MIDI decoder guarantees it, and it is not proved here.
- A decode of an encoded table that is then encoded again (CSV to MIDI to CSV) would
  need music21's MIDI writer and reader. It is not modelled.
