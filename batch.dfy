/** `convert_and_combine_midi_files`: for each MIDI file a CSV next to the others, then
    one stream combining all of them. */
module Batch {
  import opened Music
  import opened Codec
  import opened Combiner
  import opened Paths
  import opened Seqs

  /** A MIDI file: its path, and the flat score music21 decodes it to. */
  datatype MidiFile = MidiFile(path: string, score: Score)

  /** A CSV file written by the conversion: its path and its rows. */
  datatype CsvFile = CsvFile(path: string, rows: seq<Row>)

  /** The CSV file written for one MIDI file. */
  function Converted(f: MidiFile): CsvFile {
    CsvFile(CsvPath(f.path), Encode(f.score))
  }

  /** The CSV files written for a list of MIDI files, in list order. */
  function ConvertAll(files: seq<MidiFile>): seq<CsvFile> {
    Map(files, Converted)
  }

  function Scores(files: seq<MidiFile>): (ss: seq<Score>)
    ensures |ss| == |files|
    ensures forall i :: 0 <= i < |files| ==> ss[i] == files[i].score
  {
    if files == [] then [] else Scores(files[..|files| - 1]) + [files[|files| - 1].score]
  }

  /** Each MIDI file is converted to the CSV file named after it, in list order, and
      the stream combining all scores in list order is built. */
  method ConvertAndCombine(files: seq<MidiFile>) returns (csvs: seq<CsvFile>, combined: MusicStream)
    ensures csvs == ConvertAll(files)
    ensures fresh(combined) && combined.Valid()
    ensures combined.entries == Combine(Scores(files))
  {
    csvs := [];
    var i := 0;
    while i < |files|
      invariant 0 <= i <= |files|
      invariant csvs == ConvertAll(files[..i])
    {
      var csvPath := CsvPath(files[i].path);
      var rows := MidiToCsv(files[i].score);
      csvs := csvs + [CsvFile(csvPath, rows)];
      MapStep(files, Converted, i);
      i := i + 1;
    }
    assert files[..i] == files;
    combined := CombineMidis(Scores(files));
  }
}
