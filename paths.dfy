/** The name of the intermediate CSV file in `convert_and_combine_midi_files`: the MIDI
    file's base name with every ".mid" replaced by ".csv", joined under `DataOutputCsv`,
    with POSIX path rules. */
module Paths {

  /** `DATA_OUTPUT_CSV`. */
  const DataOutputCsv: string := "data/output-csv"

  /** `p.rfind('/')`: the index of the last '/', or -1 when there is none. */
  function LastSlash(p: string): (k: int)
    ensures -1 <= k < |p|
    ensures 0 <= k ==> p[k] == '/'
    ensures forall i :: k < i < |p| ==> p[i] != '/'
  {
    if p == [] then -1
    else if p[|p| - 1] == '/' then |p| - 1
    else LastSlash(p[..|p| - 1])
  }

  /** `os.path.basename`: what follows the last '/'. */
  function Basename(p: string): (b: string)
    ensures forall i :: 0 <= i < |b| ==> b[i] != '/'
    ensures |b| <= |p| && b == p[|p| - |b|..]
    ensures |b| < |p| ==> p[|p| - |b| - 1] == '/'
  {
    p[LastSlash(p) + 1..]
  }

  /** `os.path.join(a, b)`: an absolute `b` replaces `a`; otherwise one '/' separates them. */
  function Join(a: string, b: string): string {
    if |b| > 0 && b[0] == '/' then b
    else if a == [] || a[|a| - 1] == '/' then a + b
    else a + "/" + b
  }

  /** `pat in s`. */
  predicate Occurs(pat: string, s: string)
    decreases |s|
  {
    |pat| <= |s| && (s[..|pat|] == pat || Occurs(pat, s[1..]))
  }

  /** `s.replace(pat, rep)`: every occurrence of `pat`, found left to right without
      overlapping, replaced by `rep`. */
  function ReplaceAll(s: string, pat: string, rep: string): string
    requires pat != []
    decreases |s|
  {
    if |s| < |pat| then s
    else if s[..|pat|] == pat then rep + ReplaceAll(s[|pat|..], pat, rep)
    else [s[0]] + ReplaceAll(s[1..], pat, rep)
  }

  /** The CSV path written for a MIDI file. */
  function CsvPath(midiFile: string): string {
    Join(DataOutputCsv, ReplaceAll(Basename(midiFile), ".mid", ".csv"))
  }

  /** A string without the pattern is left as it is. */
  lemma {:induction false} ReplaceAbsent(s: string, pat: string, rep: string)
    requires pat != [] && !Occurs(pat, s)
    ensures ReplaceAll(s, pat, rep) == s
    decreases |s|
  {
    if |s| >= |pat| {
      ReplaceAbsent(s[1..], pat, rep);
    }
  }

  /** A character in neither the string nor the replacement is not in the result. */
  lemma {:induction false} ReplaceKeepsOut(s: string, pat: string, rep: string, c: char)
    requires pat != [] && c !in s && c !in rep
    ensures c !in ReplaceAll(s, pat, rep)
    decreases |s|
  {
    if |s| >= |pat| {
      if s[..|pat|] == pat {
        ReplaceKeepsOut(s[|pat|..], pat, rep, c);
      } else {
        ReplaceKeepsOut(s[1..], pat, rep, c);
      }
    }
  }

  /** Rewriting ".mid" to ".csv" keeps the first character, and a string that does not
      start with '.' is rewritten after its first character. */
  lemma ReplaceMidHead(t: string)
    requires |t| > 0
    ensures var r := ReplaceAll(t, ".mid", ".csv");
      |r| > 0 && r[0] == t[0] && (t[0] != '.' ==> r == [t[0]] + ReplaceAll(t[1..], ".mid", ".csv"))
  {
    if |t| < 4 {
      assert t == [t[0]] + t[1..];
    } else if t[..4] == ".mid" {
      assert t[0] == t[..4][0];
    }
  }

  /** A character other than '.' in front does not create or remove an occurrence of ".mid". */
  lemma OccursAfterOther(c: char, x: string)
    requires c != '.'
    ensures Occurs(".mid", [c] + x) <==> Occurs(".mid", x)
  {
    assert ([c] + x)[1..] == x;
    if |x| + 1 >= 4 {
      assert ([c] + x)[..4][0] == c;
    }
  }

  /** A '.' in front adds an occurrence of ".mid" exactly when "mid" follows it. */
  lemma OccursAfterDot(x: string)
    ensures Occurs(".mid", ['.'] + x) <==> (|x| >= 3 && x[..3] == "mid") || Occurs(".mid", x)
  {
    var y := ['.'] + x;
    assert y[1..] == x;
    if |x| >= 3 {
      assert y[..4] == ['.'] + x[..3];
      assert ".mid" == ['.'] + "mid";
    }
  }

  /** ".csv" in front of a string without ".mid" does not make one. */
  lemma NoMidAfterCsv(rest: string)
    requires !Occurs(".mid", rest)
    ensures !Occurs(".mid", ".csv" + rest)
  {
    OccursAfterOther('v', rest);
    assert "v" + rest == ['v'] + rest;
    OccursAfterOther('s', "v" + rest);
    assert "sv" + rest == ['s'] + ("v" + rest);
    OccursAfterOther('c', "sv" + rest);
    assert "csv" + rest == ['c'] + ("sv" + rest);
    var r := ".csv" + rest;
    assert r[..4][1] == 'c';
    assert r[1..] == "csv" + rest;
  }

  /** A string starting with '.' but not with ".mid" does not have "mid" after the '.'. */
  lemma NotMidAfterDot(s: string)
    requires |s| >= 4 && s[0] == '.' && s[..4] != ".mid"
    ensures s[1..][..3] != "mid"
  {
    assert s[..4] == [s[0]] + s[1..][..3];
  }

  /** After the rewrite no ".mid" is left: ".csv" cannot form a new one with its
      neighbours. */
  lemma {:induction false} ReplaceMidLeavesNone(s: string)
    ensures !Occurs(".mid", ReplaceAll(s, ".mid", ".csv"))
    decreases |s|
  {
    if |s| < 4 {
    } else if s[..4] == ".mid" {
      ReplaceMidLeavesNone(s[4..]);
      NoMidAfterCsv(ReplaceAll(s[4..], ".mid", ".csv"));
    } else {
      var r1 := ReplaceAll(s[1..], ".mid", ".csv");
      ReplaceMidLeavesNone(s[1..]);
      if s[0] != '.' {
        OccursAfterOther(s[0], r1);
      } else {
        OccursAfterDot(r1);
        RewriteStartsLikeSource(s[1..]);
        NotMidAfterDot(s);
      }
    }
  }

  /** A rewritten string starting with "mid" was a string starting with "mid". */
  lemma RewriteStartsLikeSource(t: string)
    ensures var r := ReplaceAll(t, ".mid", ".csv");
      |r| >= 3 && r[..3] == "mid" ==> |t| >= 3 && t[..3] == "mid"
  {
    var r1 := ReplaceAll(t, ".mid", ".csv");
    if |r1| >= 3 && r1[..3] == "mid" {
      assert r1[0] == 'm' && r1[1] == 'i' && r1[2] == 'd';
      assert |t| > 0;
      ReplaceMidHead(t);
      assert t[0] == 'm';
      var r2 := ReplaceAll(t[1..], ".mid", ".csv");
      assert r1 == [t[0]] + r2;
      assert r2[0] == r1[1] && r2[1] == r1[2];
      assert |t[1..]| > 0;
      ReplaceMidHead(t[1..]);
      assert t[1] == 'i';
      var r3 := ReplaceAll(t[2..], ".mid", ".csv");
      assert t[1..][1..] == t[2..];
      assert r2 == [t[1]] + r3;
      assert r3[0] == r2[1];
      assert |t[2..]| > 0;
      ReplaceMidHead(t[2..]);
      assert t[2] == 'd';
    }
  }

  /** A name ending in ".mid", with no other ".mid" in it, gets ".csv" in its place. */
  lemma {:induction false} ReplaceMidSuffix(stem: string)
    requires !Occurs(".mid", stem)
    ensures ReplaceAll(stem + ".mid", ".mid", ".csv") == stem + ".csv"
    decreases |stem|
  {
    var x := stem + ".mid";
    if stem == [] {
      assert x == ".mid" && x[..4] == ".mid" && x[4..] == [];
    } else {
      if |stem| >= 4 {
        assert x[..4] == stem[..4];
      } else {
        assert x[|stem|] == '.' && ".mid"[|stem|] != '.';
      }
      assert x[..4] != ".mid";
      assert x[1..] == stem[1..] + ".mid";
      if |stem| < 4 {
        assert !Occurs(".mid", stem[1..]);
      }
      ReplaceMidSuffix(stem[1..]);
    }
  }

  /** The last component of `dir/name` is `name`. */
  lemma BasenameAfterSlash(dir: string, name: string)
    requires '/' !in name
    ensures Basename(dir + "/" + name) == name
  {
    var p := dir + "/" + name;
    assert p[|dir|] == '/';
    forall i | |dir| < i < |p|
      ensures p[i] != '/'
    {
      assert p[i] == name[i - |dir| - 1];
    }
    assert LastSlash(p) == |dir|;
    assert p[|dir| + 1..] == name;
  }

  /** The CSV file lands directly in the output-CSV directory, named like the MIDI file
      with ".csv" for every ".mid", and its name holds no ".mid". */
  lemma CsvPathShape(midiFile: string)
    ensures var name := ReplaceAll(Basename(midiFile), ".mid", ".csv");
      && CsvPath(midiFile) == DataOutputCsv + "/" + name
      && Basename(CsvPath(midiFile)) == name
      && !Occurs(".mid", Basename(CsvPath(midiFile)))
  {
    var name := ReplaceAll(Basename(midiFile), ".mid", ".csv");
    ReplaceKeepsOut(Basename(midiFile), ".mid", ".csv", '/');
    if |name| > 0 {
      assert name[0] in name;
    }
    BasenameAfterSlash(DataOutputCsv, name);
    ReplaceMidLeavesNone(Basename(midiFile));
  }

  /** `dir/song.mid` is written as `data/output-csv/song.csv`. */
  lemma CsvPathOfMidiFile(midiFile: string, stem: string)
    requires Basename(midiFile) == stem + ".mid" && !Occurs(".mid", stem)
    ensures CsvPath(midiFile) == DataOutputCsv + "/" + stem + ".csv"
  {
    ReplaceMidSuffix(stem);
    CsvPathShape(midiFile);
  }
}
