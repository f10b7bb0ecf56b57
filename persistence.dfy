/** HabitTracker.write_to_files: one entry line per pillar, appended to that pillar's
    file. The file system is a map from path to file contents, and a path missing
    from the map is a file that does not exist yet. */
module Persistence {
  import opened Text
  import opened Catalog

  type FileSystem = map<string, string>

  /** pillar_data: each pillar's list of fragments, in the dictionary's order. */
  type PillarData = seq<(string, seq<string>)>

  /** What reading a file gives; a missing file reads as empty. */
  function Contents(fs: FileSystem, path: string): string {
    if path in fs then fs[path] else ""
  }

  /** open(path, 'a') followed by write(text): the file is created when missing
      and text is added at its end; no other file changes. */
  function AppendFile(fs: FileSystem, path: string, text: string): (r: FileSystem)
    ensures r.Keys == fs.Keys + {path}
    ensures Contents(r, path) == Contents(fs, path) + text
    ensures forall q :: q != path ==> Contents(r, q) == Contents(fs, q)
  {
    fs[path := Contents(fs, path) + text]
  }

  /** The line of one pillar's log entry: the date, then the fragments, all
      separated by " | ". */
  function LogLine(date: string, fragments: seq<string>): string {
    date + " | " + Join(" | ", fragments)
  }

  /** The log entry of one pillar: its line, ended by a newline. */
  function Entry(date: string, fragments: seq<string>): string {
    LogLine(date, fragments) + "\n"
  }

  /** The state write_to_files leaves behind: every entry written, or the files as
      they were when the lookup of a pillar's path raised KeyError. */
  datatype WriteOutcome = Written(files: FileSystem) | UnknownPillar(files: FileSystem, pillar: string)

  /** The effect of write_to_files, pillar by pillar in the dictionary's order;
      paths is the tracker's pillar_files. */
  function WriteAll(paths: seq<(string, string)>, fs: FileSystem, date: string, data: PillarData): WriteOutcome
    decreases |data|
  {
    if data == [] then Written(fs)
    else
      match Lookup(paths, data[0].0)
      case None => UnknownPillar(fs, data[0].0)
      case Some(path) => WriteAll(paths, AppendFile(fs, path, Entry(date, data[0].1)), date, data[1..])
  }

  method WriteToFiles(paths: seq<(string, string)>, fs: FileSystem, date: string, data: PillarData)
    returns (r: WriteOutcome)
    ensures r == WriteAll(paths, fs, date, data)
  {
    var files := fs;
    for i := 0 to |data|
      invariant WriteAll(paths, fs, date, data) == WriteAll(paths, files, date, data[i..])
    {
      assert data[i..][0] == data[i] && data[i..][1..] == data[i + 1..];
      var (pillar, fragments) := data[i];
      var path := Lookup(paths, pillar);
      if path.None? {
        return UnknownPillar(files, pillar);
      }
      var entry := Entry(date, fragments);
      files := AppendFile(files, path.value, entry);
    }
    return Written(files);
  }

  /** Writing never truncates: every file's old contents is a prefix of its new
      contents, and no file disappears, whatever the data. */
  lemma {:induction false} WriteAllGrows(paths: seq<(string, string)>, fs: FileSystem, date: string, data: PillarData)
    ensures fs.Keys <= WriteAll(paths, fs, date, data).files.Keys
    ensures forall q :: Contents(fs, q) <= Contents(WriteAll(paths, fs, date, data).files, q)
    decreases |data|
  {
    if data != [] && Lookup(paths, data[0].0).Some? {
      var fs1 := AppendFile(fs, Lookup(paths, data[0].0).value, Entry(date, data[0].1));
      WriteAllGrows(paths, fs1, date, data[1..]);
    }
  }

  /** Every pillar of the data has a file. */
  predicate AllKnown(paths: seq<(string, string)>, data: PillarData) {
    forall i :: 0 <= i < |data| ==> Lookup(paths, data[i].0).Some?
  }

  /** No two pillars share a file. */
  predicate DistinctPaths(paths: seq<(string, string)>) {
    forall i, j :: 0 <= i < |paths| && 0 <= j < |paths| && paths[i].1 == paths[j].1 ==> paths[i].0 == paths[j].0
  }

  /** The files of the pillars in the data. */
  function Targets(paths: seq<(string, string)>, data: PillarData): set<string>
    requires AllKnown(paths, data)
  {
    set i | 0 <= i < |data| :: Lookup(paths, data[i].0).value
  }

  lemma LookupInjective(paths: seq<(string, string)>, p: string, q: string)
    requires DistinctPaths(paths)
    requires Lookup(paths, p).Some? && Lookup(paths, p) == Lookup(paths, q)
    ensures p == q
  {
    LookupSpec(paths, p);
    LookupSpec(paths, q);
    var i :| 0 <= i < |paths| && paths[i] == (p, Lookup(paths, p).value);
    var j :| 0 <= j < |paths| && paths[j] == (q, Lookup(paths, q).value);
  }

  /** Files that belong to no pillar of the data are left exactly as they were. */
  lemma {:induction false} WriteAllUntouched(paths: seq<(string, string)>, fs: FileSystem, date: string,
                                             data: PillarData, q: string)
    requires AllKnown(paths, data) && q !in Targets(paths, data)
    ensures (q in WriteAll(paths, fs, date, data).files <==> q in fs)
    ensures Contents(WriteAll(paths, fs, date, data).files, q) == Contents(fs, q)
    decreases |data|
  {
    if data != [] {
      var p0 := Lookup(paths, data[0].0).value;
      var rest := data[1..];
      assert p0 in Targets(paths, data);
      assert AllKnown(paths, rest) by {
        forall i | 0 <= i < |rest| ensures Lookup(paths, rest[i].0).Some? {
          assert rest[i] == data[i + 1];
        }
      }
      assert q !in Targets(paths, rest);
      WriteAllUntouched(paths, AppendFile(fs, p0, Entry(date, data[0].1)), date, rest, q);
    }
  }

  /** For a dictionary whose pillars all have distinct files, every pillar's file
      gains exactly its own entry at the end. */
  lemma {:induction false} WriteAllEffect(paths: seq<(string, string)>, fs: FileSystem, date: string, data: PillarData)
    requires DistinctPaths(paths) && DistinctKeys(data) && AllKnown(paths, data)
    ensures WriteAll(paths, fs, date, data).Written?
    ensures forall i :: 0 <= i < |data| ==>
      Contents(WriteAll(paths, fs, date, data).files, Lookup(paths, data[i].0).value)
        == Contents(fs, Lookup(paths, data[i].0).value) + Entry(date, data[i].1)
    decreases |data|
  {
    if data != [] {
      var p0 := Lookup(paths, data[0].0).value;
      var fs1 := AppendFile(fs, p0, Entry(date, data[0].1));
      var rest := data[1..];
      assert AllKnown(paths, rest) by {
        forall i | 0 <= i < |rest| ensures Lookup(paths, rest[i].0).Some? {
          assert rest[i] == data[i + 1];
        }
      }
      WriteAllEffect(paths, fs1, date, rest);
      var w := WriteAll(paths, fs1, date, rest).files;
      assert WriteAll(paths, fs, date, data).files == w;
      forall i | 0 <= i < |data|
        ensures Contents(w, Lookup(paths, data[i].0).value)
          == Contents(fs, Lookup(paths, data[i].0).value) + Entry(date, data[i].1)
      {
        if i > 0 {
          assert rest[i - 1] == data[i];
          if Lookup(paths, data[i].0).value == p0 {
            LookupInjective(paths, data[i].0, data[0].0);
          }
        } else {
          assert p0 !in Targets(paths, rest) by {
            if p0 in Targets(paths, rest) {
              var k :| 0 <= k < |rest| && Lookup(paths, rest[k].0).value == p0;
              assert rest[k] == data[k + 1];
              LookupInjective(paths, rest[k].0, data[0].0);
            }
          }
          WriteAllUntouched(paths, fs1, date, rest, p0);
        }
      }
    }
  }

  /** Writing stops at the first pillar without a file (Python's KeyError), keeping
      the entries already written for the pillars before it. */
  lemma {:induction false} WriteAllStops(paths: seq<(string, string)>, fs: FileSystem, date: string, data: PillarData, k: nat)
    requires k < |data| && Lookup(paths, data[k].0).None?
    requires forall i :: 0 <= i < k ==> Lookup(paths, data[i].0).Some?
    ensures WriteAll(paths, fs, date, data)
      == UnknownPillar(WriteAll(paths, fs, date, data[..k]).files, data[k].0)
    decreases k
  {
    if k > 0 {
      var fs1 := AppendFile(fs, Lookup(paths, data[0].0).value, Entry(date, data[0].1));
      assert forall i :: 0 <= i < k - 1 ==> data[1..][i] == data[i + 1];
      WriteAllStops(paths, fs1, date, data[1..], k - 1);
      assert data[..k][1..] == data[1..][..k - 1];
    }
  }

  /** Writing the same data twice adds the same entry twice: nothing is deduplicated. */
  lemma WriteTwice(paths: seq<(string, string)>, fs: FileSystem, date: string, data: PillarData)
    requires DistinctPaths(paths) && DistinctKeys(data) && AllKnown(paths, data)
    ensures WriteAll(paths, fs, date, data).Written?
    ensures WriteAll(paths, WriteAll(paths, fs, date, data).files, date, data).Written?
    ensures forall i :: 0 <= i < |data| ==>
      Contents(WriteAll(paths, WriteAll(paths, fs, date, data).files, date, data).files,
               Lookup(paths, data[i].0).value)
        == Contents(fs, Lookup(paths, data[i].0).value) + Entry(date, data[i].1) + Entry(date, data[i].1)
  {
    WriteAllEffect(paths, fs, date, data);
    WriteAllEffect(paths, WriteAll(paths, fs, date, data).files, date, data);
  }

  /** Splitting the joined fragments on '|' and stripping each field gives the
      fragments back (a single empty field when there are none). */
  lemma {:induction false} JoinedFields(fragments: seq<string>, end: string)
    requires forall i :: 0 <= i < |fragments| ==> '|' !in fragments[i] && IsStripped(fragments[i])
    requires '|' !in end && AllWhitespace(end)
    ensures StripAll(Split(" " + Join(" | ", fragments) + end, '|'))
      == if fragments == [] then [""] else fragments
    decreases |fragments|
  {
    var s := " " + Join(" | ", fragments) + end;
    if |fragments| <= 1 {
      var t := if fragments == [] then "" else fragments[0];
      assert s == " " + t + end;
      assert '|' !in s;
      SplitWithout(s, '|');
      StripPadded(" ", t, end);
      assert StripAll([s]) == [Strip(s)];
    } else {
      var f := fragments[0];
      var rest := fragments[1..];
      var tail := " " + Join(" | ", rest) + end;
      assert s == (" " + f + " ") + ['|'] + tail;
      SplitAround(" " + f + " ", '|', tail);
      SplitWithout(" " + f + " ", '|');
      StripPadded(" ", f, " ");
      JoinedFields(rest, end);
      var parts := Split(s, '|');
      assert parts == [" " + f + " "] + Split(tail, '|');
      assert parts[1..] == Split(tail, '|');
      assert fragments == [f] + rest;
    }
  }

  /** A record made of the date and the joined fragments, followed by whitespace
      only, reads back, split on '|' with each field stripped, as its date and its
      fragments. */
  lemma RecordFields(date: string, fragments: seq<string>, end: string)
    requires '|' !in date && IsStripped(date)
    requires forall i :: 0 <= i < |fragments| ==> '|' !in fragments[i] && IsStripped(fragments[i])
    requires '|' !in end && AllWhitespace(end)
    ensures Fields(LogLine(date, fragments) + end, '|') == [date] + (if fragments == [] then [""] else fragments)
  {
    var tail := " " + Join(" | ", fragments) + end;
    assert LogLine(date, fragments) + end == (date + " ") + ['|'] + tail;
    SplitAround(date + " ", '|', tail);
    SplitWithout(date + " ", '|');
    StripPadded([], date, " ");
    assert [] + date + " " == date + " ";
    JoinedFields(fragments, end);
    var parts := Split(LogLine(date, fragments) + end, '|');
    assert parts == [date + " "] + Split(tail, '|');
    assert parts[1..] == Split(tail, '|');
  }

  /** An entry reads back, split on '|' with each field stripped, as its date and
      its fragments. */
  lemma EntryFields(date: string, fragments: seq<string>)
    requires '|' !in date && IsStripped(date)
    requires forall i :: 0 <= i < |fragments| ==> '|' !in fragments[i] && IsStripped(fragments[i])
    ensures Fields(Entry(date, fragments), '|') == [date] + (if fragments == [] then [""] else fragments)
  {
    assert AllWhitespace("\n");
    RecordFields(date, fragments, "\n");
  }

  /** So does the log line, the entry without its newline. */
  lemma LogLineFields(date: string, fragments: seq<string>)
    requires '|' !in date && IsStripped(date)
    requires forall i :: 0 <= i < |fragments| ==> '|' !in fragments[i] && IsStripped(fragments[i])
    ensures Fields(LogLine(date, fragments), '|') == [date] + (if fragments == [] then [""] else fragments)
  {
    RecordFields(date, fragments, "");
    assert LogLine(date, fragments) + "" == LogLine(date, fragments);
  }

  /** A log file is complete when it is empty or ends with a newline. */
  predicate IsTerminated(s: string) {
    s == [] || s[|s| - 1] == '\n'
  }

  /** The complete lines of a log file, without their newlines. */
  function LogLines(s: string): seq<string> {
    var parts := Split(s, '\n');
    parts[..|parts| - 1]
  }

  /** Appending a newline-free line and a newline to a complete log adds exactly
      that line after the lines already there. */
  lemma AppendLine(contents: string, line: string)
    requires IsTerminated(contents) && '\n' !in line
    ensures IsTerminated(contents + line + "\n")
    ensures LogLines(contents + line + "\n") == LogLines(contents) + [line]
  {
    var updated := contents + line + "\n";
    assert updated == (contents + line) + ['\n'] + [];
    SplitAround(contents + line, '\n', []);
    assert LogLines(updated) == Split(contents + line, '\n');
    SplitWithout(line, '\n');
    if contents != [] {
      var front := contents[..|contents| - 1];
      assert contents == front + ['\n'] + [];
      SplitAround(front, '\n', []);
      assert contents + line == front + ['\n'] + line;
      SplitAround(front, '\n', line);
      assert LogLines(contents) == Split(front, '\n');
    } else {
      assert contents + line == line;
      assert LogLines(contents) == [];
    }
  }

  /** Appending an entry to a complete log adds exactly one line, the entry without
      its newline, after the lines already there. */
  lemma EntryAddsLine(contents: string, date: string, fragments: seq<string>)
    requires IsTerminated(contents)
    requires '\n' !in date
    requires forall i :: 0 <= i < |fragments| ==> '\n' !in fragments[i]
    ensures IsTerminated(contents + Entry(date, fragments))
    ensures LogLines(contents + Entry(date, fragments))
      == LogLines(contents) + [LogLine(date, fragments)]
  {
    var line := LogLine(date, fragments);
    JoinWithout('\n', " | ", fragments);
    assert '\n' !in line;
    AppendLine(contents, line);
    assert contents + Entry(date, fragments) == contents + line + "\n";
  }
}
