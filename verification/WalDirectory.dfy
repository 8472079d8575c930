/** The files of the raw WAL in their directory, and the order in which replay reads them. */
module WalDirectory {
  import opened Ordering
  import opened WalFraming

  datatype LogFile = LogFile(name: string, modTime: int, bytes: Bytes)

  /** Replay reads the files by modification time, then by name. */
  predicate FileBefore(a: LogFile, b: LogFile) {
    a.modTime < b.modTime || (a.modTime == b.modTime && StringLess(a.name, b.name))
  }

  predicate DistinctNames(files: seq<LogFile>) {
    forall i, j :: 0 <= i < j < |files| ==> files[i].name != files[j].name
  }

  function Contents(files: seq<LogFile>): seq<Bytes> {
    if files == [] then [] else Contents(files[..|files| - 1]) + [files[|files| - 1].bytes]
  }

  /** Replay of a directory; the sequence lists the files in order of creation. */
  function ReplayDir(files: seq<LogFile>): seq<Bytes> { DeliveredAll(Contents(Sort(FileBefore, files))) }

  lemma FileOrder(files: seq<LogFile>)
    requires DistinctNames(files)
    ensures NoDuplicates(files) && StrictOrderOn(FileBefore, Elements(files))
  {
    forall a, b, c | FileBefore(a, b) && FileBefore(b, c) ensures FileBefore(a, c) {
      if a.modTime == b.modTime == c.modTime { StringLessTransitive(a.name, b.name, c.name); }
    }
    forall a ensures !FileBefore(a, a) { StringLessIrreflexive(a.name); }
    forall a, b | a in Elements(files) && b in Elements(files) && a != b ensures FileBefore(a, b) || FileBefore(b, a) {
      assert a.name != b.name;
      StringLessTotal(a.name, b.name);
    }
  }

  /** Later files are not older. */
  predicate TimesAscend(files: seq<LogFile>) {
    forall i, j :: 0 <= i < j < |files| ==> files[i].modTime <= files[j].modTime
  }

  /** Of two files with the same time, the one created later has the greater name. */
  predicate NamesBreakTies(files: seq<LogFile>) {
    forall i, j :: 0 <= i < j < |files| && files[i].modTime == files[j].modTime ==>
      StringLess(files[i].name, files[j].name)
  }

  /** Files are read in order of creation if and only if their times do not decrease and the names of files with
      equal times ascend. */
  lemma ReadInOrder(files: seq<LogFile>)
    requires DistinctNames(files)
    ensures Sort(FileBefore, files) == files <==> TimesAscend(files) && NamesBreakTies(files)
  {
    FileOrder(files);
    SortCorrect(FileBefore, files);
    if TimesAscend(files) && NamesBreakTies(files) {
      forall i, j | 0 <= i < j < |files| ensures FileBefore(files[i], files[j]) {
        assert files[i].modTime <= files[j].modTime;
      }
      SortedUnique(FileBefore, Sort(FileBefore, files), files);
    }
    if Sort(FileBefore, files) == files {
      forall i, j | 0 <= i < j < |files| ensures files[i].modTime <= files[j].modTime {
        assert FileBefore(files[i], files[j]);
      }
      forall i, j | 0 <= i < j < |files| && files[i].modTime == files[j].modTime
        ensures StringLess(files[i].name, files[j].name)
      {
        assert FileBefore(files[i], files[j]);
      }
    }
  }

  /** Then replay gives back all records, trimmed, in the order in which they were written. */
  lemma DirectoryRoundTrip(files: seq<LogFile>, lines: seq<seq<Bytes>>)
    requires DistinctNames(files) && TimesAscend(files) && NamesBreakTies(files)
    requires FilesHold(Contents(files), lines) && AllSurvive(Flatten(lines))
    ensures ReplayDir(files) == TrimAll(Flatten(lines))
  {
    ReadInOrder(files);
    LogRoundTrip(Contents(files), lines);
  }

  /** How often a record occurs in these files. */
  function Occurrences(files: seq<LogFile>, r: Bytes): nat {
    if files == [] then 0 else multiset(Delivered(files[0].bytes))[r] + Occurrences(files[1..], r)
  }

  lemma {:induction false} OccurrencesLast(files: seq<LogFile>, r: Bytes)
    requires files != []
    ensures Occurrences(files, r)
            == Occurrences(files[..|files| - 1], r) + multiset(Delivered(files[|files| - 1].bytes))[r]
    decreases |files|
  {
    if |files| > 1 {
      OccurrencesLast(files[1..], r);
      assert files[1..][..|files| - 2] == files[..|files| - 1][1..];
    }
  }

  lemma {:induction false} OccurrencesInsert(f: LogFile, files: seq<LogFile>, r: Bytes)
    ensures Occurrences(Insert(FileBefore, f, files), r) == Occurrences(files, r) + multiset(Delivered(f.bytes))[r]
    decreases |files|
  {
    if files != [] && !FileBefore(f, files[0]) {
      OccurrencesInsert(f, files[1..], r);
      assert Insert(FileBefore, f, files)[1..] == Insert(FileBefore, f, files[1..]);
    } else {
      assert ([f] + files)[1..] == files;
    }
  }

  lemma {:induction false} OccurrencesSort(files: seq<LogFile>, r: Bytes)
    ensures Occurrences(Sort(FileBefore, files), r) == Occurrences(files, r)
    decreases |files|
  {
    if files != [] {
      OccurrencesSort(files[..|files| - 1], r);
      OccurrencesLast(files, r);
      OccurrencesInsert(files[|files| - 1], Sort(FileBefore, files[..|files| - 1]), r);
    }
  }

  lemma {:induction false} OccurrencesRead(files: seq<LogFile>, r: Bytes)
    ensures multiset(DeliveredAll(Contents(files)))[r] == Occurrences(files, r)
    decreases |files|
  {
    if files != [] {
      OccurrencesRead(files[..|files| - 1], r);
      OccurrencesLast(files, r);
      ReadLast(files);
    }
  }

  lemma ReadLast(files: seq<LogFile>)
    requires files != []
    ensures DeliveredAll(Contents(files))
            == DeliveredAll(Contents(files[..|files| - 1])) + Delivered(files[|files| - 1].bytes)
  {
    assert Contents(files)[..|Contents(files)| - 1] == Contents(files[..|files| - 1]);
  }

  /** Whatever the times and names, replay loses and repeats no record. */
  lemma NothingLost(files: seq<LogFile>, lines: seq<seq<Bytes>>)
    requires FilesHold(Contents(files), lines) && AllSurvive(Flatten(lines))
    ensures multiset(ReplayDir(files)) == multiset(TrimAll(Flatten(lines)))
  {
    LogRoundTrip(Contents(files), lines);
    forall r ensures multiset(ReplayDir(files))[r] == multiset(TrimAll(Flatten(lines)))[r] {
      OccurrencesRead(Sort(FileBefore, files), r);
      OccurrencesSort(files, r);
      OccurrencesRead(files, r);
    }
  }

  lemma {:induction false} FirstDifference(stem: string, c: char, d: char, a: string, b: string)
    requires c < d
    ensures StringLess(stem + [c] + a, stem + [d] + b)
  {
    var x, y := stem + [c] + a, stem + [d] + b;
    if stem != [] {
      assert x[1..] == stem[1..] + [c] + a && y[1..] == stem[1..] + [d] + b;
      FirstDifference(stem[1..], c, d, a, b);
    }
  }

  /** The names the writer makes within one second do not ascend: the first has no number, and from the tenth
      numbered one on the numbers grow longer. */
  lemma NamesOfOneSecond(stem: string)
    ensures StringLess(stem + "-1.jsonl", stem + ".jsonl")
    ensures StringLess(stem + "-10.jsonl", stem + "-9.jsonl")
  {
    FirstDifference(stem, '-', '.', "1.jsonl", "jsonl");
    assert stem + ['-'] + "1.jsonl" == stem + "-1.jsonl" && stem + ['.'] + "jsonl" == stem + ".jsonl";
    FirstDifference(stem + "-", '1', '9', "0.jsonl", ".jsonl");
    assert stem + "-" + ['1'] + "0.jsonl" == stem + "-10.jsonl" && stem + "-" + ['9'] + ".jsonl" == stem + "-9.jsonl";
  }

  /** So two such files with equal times are read in the wrong order. */
  lemma SameSecondSwaps(a: LogFile, b: LogFile)
    requires a.modTime == b.modTime && StringLess(b.name, a.name)
    ensures Sort(FileBefore, [a, b]) == [b, a]
  {
    assert [a, b][..1] == [a] && [a][..0] == [];
    assert Sort(FileBefore, [a]) == Insert(FileBefore, a, Sort(FileBefore, []));
  }
}
