/** main of Extract1D2DIstogram_txt.py: the single-file round repeated over
    every file the pattern matched, a failure on one file skipping only that
    file. The match list itself (glob.glob) is an input. */
module BatchExtractor {
  import opened RootModel
  import opened Trace
  import opened OutputNaming
  import opened SingleFileExtractor

  /** The round of every file of the list, in list order; the k-th file gets
      handle k. */
  function Rounds<V>(disk: Disk<V>, fmt: V -> string, hist: string, files: seq<string>): seq<seq<Event>>
  {
    seq(|files|, k requires 0 <= k < |files| => FileEvents(disk, fmt, hist, files[k], k))
  }

  /** The events of the first k + 1 rounds are those of the first k followed
      by the round on file k. */
  lemma RoundsStep<V>(disk: Disk<V>, fmt: V -> string, hist: string, files: seq<string>, k: nat)
    requires k < |files|
    ensures Concat(Rounds(disk, fmt, hist, files), k + 1) ==
      Concat(Rounds(disk, fmt, hist, files), k) + FileEvents(disk, fmt, hist, files[k], k)
  {
    assert Rounds(disk, fmt, hist, files)[k] == FileEvents(disk, fmt, hist, files[k], k);
  }

  /** The events of a whole invocation. */
  function BatchRun<V>(disk: Disk<V>, fmt: V -> string, pattern: string, files: seq<string>, hist: string): seq<Event>
  {
    if |files| == 0 then [Report(NoFilesFound(pattern))]
    else Concat(Rounds(disk, fmt, hist, files), |files|)
  }

  /** The output names of the tabulated files among the first n, in order. */
  function TabulatedNames<V>(disk: Disk<V>, hist: string, files: seq<string>, n: nat): (names: seq<string>)
    requires n <= |files|
  {
    if n == 0 then
      []
    else
      var last := if Tabulated(disk, hist, files[n - 1]) then [OutputName(hist, files[n - 1])] else [];
      TabulatedNames(disk, hist, files, n - 1) + last
  }

  /** The failure reasons of the first n files, in order. */
  function Failures<V>(disk: Disk<V>, hist: string, files: seq<string>, n: nat): seq<Message>
    requires n <= |files|
  {
    if n == 0 then [] else Failures(disk, hist, files, n - 1) + FailureReason(disk, hist, files[n - 1])
  }

  method ExtractBatch<V>(disk: Disk<V>, fmt: V -> string, pattern: string, files: seq<string>, hist: string)
    returns (trace: seq<Event>)
    ensures trace == BatchRun(disk, fmt, pattern, files, hist)
    ensures files == [] ==> trace == [Report(NoFilesFound(pattern))]
  {
    if |files| == 0 {
      trace := [Report(NoFilesFound(pattern))];
      return;
    }
    ghost var rounds := Rounds(disk, fmt, hist, files);
    trace := [];
    for i := 0 to |files|
      invariant trace == Concat(rounds, i)
    {
      var path := files[i];
      var events := ExtractFile(disk, fmt, path, hist, i);
      RoundsStep(disk, fmt, hist, files, i);
      trace := trace + events;
    }
  }

  /** The tabulated names are the concatenation of each file's written names. */
  lemma {:induction false} TabulatedNamesConcat<V>(disk: Disk<V>, hist: string, files: seq<string>, parts: seq<seq<string>>, n: nat)
    requires |parts| == |files| && n <= |files|
    requires forall k :: 0 <= k < |files| ==>
      parts[k] == if Tabulated(disk, hist, files[k]) then [OutputName(hist, files[k])] else []
    ensures TabulatedNames(disk, hist, files, n) == Concat(parts, n)
  {
    if n > 0 {
      TabulatedNamesConcat(disk, hist, files, parts, n - 1);
    }
  }

  /** The failures are the concatenation of each file's failure reason. */
  lemma {:induction false} FailuresConcat<V>(disk: Disk<V>, hist: string, files: seq<string>, parts: seq<seq<Message>>, n: nat)
    requires |parts| == |files| && n <= |files|
    requires forall k :: 0 <= k < |files| ==> parts[k] == FailureReason(disk, hist, files[k])
    ensures Failures(disk, hist, files, n) == Concat(parts, n)
  {
    if n > 0 {
      FailuresConcat(disk, hist, files, parts, n - 1);
    }
  }

  /** Every file of the list is opened once, in list order: no failure
      aborts the batch. */
  lemma BatchVisitsEveryFile<V>(disk: Disk<V>, fmt: V -> string, pattern: string, files: seq<string>, hist: string)
    ensures OpenedPaths(BatchRun(disk, fmt, pattern, files, hist)) == files
  {
    if files != [] {
      var rounds := Rounds(disk, fmt, hist, files);
      var parts := seq(|files|, k requires 0 <= k < |files| => [files[k]]);
      forall k | 0 <= k < |files| ensures Collect(rounds[k], OpenedPath) == parts[k] {
        FileOpens(disk, fmt, hist, files[k], k);
      }
      CollectConcat(rounds, parts, OpenedPath, |files|);
      ConcatSingletons(files, |files|);
      assert files[..|files|] == files;
    }
  }

  /** Every file that opened is closed exactly once, and nothing else is
      closed. */
  lemma BatchClosesEachOpenedFileOnce<V>(disk: Disk<V>, fmt: V -> string, pattern: string, files: seq<string>, hist: string, h: nat)
    ensures Occurrences(BatchRun(disk, fmt, pattern, files, hist), Close(h)) ==
      if h < |files| && disk(files[h]).Some? then 1 else 0
  {
    if files != [] {
      var rounds := Rounds(disk, fmt, hist, files);
      var didOpen := seq(|files|, k requires 0 <= k < |files| => disk(files[k]).Some?);
      forall k | 0 <= k < |files|
        ensures Occurrences(rounds[k], Close(h)) == if k == h && didOpen[k] then 1 else 0
      {
        FileCloses(disk, fmt, hist, files[k], k, h);
        OccurrencesMultiplicity(rounds[k], Close(h));
      }
      ClosesConcat(rounds, didOpen, h, |files|);
    } else {
      OccurrencesAbsent([Report(NoFilesFound(pattern))], Close(h));
    }
  }

  /** A table is written exactly for the files that open and hold a 1D or 2D
      histogram, in list order. */
  lemma BatchWritesTabulatedFiles<V>(disk: Disk<V>, fmt: V -> string, pattern: string, files: seq<string>, hist: string)
    ensures Written(BatchRun(disk, fmt, pattern, files, hist)) == TabulatedNames(disk, hist, files, |files|)
  {
    if files != [] {
      var rounds := Rounds(disk, fmt, hist, files);
      var parts := seq(|files|, k requires 0 <= k < |files| =>
        if Tabulated(disk, hist, files[k]) then [OutputName(hist, files[k])] else []);
      forall k | 0 <= k < |files| ensures Collect(rounds[k], WrittenName) == parts[k] {
        FileWrites(disk, fmt, hist, files[k], k);
      }
      CollectConcat(rounds, parts, WrittenName, |files|);
      TabulatedNamesConcat(disk, hist, files, parts, |files|);
    } else {
      assert Written([Report(NoFilesFound(pattern))]) == [];
    }
  }

  /** The errors reported are the failure reasons of the files, in list
      order: one for each file that gives no table, so that errors and
      written tables together account for every file. */
  lemma BatchReportsEachFailure<V>(disk: Disk<V>, fmt: V -> string, pattern: string, files: seq<string>, hist: string)
    ensures Errors(BatchRun(disk, fmt, pattern, files, hist)) == Failures(disk, hist, files, |files|)
    ensures |Errors(BatchRun(disk, fmt, pattern, files, hist))| + |Written(BatchRun(disk, fmt, pattern, files, hist))| == |files|
  {
    BatchWritesTabulatedFiles(disk, fmt, pattern, files, hist);
    TabulatedNamesCount(disk, hist, files, |files|);
    if files != [] {
      var rounds := Rounds(disk, fmt, hist, files);
      var parts := seq(|files|, k requires 0 <= k < |files| => FailureReason(disk, hist, files[k]));
      forall k | 0 <= k < |files| ensures Collect(rounds[k], ErrorReport) == parts[k] {
        FileErrors(disk, fmt, hist, files[k], k);
      }
      CollectConcat(rounds, parts, ErrorReport, |files|);
      FailuresConcat(disk, hist, files, parts, |files|);
    } else {
      assert Errors([Report(NoFilesFound(pattern))]) == [];
    }
  }

  /** Written tables and failures together account for every file. */
  lemma {:induction false} TabulatedNamesCount<V>(disk: Disk<V>, hist: string, files: seq<string>, n: nat)
    requires n <= |files|
    ensures |TabulatedNames(disk, hist, files, n)| + |Failures(disk, hist, files, n)| == n
  {
    if n > 0 {
      TabulatedNamesCount(disk, hist, files, n - 1);
    }
  }

  /** A name is among the tabulated names exactly when it is the output name
      of a tabulated file. */
  lemma TabulatedNamesMembers<V>(disk: Disk<V>, hist: string, files: seq<string>, n: nat, name: string)
    requires n <= |files|
    ensures name in TabulatedNames(disk, hist, files, n) <==>
      exists k :: 0 <= k < n && Tabulated(disk, hist, files[k]) && name == OutputName(hist, files[k])
  {
    var parts := seq(|files|, k requires 0 <= k < |files| =>
      if Tabulated(disk, hist, files[k]) then [OutputName(hist, files[k])] else []);
    TabulatedNamesConcat(disk, hist, files, parts, n);
    ConcatMembers(parts, n, name);
    if name in TabulatedNames(disk, hist, files, n) {
      var k :| 0 <= k < n && name in parts[k];
      var out := OutputName(hist, files[k]);
      assert parts[k] == if Tabulated(disk, hist, files[k]) then [out] else [];
      assert Tabulated(disk, hist, files[k]) && name in [out];
    }
    if exists k :: 0 <= k < n && Tabulated(disk, hist, files[k]) && name == OutputName(hist, files[k]) {
      var k :| 0 <= k < n && Tabulated(disk, hist, files[k]) && name == OutputName(hist, files[k]);
      assert name in parts[k];
    }
  }

  /** A batch of three files where the first cannot be opened and the second
      lacks the histogram writes exactly one table, for the third, and reports
      the two failures in order; all three files are visited. */
  lemma BatchResilience<V>(disk: Disk<V>, fmt: V -> string, pattern: string, hist: string, files: seq<string>)
    requires |files| == 3
    requires disk(files[0]).None?
    requires disk(files[1]).Some? && hist !in disk(files[1]).value.objects
    requires Tabulated(disk, hist, files[2])
    ensures Written(BatchRun(disk, fmt, pattern, files, hist)) == [OutputName(hist, files[2])]
    ensures Errors(BatchRun(disk, fmt, pattern, files, hist)) == [CannotOpen(files[0]), HistogramNotFound(hist, files[1])]
    ensures |Errors(BatchRun(disk, fmt, pattern, files, hist))| == 2
    ensures OpenedPaths(BatchRun(disk, fmt, pattern, files, hist)) == files
  {
    assert !Tabulated(disk, hist, files[0]) && !Tabulated(disk, hist, files[1]);
    BatchWritesTabulatedFiles(disk, fmt, pattern, files, hist);
    assert TabulatedNames(disk, hist, files, 1) == [];
    assert TabulatedNames(disk, hist, files, 2) == [];
    BatchReportsEachFailure(disk, fmt, pattern, files, hist);
    assert Failures(disk, hist, files, 1) == [CannotOpen(files[0])];
    assert Failures(disk, hist, files, 2) == [CannotOpen(files[0]), HistogramNotFound(hist, files[1])];
    assert Failures(disk, hist, files, 3) == Failures(disk, hist, files, 2);
    BatchVisitsEveryFile(disk, fmt, pattern, files, hist);
  }
}
