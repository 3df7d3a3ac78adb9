/** One open / look-up / dispatch / extract / write / close round on a single
    ROOT file: the body of main in Extract1D2DIstogram.py, which the batch
    extractor repeats for every file of its list. */
module SingleFileExtractor {
  import opened RootModel
  import opened Text
  import opened Trace
  import opened Extraction
  import opened OutputNaming

  /** What `data` holds after dispatch, when a table was extracted. */
  datatype Extracted<V> = Records1D(rows1: seq<Record1D<V>>) | Records2D(rows2: seq<Record2D<V>>)
  {
    function Size(): nat
    {
      match this
      case Records1D(rows) => |rows|
      case Records2D(rows) => |rows|
    }
  }

  /** What opening `path` and looking up `hist` in it gives. */
  datatype Lookup<V> = OpenFailed | NoHistogram | Found(kind: Kind<V>)

  function LookUp<V>(disk: Disk<V>, hist: string, path: string): Lookup<V>
  {
    match disk(path)
    case None => OpenFailed
    case Some(f) => if hist in f.objects then Found(Classify(f.objects[hist])) else NoHistogram
  }

  /** The object found under `hist` in `path` is a 1D or 2D histogram. */
  predicate Tabulated<V>(disk: Disk<V>, hist: string, path: string)
  {
    LookUp(disk, hist, path).Found? && !LookUp(disk, hist, path).kind.Unrecognized?
  }

  /** The records extracted from a 1D or 2D histogram. */
  function Records<V>(kind: Kind<V>): Extracted<V>
    requires !kind.Unrecognized?
  {
    match kind
    case OneD(h1) => Records1D(Bins1D(h1, h1.nbins))
    case TwoD(h2) => Records2D(Bins2D(h2, h2.nbinsX))
  }

  /** The text of the table saved for those records. */
  function TableText<V>(fmt: V -> string, data: Extracted<V>): string
  {
    match data
    case Records1D(rows) => LinesToText(Table1D(fmt, rows))
    case Records2D(rows) => LinesToText(Table2D(fmt, rows))
  }

  /** The one thing that happens between the lookup and the close: an error
      report, or the write of the table. */
  function DispatchEvent<V>(fmt: V -> string, hist: string, path: string, found: Lookup<V>): (e: Event)
    requires !found.OpenFailed?
    ensures !e.Close? && !e.OpenCall?
    ensures e.WriteText? <==> found.Found? && !found.kind.Unrecognized?
  {
    match found
    case NoHistogram => Report(HistogramNotFound(hist, path))
    case Found(kind) =>
      if kind.Unrecognized? then Report(NotRecognized(hist))
      else WriteText(OutputName(hist, path), TableText(fmt, Records(kind)))
  }

  /** The histogram has at least one bin, so its record list is non-empty. */
  predicate HasRecords<V>(kind: Kind<V>)
    requires !kind.Unrecognized?
  {
    match kind
    case OneD(h1) => h1.nbins > 0
    case TwoD(h2) => h2.nbinsX > 0 && h2.nbinsY > 0
  }

  /** The test `if data:` after the close: the extracted list is non-empty
      exactly when every axis has a bin. */
  lemma HasRecordsIffNonEmpty<V>(kind: Kind<V>)
    requires !kind.Unrecognized?
    ensures Records(kind).Size() > 0 <==> HasRecords(kind)
  {
    if kind.TwoD? {
      var h2 := kind.h2;
      Bins2DPositions(h2, h2.nbinsX);
      if h2.nbinsX > 0 && h2.nbinsY > 0 {
        MulAtLeast(h2.nbinsX, h2.nbinsY);
      }
    }
  }

  /** What happens after the close: "Data saved to ..." for a non-empty table. */
  function AfterClose<V>(hist: string, path: string, found: Lookup<V>): (t: seq<Event>)
    ensures |t| <= 1 && (|t| == 1 ==> t[0].Report?)
  {
    if found.Found? && !found.kind.Unrecognized? && HasRecords(found.kind)
    then [Report(DataSaved(OutputName(hist, path)))]
    else []
  }

  /** The events of one round on `path`, its file handle being `handle`. */
  function FileEvents<V>(disk: Disk<V>, fmt: V -> string, hist: string, path: string, handle: nat): seq<Event>
  {
    var found := LookUp(disk, hist, path);
    if found.OpenFailed? then
      [OpenCall(handle, path, false), Report(CannotOpen(path))]
    else
      [OpenCall(handle, path, true), DispatchEvent(fmt, hist, path, found), Close(handle)]
      + AfterClose(hist, path, found)
  }

  /** main of the single-file extractor, for the file `path` and the
      histogram `hist`; `handle` names the file object TFile.Open returns. */
  method ExtractFile<V>(disk: Disk<V>, fmt: V -> string, path: string, hist: string, handle: nat)
    returns (trace: seq<Event>)
    ensures trace == FileEvents(disk, fmt, hist, path, handle)
  {
    var rootFile := disk(path);
    if rootFile.None? {
      trace := [OpenCall(handle, path, false), Report(CannotOpen(path))];
      return;
    }
    trace := [OpenCall(handle, path, true)];
    var histogram := Get(rootFile.value, hist);
    if histogram.None? {
      trace := trace + [Report(HistogramNotFound(hist, path)), Close(handle)];
      return;
    }
    ghost var found := LookUp(disk, hist, path);
    var event, data, outputFile := Dispatch(fmt, hist, path, Classify(histogram.value));
    if data.Some? {
      HasRecordsIffNonEmpty(Classify(histogram.value));
    }
    trace := trace + [event, Close(handle)];
    if data.Some? && data.value.Size() > 0 {
      trace := trace + [Report(DataSaved(outputFile))];
    }
  }

  /** The dimensionality test and what each branch does before the close:
      extract and save a 1D or a 2D table, or report an unrecognised object. */
  method Dispatch<V>(fmt: V -> string, hist: string, path: string, kind: Kind<V>)
    returns (event: Event, data: Option<Extracted<V>>, outputFile: string)
    ensures event == DispatchEvent(fmt, hist, path, Found(kind))
    ensures data.Some? <==> !kind.Unrecognized?
    ensures data.Some? ==> data.value == Records(kind) && outputFile == OutputName(hist, path)
  {
    data := None;
    outputFile := "";
    match kind
    case OneD(h1) =>
      var rows;
      event, rows, outputFile := Tabulate1D(fmt, hist, path, h1);
      data := Some(Records1D(rows));
    case TwoD(h2) =>
      var rows;
      event, rows, outputFile := Tabulate2D(fmt, hist, path, h2);
      data := Some(Records2D(rows));
    case Unrecognized =>
      event := Report(NotRecognized(hist));
  }

  /** The 1D branch: extract the bins and save them under the derived name. */
  method Tabulate1D<V>(fmt: V -> string, hist: string, path: string, h1: Hist1D<V>)
    returns (event: Event, rows: seq<Record1D<V>>, outputFile: string)
    ensures event == DispatchEvent(fmt, hist, path, Found(OneD(h1)))
    ensures Records1D(rows) == Records(OneD(h1)) && outputFile == OutputName(hist, path)
  {
    rows := Extract1D(h1);
    outputFile := OutputName(hist, path);
    var text := Save1D(fmt, rows);
    event := WriteText(outputFile, text);
  }

  /** The 2D branch: extract the bins and save them under the derived name. */
  method Tabulate2D<V>(fmt: V -> string, hist: string, path: string, h2: Hist2D<V>)
    returns (event: Event, rows: seq<Record2D<V>>, outputFile: string)
    ensures event == DispatchEvent(fmt, hist, path, Found(TwoD(h2)))
    ensures Records2D(rows) == Records(TwoD(h2)) && outputFile == OutputName(hist, path)
  {
    rows := Extract2D(h2);
    outputFile := OutputName(hist, path);
    var text := Save2D(fmt, rows);
    event := WriteText(outputFile, text);
  }

  /** The file is closed exactly when it was opened, through its own handle
      and no other, whatever the lookup and dispatch find. */
  lemma FileCloses<V>(disk: Disk<V>, fmt: V -> string, hist: string, path: string, handle: nat, g: nat)
    ensures multiset(FileEvents(disk, fmt, hist, path, handle))[Close(g)] ==
      if g == handle && disk(path).Some? then 1 else 0
  {
    var found := LookUp(disk, hist, path);
    if !found.OpenFailed? {
      var a := AfterClose(hist, path, found);
      assert multiset(a)[Close(g)] == 0 by { if |a| == 1 { assert a == [a[0]]; } }
    }
  }

  /** What `pick` selects from a round that opened its file: the parts of
      its first three events and of what follows the close. */
  lemma CollectRound<T>(x: Event, y: Event, z: Event, rest: seq<Event>, pick: Event -> Option<T>)
    ensures Collect([x, y, z] + rest, pick) ==
      Collect([x], pick) + (Collect([y], pick) + (Collect([z], pick) + Collect(rest, pick)))
  {
    assert [x, y, z] == [x] + ([y] + [z]);
    CollectAppend([x, y, z], rest, pick);
    CollectAppend([x], [y] + [z], pick);
    CollectAppend([y], [z], pick);
  }

  /** A table is written exactly when the file opens and holds a 1D or 2D
      histogram under `hist`, and then under the derived output name. */
  lemma FileWrites<V>(disk: Disk<V>, fmt: V -> string, hist: string, path: string, handle: nat)
    ensures Written(FileEvents(disk, fmt, hist, path, handle)) ==
      if Tabulated(disk, hist, path) then [OutputName(hist, path)] else []
  {
    var found := LookUp(disk, hist, path);
    if found.OpenFailed? {
      CollectAppend([OpenCall(handle, path, false)], [Report(CannotOpen(path))], WrittenName);
    } else {
      var a := AfterClose(hist, path, found);
      CollectRound(OpenCall(handle, path, true), DispatchEvent(fmt, hist, path, found), Close(handle), a, WrittenName);
      assert Written(a) == [] by { if |a| == 1 { assert a == [a[0]]; } }
    }
  }

  /** Every round opens its file exactly once, whatever happens next. */
  lemma FileOpens<V>(disk: Disk<V>, fmt: V -> string, hist: string, path: string, handle: nat)
    ensures OpenedPaths(FileEvents(disk, fmt, hist, path, handle)) == [path]
  {
    var found := LookUp(disk, hist, path);
    if found.OpenFailed? {
      CollectAppend([OpenCall(handle, path, false)], [Report(CannotOpen(path))], OpenedPath);
    } else {
      var a := AfterClose(hist, path, found);
      CollectRound(OpenCall(handle, path, true), DispatchEvent(fmt, hist, path, found), Close(handle), a, OpenedPath);
      assert OpenedPaths(a) == [] by { if |a| == 1 { assert a == [a[0]]; } }
    }
  }

  /** The error a round on `path` reports: none when it writes a table,
      otherwise the one that names why it could not. */
  function FailureReason<V>(disk: Disk<V>, hist: string, path: string): (m: seq<Message>)
    ensures |m| == if Tabulated(disk, hist, path) then 0 else 1
    ensures disk(path).None? ==> m == [CannotOpen(path)]
  {
    match LookUp(disk, hist, path)
    case OpenFailed => [CannotOpen(path)]
    case NoHistogram => [HistogramNotFound(hist, path)]
    case Found(kind) => if kind.Unrecognized? then [NotRecognized(hist)] else []
  }

  /** A round reports exactly its failure reason: one error, naming the
      failed step, when it writes no table, and none when it does. */
  lemma FileErrors<V>(disk: Disk<V>, fmt: V -> string, hist: string, path: string, handle: nat)
    ensures Errors(FileEvents(disk, fmt, hist, path, handle)) == FailureReason(disk, hist, path)
    ensures |Errors(FileEvents(disk, fmt, hist, path, handle))| == if Tabulated(disk, hist, path) then 0 else 1
  {
    var found := LookUp(disk, hist, path);
    if found.OpenFailed? {
      CollectAppend([OpenCall(handle, path, false)], [Report(CannotOpen(path))], ErrorReport);
    } else {
      OpenedRoundErrors(handle, path, DispatchEvent(fmt, hist, path, found), AfterClose(hist, path, found));
      AfterCloseErrors(hist, path, found);
      DispatchErrors(fmt, hist, path, found);
    }
  }

  /** Of a round that opened its file, only the dispatch event and what
      follows the close can be error reports. */
  lemma OpenedRoundErrors(handle: nat, path: string, d: Event, rest: seq<Event>)
    ensures Errors([OpenCall(handle, path, true), d, Close(handle)] + rest) == Errors([d]) + Errors(rest)
  {
    CollectRound(OpenCall(handle, path, true), d, Close(handle), rest, ErrorReport);
  }

  /** "Data saved" is not an error. */
  lemma AfterCloseErrors<V>(hist: string, path: string, found: Lookup<V>)
    ensures Errors(AfterClose(hist, path, found)) == []
  {
    var a := AfterClose(hist, path, found);
    if |a| == 1 {
      assert a == [a[0]];
    }
  }

  /** The error, if any, that the dispatch event reports. */
  lemma DispatchErrors<V>(fmt: V -> string, hist: string, path: string, found: Lookup<V>)
    requires !found.OpenFailed?
    ensures Errors([DispatchEvent(fmt, hist, path, found)]) ==
      if found.NoHistogram? then [HistogramNotFound(hist, path)]
      else if found.kind.Unrecognized? then [NotRecognized(hist)]
      else []
  {
    assert [DispatchEvent(fmt, hist, path, found)][1..] == [];
  }

  /** "Data saved" is reported exactly when a table was written for a
      histogram with a bin on every axis (so, by HasRecordsIffNonEmpty, with
      at least one record), and names that table's file. */
  lemma FileReportsSaved<V>(disk: Disk<V>, fmt: V -> string, hist: string, path: string, handle: nat, output: string)
    ensures Report(DataSaved(output)) in FileEvents(disk, fmt, hist, path, handle) <==>
      Tabulated(disk, hist, path) && HasRecords(LookUp(disk, hist, path).kind) && output == OutputName(hist, path)
  {
    var found := LookUp(disk, hist, path);
    if !found.OpenFailed? {
      var d, a := DispatchEvent(fmt, hist, path, found), AfterClose(hist, path, found);
      assert d != Report(DataSaved(output));
    }
  }
}
