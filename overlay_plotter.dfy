/** main of IstogramComparisonPlot.py: every matched file that opens and
    holds the named histogram is drawn, in list order, on one canvas with
    the next line color, a fixed line width and a legend entry; one image is
    saved; every file opened is closed exactly once. The canvas, the legend
    and the histograms are ROOT objects; their calls are modelled as events. */
module OverlayPlotter {
  import opened RootModel
  import opened Trace

  const OutputImage := "IstogramsPlotOutput.png"
  const LineWidth := 2

  datatype LegendEntry = LegendEntry(handle: nat, fileName: string, option: string)

  /** How one file of the list fares in the file loop. */
  datatype Outcome =
    | Unopened   // TFile.Open gave a null or zombie file
    | Missing    // the file holds no object under the histogram's name
    | Present    // the object was found and is drawn

  function OutcomeOf<V>(disk: Disk<V>, hist: string, path: string): Outcome
  {
    match disk(path)
    case None => Unopened
    case Some(f) => if hist in f.objects then Present else Missing
  }

  /** The outcome of every file of the list, in list order. */
  function Outcomes<V>(disk: Disk<V>, hist: string, files: seq<string>): seq<Outcome>
  {
    seq(|files|, k requires 0 <= k < |files| => OutcomeOf(disk, hist, files[k]))
  }

  /** The handles (list positions) of the drawn files among the first n, in
      list order: the files main appends to open_files. */
  function SuccessIndices(o: seq<Outcome>, n: nat): seq<nat>
    requires n <= |o|
  {
    if n == 0 then []
    else SuccessIndices(o, n - 1) + if o[n - 1] == Present then [n - 1] else []
  }

  /** The draw option: the first histogram establishes the frame, the later
      ones are drawn over it. */
  function DrawOption(drawn: nat): string
  {
    if drawn == 0 then "" else "SAME"
  }

  /** The events of one iteration on `path` (handle h) after `drawn` drawn
      files. */
  function IterationEvents(outcome: Outcome, hist: string, path: string, h: nat, drawn: nat): seq<Event>
  {
    match outcome
    case Unopened => [OpenCall(h, path, false), Report(CannotOpen(path))]
    case Missing => [OpenCall(h, path, true), Report(HistogramNotFound(hist, path)), Close(h)]
    case Present => [OpenCall(h, path, true), Draw(h, drawn + 1, LineWidth, DrawOption(drawn))]
  }

  /** The events of the first n iterations of the file loop. */
  function LoopEvents(o: seq<Outcome>, hist: string, files: seq<string>, n: nat): seq<Event>
    requires |o| == |files| && n <= |files|
  {
    if n == 0 then []
    else
      LoopEvents(o, hist, files, n - 1)
      + IterationEvents(o[n - 1], hist, files[n - 1], n - 1, |SuccessIndices(o, n - 1)|)
  }

  /** canvas.SetLogx() if xlog or loglog, then canvas.SetLogy() if ylog or loglog. */
  function LogScaleEvents(xlog: bool, ylog: bool, loglog: bool): seq<Event>
  {
    (if xlog || loglog then [SetLogX] else []) + (if ylog || loglog then [SetLogY] else [])
  }

  /** The set-up sets the x axis logarithmic exactly under --xlog or
      --loglog, the y axis exactly under --ylog or --loglog, and does
      nothing else. */
  lemma LogScaleFlags(xlog: bool, ylog: bool, loglog: bool)
    ensures var r := LogScaleEvents(xlog, ylog, loglog);
      (SetLogX in r <==> xlog || loglog) && (SetLogY in r <==> ylog || loglog) &&
      forall k :: 0 <= k < |r| ==> r[k] == SetLogX || r[k] == SetLogY
  {
  }

  function CloseAll(handles: seq<nat>): seq<Event>
  {
    if handles == [] then [] else [Close(handles[0])] + CloseAll(handles[1..])
  }

  /** The legend after the first n iterations: one "l" entry per drawn
      file, labelled with the file name. */
  function LegendOf(o: seq<Outcome>, files: seq<string>, n: nat): seq<LegendEntry>
    requires |o| == |files| && n <= |files|
  {
    if n == 0 then []
    else LegendOf(o, files, n - 1) + if o[n - 1] == Present then [LegendEntry(n - 1, files[n - 1], "l")] else []
  }

  /** The events of a whole invocation on a non-empty match list. */
  function PlotEvents<V>(disk: Disk<V>, hist: string, files: seq<string>, xlog: bool, ylog: bool, loglog: bool): seq<Event>
  {
    var o := Outcomes(disk, hist, files);
    ([CreateCanvas] + LogScaleEvents(xlog, ylog, loglog)) + LoopEvents(o, hist, files, |files|)
    + ([DrawLegend, SaveAs(OutputImage)] + CloseAll(SuccessIndices(o, |files|)))
  }

  /** One pass of main's file loop on `fileName` (handle i): open it, report
      and skip it when it does not open, report, close and skip it when the
      histogram is missing, and otherwise give the histogram the current
      color and the fixed width and draw it, over the first one if there is
      one. Returns the events, whether it was drawn, and the new first
      histogram. */
  method DrawFile<V>(disk: Disk<V>, hist: string, fileName: string, i: nat, colorIndex: int, firstHist: Option<nat>)
    returns (step: seq<Event>, drawn: bool, first: Option<nat>)
    requires colorIndex >= 1
    requires firstHist.None? <==> colorIndex == 1
    ensures step == IterationEvents(OutcomeOf(disk, hist, fileName), hist, fileName, i, colorIndex - 1)
    ensures drawn <==> OutcomeOf(disk, hist, fileName) == Present
    ensures first == if firstHist.None? && drawn then Some(i) else firstHist
  {
    first := firstHist;
    var rootFile := disk(fileName);
    if rootFile.None? {
      step, drawn := [OpenCall(i, fileName, false), Report(CannotOpen(fileName))], false;
      return;
    }
    if hist !in rootFile.value.objects {
      step, drawn := [OpenCall(i, fileName, true), Report(HistogramNotFound(hist, fileName)), Close(i)], false;
      return;
    }
    var option;
    if firstHist.None? {
      first := Some(i);
      option := "";
    } else {
      option := "SAME";
    }
    step, drawn := [OpenCall(i, fileName, true), Draw(i, colorIndex, LineWidth, option)], true;
  }

  /** The file loop of main: every matched file in order, collecting the
      events, the handles of the drawn files, the legend and the final
      color_index. */
  method DrawFiles<V>(disk: Disk<V>, hist: string, files: seq<string>)
    returns (events: seq<Event>, openFiles: seq<nat>, legend: seq<LegendEntry>, colorIndex: int)
    ensures events == LoopEvents(Outcomes(disk, hist, files), hist, files, |files|)
    ensures openFiles == SuccessIndices(Outcomes(disk, hist, files), |files|)
    ensures legend == LegendOf(Outcomes(disk, hist, files), files, |files|)
    ensures colorIndex == |openFiles| + 1 == |legend| + 1
  {
    ghost var o := Outcomes(disk, hist, files);
    var firstHist: Option<nat> := None;
    colorIndex := 1;
    events, openFiles, legend := [], [], [];
    for i := 0 to |files|
      invariant openFiles == SuccessIndices(o, i)
      invariant colorIndex == |openFiles| + 1 == |legend| + 1
      invariant firstHist.None? <==> |openFiles| == 0
      invariant legend == LegendOf(o, files, i)
      invariant events == LoopEvents(o, hist, files, i)
    {
      var path := files[i];
      assert o[i] == OutcomeOf(disk, hist, path);
      var step, drawn;
      step, drawn, firstHist := DrawFile(disk, hist, path, i, colorIndex, firstHist);
      events := events + step;
      if drawn {
        legend := legend + [LegendEntry(i, path, "l")];
        colorIndex := colorIndex + 1;
        openFiles := openFiles + [i];
      }
    }
  }

  /** The closing loop of main: closes the still-open files in order. */
  method CloseFiles(handles: seq<nat>) returns (events: seq<Event>)
    ensures events == CloseAll(handles)
  {
    events := [];
    for k := 0 to |handles|
      invariant events + CloseAll(handles[k..]) == CloseAll(handles)
    {
      assert handles[k..][1..] == handles[k + 1..];
      events := events + [Close(handles[k])];
    }
  }

  /** main on the list of files the pattern matched. */
  method Plot<V>(disk: Disk<V>, pattern: string, files: seq<string>, hist: string, xlog: bool, ylog: bool, loglog: bool)
    returns (trace: seq<Event>, legend: seq<LegendEntry>)
    ensures files == [] ==> trace == [Report(NoFilesFound(pattern))] && legend == []
    ensures files != [] ==> trace == PlotEvents(disk, hist, files, xlog, ylog, loglog)
    ensures legend == LegendOf(Outcomes(disk, hist, files), files, |files|)
  {
    if |files| == 0 {
      trace := [Report(NoFilesFound(pattern))];
      legend := [];
      return;
    }
    trace := [CreateCanvas];
    if xlog || loglog {
      trace := trace + [SetLogX];
    }
    if ylog || loglog {
      trace := trace + [SetLogY];
    }
    assert trace == [CreateCanvas] + LogScaleEvents(xlog, ylog, loglog);
    var drawing, openFiles, colorIndex;
    drawing, openFiles, legend, colorIndex := DrawFiles(disk, hist, files);
    trace := trace + drawing;
    ghost var beforeLegend := trace;
    trace := trace + [DrawLegend, SaveAs(OutputImage)];
    var closing := CloseFiles(openFiles);
    trace := trace + closing;
    assert trace == beforeLegend + ([DrawLegend, SaveAs(OutputImage)] + closing);
  }

  lemma CountSplit<T>(a: seq<T>, b: seq<T>, x: T)
    ensures multiset(a + b)[x] == multiset(a)[x] + multiset(b)[x]
  {
  }

  /** The draw calls expected for the drawn handles s, in order: the j-th
      gets line color j + 1 and the fixed width, and only the first is drawn
      without "SAME". */
  function ExpectedDraws(s: seq<nat>): seq<Event>
  {
    seq(|s|, j requires 0 <= j < |s| => Draw(s[j], j + 1, LineWidth, DrawOption(j)))
  }

  /** Every file that is drawn is in open_files exactly once, and nothing
      else is. */
  lemma {:induction false} SuccessIndicesOnce(o: seq<Outcome>, n: nat, h: nat)
    requires n <= |o|
    ensures multiset(SuccessIndices(o, n))[h] == if h < n && o[h] == Present then 1 else 0
  {
    if n > 0 {
      var k, prev := n - 1, SuccessIndices(o, n - 1);
      SuccessIndicesOnce(o, k, h);
      if o[k] == Present {
        assert SuccessIndices(o, n) == prev + [k];
        MultiplicitySnoc(prev, k, h);
      } else {
        assert SuccessIndices(o, n) == prev + [] == prev;
      }
    }
  }

  lemma MultiplicitySnoc(s: seq<nat>, x: nat, h: nat)
    ensures multiset(s + [x])[h] == multiset(s)[h] + if x == h then 1 else 0
  {
    assert multiset(s + [x]) == multiset(s) + multiset([x]);
  }

  /** open_files holds only handles of the first n files. */
  lemma {:induction false} SuccessIndicesBounded(o: seq<Outcome>, n: nat)
    requires n <= |o|
    ensures forall j :: 0 <= j < |SuccessIndices(o, n)| ==> SuccessIndices(o, n)[j] < n
  {
    if n > 0 {
      SuccessIndicesBounded(o, n - 1);
    }
  }

  /** open_files is in list order. */
  lemma {:induction false} SuccessIndicesIncreasing(o: seq<Outcome>, n: nat)
    requires n <= |o|
    ensures forall j, j' :: 0 <= j < j' < |SuccessIndices(o, n)| ==> SuccessIndices(o, n)[j] < SuccessIndices(o, n)[j']
  {
    if n > 0 {
      SuccessIndicesIncreasing(o, n - 1);
      SuccessIndicesBounded(o, n - 1);
    }
  }

  /** The kinds of event the file loop produces. */
  predicate LoopKind(e: Event)
  {
    e.OpenCall? || e.Report? || e.Close? || e.Draw?
  }

  /** One iteration opens its file once. */
  lemma IterationOpens(outcome: Outcome, hist: string, path: string, h: nat, drawn: nat)
    ensures OpenedPaths(IterationEvents(outcome, hist, path, h, drawn)) == [path]
  {
    var step := IterationEvents(outcome, hist, path, h, drawn);
    var o, r := [step[0]], [step[1]];
    if outcome == Missing {
      var c := [step[2]];
      assert step == o + r + c;
      CollectAppend(o + r, c, OpenedPath);
      CollectAppend(o, r, OpenedPath);
    } else {
      assert step == o + r;
      CollectAppend(o, r, OpenedPath);
    }
  }

  /** One iteration draws exactly when the histogram is present, with the
      next color. */
  lemma IterationDraws(outcome: Outcome, hist: string, path: string, h: nat, drawn: nat)
    ensures Draws(IterationEvents(outcome, hist, path, h, drawn)) ==
      if outcome == Present then [Draw(h, drawn + 1, LineWidth, DrawOption(drawn))] else []
  {
    var step := IterationEvents(outcome, hist, path, h, drawn);
    var o, r := [step[0]], [step[1]];
    if outcome == Missing {
      var c := [step[2]];
      assert step == o + r + c;
      CollectAppend(o + r, c, DrawCall);
      CollectAppend(o, r, DrawCall);
    } else {
      assert step == o + r;
      CollectAppend(o, r, DrawCall);
    }
  }

  /** One iteration closes only its own file, and only when the histogram
      is missing. */
  lemma IterationCloses(outcome: Outcome, hist: string, path: string, h: nat, drawn: nat, x: nat)
    ensures Occurrences(IterationEvents(outcome, hist, path, h, drawn), Close(x)) ==
      if x == h && outcome == Missing then 1 else 0
  {
    var step := IterationEvents(outcome, hist, path, h, drawn);
    var o, r := [step[0]], [step[1]];
    if outcome == Missing {
      var c := [step[2]];
      assert step == o + r + c;
      OccurrencesAppend(o + r, c, Close(x));
      OccurrencesAppend(o, r, Close(x));
    } else {
      assert step == o + r;
      OccurrencesAppend(o, r, Close(x));
    }
  }

  /** The file loop opens every file once, in list order. */
  lemma {:induction false} LoopOpens(o: seq<Outcome>, hist: string, files: seq<string>, n: nat)
    requires |o| == |files| && n <= |files|
    ensures OpenedPaths(LoopEvents(o, hist, files, n)) == files[..n]
  {
    if n > 0 {
      var k, outcome, path, before := n - 1, o[n - 1], files[n - 1], files[..n - 1];
      var prev, drawn := LoopEvents(o, hist, files, k), |SuccessIndices(o, k)|;
      assert files[..n] == before + [path];
      LoopOpens(o, hist, files, k);
      IterationOpens(outcome, hist, path, k, drawn);
      CollectAppend(prev, IterationEvents(outcome, hist, path, k, drawn), OpenedPath);
    }
  }

  /** The draw calls of the first n iterations, one per present histogram;
      the color and option come from how many were drawn before it. */
  function DrawCalls(o: seq<Outcome>, n: nat): seq<Event>
    requires n <= |o|
  {
    if n == 0 then []
    else
      var drawn := |SuccessIndices(o, n - 1)|;
      DrawCalls(o, n - 1) + if o[n - 1] == Present then [Draw(n - 1, drawn + 1, LineWidth, DrawOption(drawn))] else []
  }

  /** The file loop draws the present histograms in order, the k-th drawn
      one with color k + 1, the first alone and the others over it. */
  lemma {:induction false} LoopDraws(o: seq<Outcome>, hist: string, files: seq<string>, n: nat)
    requires |o| == |files| && n <= |files|
    ensures Draws(LoopEvents(o, hist, files, n)) == DrawCalls(o, n)
  {
    if n > 0 {
      var k, outcome, path := n - 1, o[n - 1], files[n - 1];
      var prev, drawn := LoopEvents(o, hist, files, k), |SuccessIndices(o, k)|;
      LoopDraws(o, hist, files, k);
      IterationDraws(outcome, hist, path, k, drawn);
      CollectAppend(prev, IterationEvents(outcome, hist, path, k, drawn), DrawCall);
    }
  }

  /** The draw calls are those expected for the drawn handles, in order. */
  lemma {:induction false} DrawCallsExpected(o: seq<Outcome>, n: nat)
    requires n <= |o|
    ensures DrawCalls(o, n) == ExpectedDraws(SuccessIndices(o, n))
  {
    if n > 0 {
      var s := SuccessIndices(o, n - 1);
      DrawCallsExpected(o, n - 1);
      if o[n - 1] == Present {
        ExpectedDrawsSnoc(s, n - 1);
      } else {
        assert s + [] == s;
      }
    }
  }

  lemma ExpectedDrawsSnoc(s: seq<nat>, h: nat)
    ensures ExpectedDraws(s + [h]) == ExpectedDraws(s) + [Draw(h, |s| + 1, LineWidth, DrawOption(|s|))]
  {
  }

  /** The file loop closes exactly the files whose histogram is missing. */
  lemma {:induction false} LoopCloses(o: seq<Outcome>, hist: string, files: seq<string>, n: nat, x: nat)
    requires |o| == |files| && n <= |files|
    ensures Occurrences(LoopEvents(o, hist, files, n), Close(x)) == if x < n && o[x] == Missing then 1 else 0
  {
    if n > 0 {
      var k, outcome, path := n - 1, o[n - 1], files[n - 1];
      var prev, drawn := LoopEvents(o, hist, files, k), |SuccessIndices(o, k)|;
      LoopCloses(o, hist, files, k, x);
      IterationCloses(outcome, hist, path, k, drawn, x);
      OccurrencesAppend(prev, IterationEvents(outcome, hist, path, k, drawn), Close(x));
    }
  }

  lemma {:induction false} LoopKinds(o: seq<Outcome>, hist: string, files: seq<string>, n: nat)
    requires |o| == |files| && n <= |files|
    ensures forall e :: e in LoopEvents(o, hist, files, n) ==> LoopKind(e)
  {
    if n > 0 {
      LoopKinds(o, hist, files, n - 1);
    }
  }

  /** The final loop emits only closes. */
  lemma {:induction false} CloseAllKinds(s: seq<nat>)
    ensures forall e :: e in CloseAll(s) ==> e.Close?
    decreases |s|
  {
    if s != [] {
      CloseAllKinds(s[1..]);
    }
  }

  /** The final loop closes each handle as often as it is in open_files. */
  lemma {:induction false} CloseAllCount(s: seq<nat>, h: nat)
    ensures Occurrences(CloseAll(s), Close(h)) == multiset(s)[h]
    decreases |s|
  {
    if s != [] {
      CloseAllCount(s[1..], h);
      assert s == [s[0]] + s[1..];
      CountSplit([s[0]], s[1..], h);
      OccurrencesAppend([Close(s[0])], CloseAll(s[1..]), Close(h));
    }
  }

  /** The legend has one entry per drawn file, in draw order, labelled with
      that file's name. */
  lemma {:induction false} LegendFollowsDraws(o: seq<Outcome>, files: seq<string>, n: nat)
    requires |o| == |files| && n <= |files|
    ensures |LegendOf(o, files, n)| == |SuccessIndices(o, n)|
    ensures forall j :: 0 <= j < |SuccessIndices(o, n)| ==>
      SuccessIndices(o, n)[j] < n &&
      LegendOf(o, files, n)[j] == LegendEntry(SuccessIndices(o, n)[j], files[SuccessIndices(o, n)[j]], "l")
  {
    if n > 0 {
      LegendFollowsDraws(o, files, n - 1);
      assert SuccessIndices(o, n) == SuccessIndices(o, n - 1) + if o[n - 1] == Present then [n - 1] else [];
    }
  }

  /** The canvas set-up selects nothing for a pick that ignores it. */
  lemma SetupSelectsNothing<T>(xlog: bool, ylog: bool, loglog: bool, pick: Event -> Option<T>)
    requires pick(CreateCanvas).None? && pick(SetLogX).None? && pick(SetLogY).None?
    ensures Collect([CreateCanvas] + LogScaleEvents(xlog, ylog, loglog), pick) == []
  {
    CollectAppend([CreateCanvas], LogScaleEvents(xlog, ylog, loglog), pick);
    CollectAppend(if xlog || loglog then [SetLogX] else [], if ylog || loglog then [SetLogY] else [], pick);
  }

  lemma {:induction false} CloseAllSelectsNothing<T>(s: seq<nat>, pick: Event -> Option<T>)
    requires forall h :: pick(Close(h)).None?
    ensures Collect(CloseAll(s), pick) == []
    decreases |s|
  {
    if s != [] {
      CloseAllSelectsNothing(s[1..], pick);
      CollectAppend([Close(s[0])], CloseAll(s[1..]), pick);
    }
  }

  /** The legend draw, the save and the closes select nothing for a pick
      that ignores them. */
  lemma FinishSelectsNothing<T>(s: seq<nat>, pick: Event -> Option<T>)
    requires pick(DrawLegend).None? && pick(SaveAs(OutputImage)).None?
    requires forall h :: pick(Close(h)).None?
    ensures Collect([DrawLegend, SaveAs(OutputImage)] + CloseAll(s), pick) == []
  {
    CloseAllSelectsNothing(s, pick);
    CollectAppend([DrawLegend, SaveAs(OutputImage)], CloseAll(s), pick);
    CollectCons([DrawLegend, SaveAs(OutputImage)], pick);
    assert [DrawLegend, SaveAs(OutputImage)][1..] == [SaveAs(OutputImage)];
  }

  /** Every matched file is opened once, in list order. */
  lemma PlotOpens<V>(disk: Disk<V>, hist: string, files: seq<string>, xlog: bool, ylog: bool, loglog: bool)
    ensures OpenedPaths(PlotEvents(disk, hist, files, xlog, ylog, loglog)) == files
  {
    var o := Outcomes(disk, hist, files);
    var head := [CreateCanvas] + LogScaleEvents(xlog, ylog, loglog);
    var loop := LoopEvents(o, hist, files, |files|);
    var tail := [DrawLegend, SaveAs(OutputImage)] + CloseAll(SuccessIndices(o, |files|));
    assert PlotEvents(disk, hist, files, xlog, ylog, loglog) == head + loop + tail;
    assert OpenedPaths(loop) == files by {
      LoopOpens(o, hist, files, |files|);
      assert files[..|files|] == files;
    }
    assert OpenedPaths(head + loop) == files by {
      CollectAppend(head, loop, OpenedPath);
      SetupSelectsNothing(xlog, ylog, loglog, OpenedPath);
    }
    CollectAppend(head + loop, tail, OpenedPath);
    FinishSelectsNothing(SuccessIndices(o, |files|), OpenedPath);
    assert files + [] == files;
  }

  /** The drawn files are drawn in list order; the k-th drawn one gets line
      color k, line width 2, and the option "" for the first and "SAME" for
      the others; the legend lists the same files in the same order. */
  lemma PlotDraws<V>(disk: Disk<V>, hist: string, files: seq<string>, xlog: bool, ylog: bool, loglog: bool)
    ensures var s := SuccessIndices(Outcomes(disk, hist, files), |files|);
      var legend := LegendOf(Outcomes(disk, hist, files), files, |files|);
      Draws(PlotEvents(disk, hist, files, xlog, ylog, loglog)) == ExpectedDraws(s) &&
      |legend| == |s| &&
      forall j :: 0 <= j < |s| ==> s[j] < |files| && legend[j] == LegendEntry(s[j], files[s[j]], "l")
  {
    var o := Outcomes(disk, hist, files);
    var head := [CreateCanvas] + LogScaleEvents(xlog, ylog, loglog);
    var loop := LoopEvents(o, hist, files, |files|);
    var tail := [DrawLegend, SaveAs(OutputImage)] + CloseAll(SuccessIndices(o, |files|));
    assert PlotEvents(disk, hist, files, xlog, ylog, loglog) == head + loop + tail;
    CollectAppend(head + loop, tail, DrawCall);
    CollectAppend(head, loop, DrawCall);
    SetupSelectsNothing(xlog, ylog, loglog, DrawCall);
    FinishSelectsNothing(SuccessIndices(o, |files|), DrawCall);
    LoopDraws(o, hist, files, |files|);
    DrawCallsExpected(o, |files|);
    LegendFollowsDraws(o, files, |files|);
  }

  /** A file is drawn exactly when it opens and holds the histogram, and
      each such file once. */
  lemma DrawnFiles<V>(disk: Disk<V>, hist: string, files: seq<string>, h: nat)
    ensures multiset(SuccessIndices(Outcomes(disk, hist, files), |files|))[h] ==
      if h < |files| && disk(files[h]).Some? && hist in disk(files[h]).value.objects then 1 else 0
    ensures forall j, j' :: 0 <= j < j' < |SuccessIndices(Outcomes(disk, hist, files), |files|)| ==>
      SuccessIndices(Outcomes(disk, hist, files), |files|)[j] < SuccessIndices(Outcomes(disk, hist, files), |files|)[j']
  {
    SuccessIndicesOnce(Outcomes(disk, hist, files), |files|, h);
    SuccessIndicesIncreasing(Outcomes(disk, hist, files), |files|);
  }

  /** Every file that opens is closed exactly once, whether its histogram
      was found or not, and nothing else is closed. */
  lemma PlotCloses<V>(disk: Disk<V>, hist: string, files: seq<string>, xlog: bool, ylog: bool, loglog: bool, h: nat)
    ensures Occurrences(PlotEvents(disk, hist, files, xlog, ylog, loglog), Close(h)) ==
      if h < |files| && disk(files[h]).Some? then 1 else 0
  {
    var o := Outcomes(disk, hist, files);
    OutcomesClose(o, hist, files, xlog, ylog, loglog, h);
    if h < |files| {
      assert o[h] == OutcomeOf(disk, hist, files[h]);
    }
  }

  /** PlotCloses for any list of outcomes. */
  lemma OutcomesClose(o: seq<Outcome>, hist: string, files: seq<string>, xlog: bool, ylog: bool, loglog: bool, h: nat)
    requires |o| == |files|
    ensures Occurrences(([CreateCanvas] + LogScaleEvents(xlog, ylog, loglog)) + LoopEvents(o, hist, files, |files|)
      + ([DrawLegend, SaveAs(OutputImage)] + CloseAll(SuccessIndices(o, |files|))), Close(h)) ==
      if h < |files| && o[h] != Unopened then 1 else 0
  {
    var s := SuccessIndices(o, |files|);
    var head := [CreateCanvas] + LogScaleEvents(xlog, ylog, loglog);
    var middle := [DrawLegend, SaveAs(OutputImage)];
    OccurrencesOfPieces(head, LoopEvents(o, hist, files, |files|), middle, CloseAll(s), Close(h));
    OccurrencesAbsent(head, Close(h));
    OccurrencesAbsent(middle, Close(h));
    LoopCloses(o, hist, files, |files|, h);
    DrawnClosedOnce(o, |files|, h);
  }

  /** The closing loop closes each drawn file once and nothing else. */
  lemma DrawnClosedOnce(o: seq<Outcome>, n: nat, h: nat)
    requires n <= |o|
    ensures Occurrences(CloseAll(SuccessIndices(o, n)), Close(h)) == if h < n && o[h] == Present then 1 else 0
  {
    CloseAllCount(SuccessIndices(o, n), h);
    SuccessIndicesOnce(o, n, h);
  }

  lemma OccurrencesOfPieces(a: seq<Event>, b: seq<Event>, c: seq<Event>, d: seq<Event>, x: Event)
    ensures Occurrences(a + b + (c + d), x) == Occurrences(a, x) + Occurrences(b, x) + Occurrences(c, x) + Occurrences(d, x)
  {
    OccurrencesAppend(a + b, c + d, x);
    OccurrencesAppend(a, b, x);
    OccurrencesAppend(c, d, x);
  }

  /** The x axis is logarithmic exactly when --xlog or --loglog is given,
      the y axis exactly when --ylog or --loglog is given. */
  lemma PlotLogScales<V>(disk: Disk<V>, hist: string, files: seq<string>, xlog: bool, ylog: bool, loglog: bool)
    ensures SetLogX in PlotEvents(disk, hist, files, xlog, ylog, loglog) <==> xlog || loglog
    ensures SetLogY in PlotEvents(disk, hist, files, xlog, ylog, loglog) <==> ylog || loglog
  {
    var o := Outcomes(disk, hist, files);
    var head := [CreateCanvas] + LogScaleEvents(xlog, ylog, loglog);
    var loop := LoopEvents(o, hist, files, |files|);
    var tail := [DrawLegend, SaveAs(OutputImage)] + CloseAll(SuccessIndices(o, |files|));
    assert PlotEvents(disk, hist, files, xlog, ylog, loglog) == head + loop + tail;
    assert SetLogX !in loop && SetLogY !in loop by {
      LoopKinds(o, hist, files, |files|);
    }
    assert SetLogX !in tail && SetLogY !in tail by {
      CloseAllKinds(SuccessIndices(o, |files|));
    }
  }

  /** The legend is drawn and the image saved once, after everything the
      file loop does and before the remaining files are closed (so after
      every draw); only closes follow. */
  lemma PlotSavesAfterDrawing<V>(disk: Disk<V>, hist: string, files: seq<string>, xlog: bool, ylog: bool, loglog: bool)
    ensures var t := PlotEvents(disk, hist, files, xlog, ylog, loglog);
      var p := 1 + |LogScaleEvents(xlog, ylog, loglog)| + |LoopEvents(Outcomes(disk, hist, files), hist, files, |files|)|;
      p + 1 < |t| && t[p] == DrawLegend && t[p + 1] == SaveAs(OutputImage) &&
      (forall j :: 0 <= j < p ==> LoopKind(t[j]) || t[j] in [CreateCanvas, SetLogX, SetLogY]) &&
      (forall j :: p + 1 < j < |t| ==> t[j].Close?)
  {
    var o := Outcomes(disk, hist, files);
    var setup := [CreateCanvas] + LogScaleEvents(xlog, ylog, loglog);
    SetupKinds(xlog, ylog, loglog);
    LoopKinds(o, hist, files, |files|);
    CloseAllKinds(SuccessIndices(o, |files|));
    SaveOrder(setup, LoopEvents(o, hist, files, |files|), CloseAll(SuccessIndices(o, |files|)));
  }

  lemma SetupKinds(xlog: bool, ylog: bool, loglog: bool)
    ensures forall e :: e in [CreateCanvas] + LogScaleEvents(xlog, ylog, loglog) ==> e in [CreateCanvas, SetLogX, SetLogY]
  {
  }

  /** Where the legend draw and the save sit in a trace made of set-up
      events, loop events, those two and closes. */
  lemma SaveOrder(setup: seq<Event>, loop: seq<Event>, closing: seq<Event>)
    requires forall e :: e in setup ==> e in [CreateCanvas, SetLogX, SetLogY]
    requires forall e :: e in loop ==> LoopKind(e)
    requires forall e :: e in closing ==> e.Close?
    ensures var t := setup + loop + ([DrawLegend, SaveAs(OutputImage)] + closing);
      var p := |setup| + |loop|;
      p + 1 < |t| && t[p] == DrawLegend && t[p + 1] == SaveAs(OutputImage) &&
      (forall j :: 0 <= j < p ==> LoopKind(t[j]) || t[j] in [CreateCanvas, SetLogX, SetLogY]) &&
      (forall j :: p + 1 < j < |t| ==> t[j].Close?)
  {
    var head := setup + loop;
    var tail := [DrawLegend, SaveAs(OutputImage)] + closing;
    var t := head + tail;
    var p := |head|;
    assert t[p] == tail[0] && t[p + 1] == tail[1];
    forall j | 0 <= j < p
      ensures LoopKind(t[j]) || t[j] in [CreateCanvas, SetLogX, SetLogY]
    {
      assert t[j] == head[j];
      if j < |setup| {
        assert head[j] == setup[j] && setup[j] in setup;
      } else {
        assert head[j] == loop[j - |setup|] && loop[j - |setup|] in loop;
      }
    }
    forall j | p + 1 < j < |t|
      ensures t[j].Close?
    {
      assert t[j] == tail[j - p] == closing[j - p - 2];
      assert closing[j - p - 2] in closing;
    }
  }

  lemma DrawnAmongFour(o: seq<Outcome>)
    requires o == [Present, Unopened, Present, Present]
    ensures SuccessIndices(o, 4) == [0, 2, 3]
  {
    assert SuccessIndices(o, 1) == [0];
    assert SuccessIndices(o, 2) == [0];
    assert SuccessIndices(o, 3) == [0, 2];
  }

  /** The outcomes of four matched files of which only the second does not
      open. */
  lemma SecondOfFourUnopened<V>(disk: Disk<V>, hist: string, files: seq<string>)
    requires |files| == 4
    requires disk(files[1]).None?
    requires forall k :: 0 <= k < 4 && k != 1 ==> disk(files[k]).Some? && hist in disk(files[k]).value.objects
    ensures Outcomes(disk, hist, files) == [Present, Unopened, Present, Present]
    ensures SuccessIndices(Outcomes(disk, hist, files), 4) == [0, 2, 3]
  {
    var o := Outcomes(disk, hist, files);
    assert o[0] == OutcomeOf(disk, hist, files[0]);
    assert o[1] == OutcomeOf(disk, hist, files[1]);
    assert o[2] == OutcomeOf(disk, hist, files[2]);
    assert o[3] == OutcomeOf(disk, hist, files[3]);
    DrawnAmongFour(o);
  }

  /** Four matched files of which the second does not open: the other three
      are drawn with colors 1, 2 and 3, only the first without "SAME", and
      the legend lists those three. */
  lemma PlotSkipsUnopenedFile<V>(disk: Disk<V>, hist: string, files: seq<string>, xlog: bool, ylog: bool, loglog: bool)
    requires |files| == 4
    requires disk(files[1]).None?
    requires forall k :: 0 <= k < 4 && k != 1 ==> disk(files[k]).Some? && hist in disk(files[k]).value.objects
    ensures Draws(PlotEvents(disk, hist, files, xlog, ylog, loglog)) ==
      [Draw(0, 1, 2, ""), Draw(2, 2, 2, "SAME"), Draw(3, 3, 2, "SAME")]
    ensures LegendOf(Outcomes(disk, hist, files), files, 4) ==
      [LegendEntry(0, files[0], "l"), LegendEntry(2, files[2], "l"), LegendEntry(3, files[3], "l")]
  {
    SecondOfFourUnopened(disk, hist, files);
    PlotDraws(disk, hist, files, xlog, ylog, loglog);
    assert ExpectedDraws([0, 2, 3]) == [Draw(0, 1, 2, ""), Draw(2, 2, 2, "SAME"), Draw(3, 3, 2, "SAME")];
  }

  /** In the same setting each of the three drawn files is closed once and
      the unopened one never. */
  lemma PlotClosesOnlyOpenedFiles<V>(disk: Disk<V>, hist: string, files: seq<string>, xlog: bool, ylog: bool, loglog: bool)
    requires |files| == 4
    requires disk(files[1]).None?
    requires forall k :: 0 <= k < 4 && k != 1 ==> disk(files[k]).Some? && hist in disk(files[k]).value.objects
    ensures forall h :: h in [0, 2, 3] ==> Occurrences(PlotEvents(disk, hist, files, xlog, ylog, loglog), Close(h)) == 1
    ensures Occurrences(PlotEvents(disk, hist, files, xlog, ylog, loglog), Close(1)) == 0
  {
    forall h | h in [0, 2, 3]
      ensures Occurrences(PlotEvents(disk, hist, files, xlog, ylog, loglog), Close(h)) == 1
    {
      PlotCloses(disk, hist, files, xlog, ylog, loglog, h);
    }
    PlotCloses(disk, hist, files, xlog, ylog, loglog, 1);
  }

}
