# DataAnalysis histogram tools, modelled in Dafny

The repository has three small Python scripts built on ROOT:

- `Extract1D2DIstogram.py` opens one ROOT file and looks up a named histogram. It writes the bins of that histogram to a tab-separated text file: three columns for a 1D histogram, four for a 2D one.
- `Extract1D2DIstogram_txt.py` does the same for every file a wildcard pattern matches. A failure on one file only skips that file.
- `IstogramComparisonPlot.py` overlays the named histogram from every matched file on one canvas. Each file that opens and holds the histogram is drawn with the next line color and a width of 2, and gets a legend entry. The canvas is saved as `IstogramsPlotOutput.png`, and every file kept open is closed at the end.

The model keeps the deterministic logic of these scripts and abstracts ROOT:

- A histogram is a bin count per axis plus total accessor functions from bin indices to bin centers, contents and errors (`RootModel`). The values have an uninterpreted type `V`.
- A ROOT file is a map from object names to objects. The disk is a function from paths to `Option` of a file; `None` stands for a null or zombie `TFile.Open`.
- Number formatting (`f"{x}"`) is an uninterpreted function `fmt: V -> string`.
- Every side effect is an event appended to a trace (`Trace`). A file's handle is its position in the list.

The modules:

| module | file | models |
|---|---|---|
| `RootModel` | root_model.dfy | histograms, ROOT files, `Get`, the TH1/TH2 test |
| `Text` | text.dfy | lines, tab-joined fields and a reader that splits them back |
| `Trace` | trace.dfy | the events and filters over a trace |
| `Extraction` | extraction.dfy | the two extraction loops and the two save functions (identical in both extractors) |
| `OutputNaming` | output_naming.dfy | the output-name expression, with `os.path.basename` and `os.path.splitext` |
| `SingleFileExtractor` | single_file_extractor.dfy | `main` of the single-file extractor, which is also the loop body of the batch extractor |
| `BatchExtractor` | batch_extractor.dfy | `main` of the batch extractor |
| `OverlayPlotter` | overlay_plotter.dfy | `main` of the overlay plotter |

Each loop of the source is a `method` with a `for` loop. Its invariants tie it to a prefix-recursive specification function (`Bins1D`, `Concat` over the batch's `Rounds`, `LoopEvents`, `LegendOf`, …), and the properties are proved as lemmas about those functions.

Notes on what the code does:

- Both extractors test "TH1 and not TH2" first and then "TH2". Testing TH2 first would classify every object the same way, because every TH2 is a TH1. A TH3 derives from TH1 but not from TH2, so it takes the 1D path, with its bins read through the one-index accessors for 1..GetNbinsX(). In the model, `TH1Object` stands for any TH1 that is not a TH2, with whatever opaque values its one-index `center`, `content` and `error` accessors return.
- The two extractors share the same extraction, save and open/look-up/dispatch/close code. The batch extractor's loop body is the single-file `main` with `continue` where that has `return`. One method, `SingleFileExtractor.ExtractFile`, models both.

## Model

| member | source | states |
|---|---|---|
| RootModel.Classify | Extract1D2DIstogram_txt.py:66-76 | A TH2 is routed to the 2D path, a TH1 that is not a TH2 to the 1D path, and anything else is unrecognised. |
| Extraction.Bins1D | Extract1D2DIstogram_txt.py:13-17 | The 1D record list of bins 1..m has m entries, and entry k holds center, content and error of bin k+1. |
| Extraction.Column2D | Extract1D2DIstogram_txt.py:25-30 | The inner loop for x bin i yields ny records, and entry j holds the x center of bin i, the y center of bin j+1 and the content and error of cell (i, j+1). |
| Extraction.Bins2D | Extract1D2DIstogram_txt.py:24-30 | The nested loops over x bins 1..m yield m*ny records. |
| Extraction.Extract1D | Extract1D2DIstogram_txt.py:10-18 | There are exactly GetNbinsX() records, and record k holds center, content and error of bin k+1. Bins 0 and n+1 are never read. |
| Extraction.Extract2D | Extract1D2DIstogram_txt.py:20-31 | There are exactly nx*ny records, and record k uses x bin k/ny+1 and y bin k%ny+1 (x outer, y inner, both 1-based). |
| Extraction.Bins2DPositions | Extract1D2DIstogram.py:18-32 | The nested traversal yields nx*ny records, with record k at x bin k/ny+1 and y bin k%ny+1. |
| Extraction.KthBinInGrid | Extract1D2DIstogram.py:24-25 | Every position of the 2D record list names an in-range bin: 1 <= x <= nx and 1 <= y <= ny. |
| Extraction.Bins2DOrder | Extract1D2DIstogram.py:24-25 | Records come in x-outer, y-inner lexicographic order of their bin pairs. |
| Extraction.Bins1DReadsOnlyInnerBins | Extract1D2DIstogram.py:5-16 | The 1D table depends only on bins 1..n: two histograms that agree on those bins give the same records. |
| Extraction.Bins2DReadsOnlyInnerBins | Extract1D2DIstogram.py:18-32 | The 2D table depends only on bins 1..nx by 1..ny. Underflow and overflow bins are never read. |
| Extraction.Save1D | Extract1D2DIstogram_txt.py:33-37 | The written text is the header line followed by one line per record, in record order, each ending in a newline. |
| Extraction.Save2D | Extract1D2DIstogram_txt.py:39-43 | The written text is the header "X\tY\tValue\tError" followed by one line per record, in order. |
| Extraction.Line1DJoinsFields | Extract1D2DIstogram.py:38 | A 1D data line is its three formatted fields joined by tabs. |
| Extraction.Line2DJoinsFields | Extract1D2DIstogram.py:44 | A 2D data line is its four formatted fields joined by tabs. |
| Extraction.Header1DJoinsNames | Extract1D2DIstogram.py:36 | The 1D header line is the three column names "Bin Center", "Bin Content" and "Bin Error" joined by tabs. |
| Extraction.Header2DJoinsNames | Extract1D2DIstogram.py:42 | The 2D header line is the four column names "X", "Y", "Value" and "Error" joined by tabs. |
| Extraction.Table1DRoundTrip | Extract1D2DIstogram.py:34-38 | The 1D file has records+1 lines. Splitting it at newlines and tabs gives back the three header names and, for every record in order, its three formatted values. This needs formatted numbers that contain no tab or newline. |
| Extraction.Table2DRoundTrip | Extract1D2DIstogram.py:40-44 | The 2D file has records+1 lines. Splitting it gives the four header names and, for every record, its four formatted values. |
| Text.SplitJoin | Extract1D2DIstogram.py:38 | Joining fields that do not contain the separator and splitting again gives the fields back. |
| Text.SplitLinesToText | Extract1D2DIstogram.py:35-38 | A file written line by line splits at newlines into exactly those lines, plus the empty remainder after the last newline. |
| Text.ParseJoinedLines | Extract1D2DIstogram.py:35-44 | Rows of tab- and newline-free fields, written one tab-joined line each, read back as exactly those rows. |
| OutputNaming.LastIndexOf | Extract1D2DIstogram_txt.py:69 | The index found is -1 or holds the searched character, and no later index holds it: it is the last occurrence. |
| OutputNaming.BasenameIsLastComponent | Extract1D2DIstogram_txt.py:69 | The base name is the longest suffix of the path without '/', and a '/' precedes it unless it is the whole path. |
| OutputNaming.StripExtensionIsStem | Extract1D2DIstogram_txt.py:73 | The stem is a prefix of the base name. It drops the last '.' and everything after it, unless only dots precede that '.'. Otherwise it keeps the whole name. |
| OutputNaming.OutputNameShape | Extract1D2DIstogram_txt.py:69 | The output name is the histogram name, an underscore, a part without '/', and ".txt", so no directory of the input enters it. When the histogram name has no '/', the whole name has none and the table is written in the working directory. A histogram name that is a path inside the ROOT file ("sub/h") gives a relative path ("sub/h_run.txt"). |
| OutputNaming.BasenameIgnoresDirectory | Extract1D2DIstogram.py:76 | Prefixing a directory does not change the base name. |
| OutputNaming.OutputNameIgnoresDirectory | Extract1D2DIstogram.py:80 | The output name depends only on the histogram name and the base name of the input file. |
| OutputNaming.StripExtensionDropsLast | Extract1D2DIstogram_txt.py:69 | Only the last extension is removed ("a.tar.gz" gives "a.tar"). |
| OutputNaming.StripExtensionKeepsLeadingDots | Extract1D2DIstogram_txt.py:73 | Leading dots are not an extension: ".bashrc" keeps its name. |
| OutputNaming.OutputNameOfTypicalPath | Extract1D2DIstogram_txt.py:69 | dir/name.ext with histogram H is written to H_name.txt. |
| SingleFileExtractor.ExtractFile | Extract1D2DIstogram.py:55-89 | The events are those of one round: a failed open and its report; or the open, a missing-histogram report and the close; or the open, the dispatch event, the close and "Data saved" exactly when the extracted list is non-empty. |
| SingleFileExtractor.Dispatch | Extract1D2DIstogram.py:72-83 | A 1D or 2D histogram is extracted and saved under the derived name; any other object is reported as unrecognised and gives no data. |
| SingleFileExtractor.Tabulate1D | Extract1D2DIstogram.py:74-77 | The 1D branch writes the table of bins 1..n under the derived output name and keeps those records as its data. |
| SingleFileExtractor.Tabulate2D | Extract1D2DIstogram.py:78-81 | The 2D branch writes the table of the nx*ny bins under the derived output name and keeps those records as its data. |
| SingleFileExtractor.HasRecordsIffNonEmpty | Extract1D2DIstogram.py:88-89 | The list that `if data:` checks is non-empty exactly when the histogram has at least one bin on every axis. |
| SingleFileExtractor.DispatchEvent | Extract1D2DIstogram.py:66-83 | The one event between the lookup and the close is never an open or a close, and it is a write exactly when the object found is a 1D or 2D histogram. |
| SingleFileExtractor.AfterClose | Extract1D2DIstogram.py:88-89 | After the close there is at most one event, and it is a report. |
| SingleFileExtractor.FileCloses | Extract1D2DIstogram.py:59-86 | On every path after a successful open the file is closed exactly once, through its own handle. An unopened file is never closed. |
| SingleFileExtractor.FileWrites | Extract1D2DIstogram.py:73-83 | At most one output file is written. It is written exactly when the object is a 1D or 2D histogram, and under the derived name. |
| SingleFileExtractor.FileOpens | Extract1D2DIstogram.py:56 | Every round makes exactly one open call, for its own path. |
| SingleFileExtractor.FailureReason | Extract1D2DIstogram.py:59-83 | A file that gives a table has no failure reason, any other file exactly one; an unopenable file's reason is "could not open" for its path. |
| SingleFileExtractor.FileErrors | Extract1D2DIstogram.py:59-83 | The errors a round reports are exactly its failure reason: "could not open" for an unopenable file, "not found" naming histogram and path for a missing histogram, "not recognized" for another object, and none when a table is written. |
| SingleFileExtractor.FileReportsSaved | Extract1D2DIstogram.py:88-89 | "Data saved" is reported exactly when a table was written for a histogram with a bin on every axis (by HasRecordsIffNonEmpty, a non-empty record list), and it names that table's file. |
| BatchExtractor.ExtractBatch | Extract1D2DIstogram_txt.py:52-79 | The events are the per-file rounds in list order. An empty match list gives only the "no files found" report. |
| BatchExtractor.BatchVisitsEveryFile | Extract1D2DIstogram_txt.py:56-60 | Every file of the list is opened once, in list order: no failure aborts the batch. |
| BatchExtractor.BatchClosesEachOpenedFileOnce | Extract1D2DIstogram_txt.py:61-77 | Each file that opened is closed exactly once, and no other handle is closed. |
| BatchExtractor.BatchWritesTabulatedFiles | Extract1D2DIstogram_txt.py:66-76 | The written files are the output names of exactly the files that open and hold a 1D or 2D histogram, in list order. |
| BatchExtractor.BatchReportsEachFailure | Extract1D2DIstogram_txt.py:58-76 | The errors reported are the files' failure reasons in list order. Errors and written tables together number exactly the files of the list. |
| BatchExtractor.TabulatedNamesCount | Extract1D2DIstogram_txt.py:56-79 | The tabulated names and the failure reasons of the first n files number n together: each file gives one or the other. |
| BatchExtractor.TabulatedNamesMembers | Extract1D2DIstogram_txt.py:66-76 | A name is among the written names exactly when it is the output name of a file that opens and holds a 1D or 2D histogram. |
| BatchExtractor.BatchResilience | Extract1D2DIstogram_txt.py:56-79 | Given an unopenable file, then a file without the histogram, then a good file: one table is written (for the third), the errors are "could not open" for the first and "not found" for the second, in that order, and all three files are visited. |
| OverlayPlotter.DrawFile | IstogramComparisonPlot.py:44-63 | One iteration. An unopened file is reported and skipped. A file without the histogram is reported, closed and skipped. Otherwise the histogram is drawn with the current color and width 2, without "SAME" only if it is the first. first_hist is updated only by the first drawn file. |
| OverlayPlotter.DrawFiles | IstogramComparisonPlot.py:33-69 | The loop's events, open_files and legend are the spec functions applied to the per-file outcomes. The final color_index is one more than the number of legend entries and of open files. |
| OverlayPlotter.CloseFiles | IstogramComparisonPlot.py:78-79 | The final loop closes exactly the handles of open_files, in order. |
| OverlayPlotter.Plot | IstogramComparisonPlot.py:18-79 | An empty match list gives only the report: no canvas, draw or save. Otherwise the events are canvas, log flags, the file loop, legend draw, save and closes. The legend is the one the loop builds. |
| OverlayPlotter.SuccessIndicesOnce | IstogramComparisonPlot.py:69 | open_files holds each drawn file exactly once and nothing else. |
| OverlayPlotter.SuccessIndicesBounded | IstogramComparisonPlot.py:43-69 | Every handle in open_files is one of the files visited so far. |
| OverlayPlotter.SuccessIndicesIncreasing | IstogramComparisonPlot.py:69 | open_files is in visit order. |
| OverlayPlotter.IterationOpens | IstogramComparisonPlot.py:44 | Each iteration makes exactly one open call, for its own file. |
| OverlayPlotter.IterationDraws | IstogramComparisonPlot.py:55-63 | An iteration draws exactly when the histogram was found. The draw uses color drawn+1, width 2 and "SAME" after the first. |
| OverlayPlotter.IterationCloses | IstogramComparisonPlot.py:49-53 | Inside the loop, a file is closed only when its histogram is missing, and then once. |
| OverlayPlotter.LoopOpens | IstogramComparisonPlot.py:43-47 | The loop opens every file of the list once, in order: failures do not stop it. |
| OverlayPlotter.LoopDraws | IstogramComparisonPlot.py:55-68 | The loop draws once per found histogram, in visit order. Each draw has color one more than the number drawn before it. Failed opens and missing histograms do not advance the color. Only the first draw lacks "SAME". |
| OverlayPlotter.DrawCallsExpected | IstogramComparisonPlot.py:55-68 | Those draws are, for the j-th entry of open_files, a draw of that file with color j+1 and width 2, "SAME" for every j but 0. |
| OverlayPlotter.LoopCloses | IstogramComparisonPlot.py:49-53 | The loop closes exactly the files whose histogram is missing, each once. |
| OverlayPlotter.LoopKinds | IstogramComparisonPlot.py:43-69 | The loop emits only opens, reports, closes and draws. |
| OverlayPlotter.CloseAllKinds | IstogramComparisonPlot.py:78-79 | The final loop emits only closes. |
| OverlayPlotter.CloseAllCount | IstogramComparisonPlot.py:78-79 | The final loop closes each handle exactly as often as it occurs in open_files. |
| OverlayPlotter.LegendFollowsDraws | IstogramComparisonPlot.py:66-69 | The legend has one entry per file in open_files, in the same order, each labelled with that file's name and marker "l". |
| OverlayPlotter.PlotOpens | IstogramComparisonPlot.py:43-47 | An invocation opens every matched file exactly once, in list order. |
| OverlayPlotter.PlotDraws | IstogramComparisonPlot.py:55-69 | The draws of an invocation are one per drawn file, in order, with color j+1 for the j-th. The legend matches them entry for entry. |
| OverlayPlotter.DrawnFiles | IstogramComparisonPlot.py:49-69 | A file is in open_files, once, exactly when it opens and holds the histogram. open_files is strictly increasing. |
| OverlayPlotter.PlotCloses | IstogramComparisonPlot.py:44-79 | Every file that opens is closed exactly once, whether its histogram was found or not. A file that does not open is never closed. |
| OverlayPlotter.LogScaleFlags | IstogramComparisonPlot.py:27-30 | The set-up calls SetLogx exactly when --xlog or --loglog is given and SetLogy exactly when --ylog or --loglog is given, and makes no other call. |
| OverlayPlotter.PlotLogScales | IstogramComparisonPlot.py:27-30 | The x axis is logarithmic iff --xlog or --loglog is given, and the y axis iff --ylog or --loglog is given. |
| OverlayPlotter.PlotSavesAfterDrawing | IstogramComparisonPlot.py:72-79 | After the file loop, the legend is drawn once and then the fixed image name is saved once. Only setup and loop events precede them, and only closes follow. |
| OverlayPlotter.SecondOfFourUnopened | IstogramComparisonPlot.py:43-69 | With four files where only the second does not open, open_files is [0, 2, 3]. |
| OverlayPlotter.PlotSkipsUnopenedFile | IstogramComparisonPlot.py:43-79 | With four files where the second does not open, the other three are drawn with colors 1, 2 and 3, and only the first lacks "SAME". The legend has three entries, for those three files in order. |
| OverlayPlotter.PlotClosesOnlyOpenedFiles | IstogramComparisonPlot.py:49-79 | In the same invocation, files 0, 2 and 3 are each closed once and the second file is never closed. |

## Left out

- RootModel.Get: `file.Get(name)` is a map lookup that gives `None` for a missing name. It has no contract, because it is ROOT's behaviour taken as given; the lookup's effect on a round is stated by `DispatchEvent`, `FileErrors` and `FileWrites`.
- ROOT itself: `TFile.Open`, `IsZombie`, `Get`, the bin accessors, `TCanvas`, `TLegend`, `SetLogx`, `SetLogy`, `Draw` and `SaveAs` are foreign calls. They appear as the abstract disk and histogram values and as trace events.
- Numeric bin values and their formatting: the values have an opaque type and `f"{x}"` is an uninterpreted function. The text round trip recovers the formatted fields, not the numbers, because that would need float parsing. The round trip also goes through a reader that has no counterpart in the scripts.
- Paths are POSIX paths: `os.path.basename` and `os.path.splitext` are modelled as `posixpath`, which splits only at '/'. On Windows, `ntpath` also splits at '\\' and after a drive letter; the model does not cover that.
- Command-line parsing (`argparse`) and `glob.glob`: the matched file list, the pattern and the flags are parameters. The order of the list is whatever glob returns.
- Writing files and printing: a written table is a `WriteText` event carrying its name and full text. A message is a `Report` event of one of five kinds, not its wording. The plotter's "Failed to open file" and the extractors' "Error: Could not open file" are therefore both `CannotOpen`.
- Canvas size, legend coordinates and rendering: floating-point layout with no behaviour to state.
- OverlayPlotter.DrawFile: `SetLineColor` and `SetLineWidth` are folded into the `Draw` event, which carries the color, width and option. The model does not record that the two setters are separate calls made before `Draw`.
- OverlayPlotter.OutcomeOf: the plotter never checks the class of the object it finds, and the model draws any object that is found. An object that has `SetLineColor`, `SetLineWidth` and `Draw` (a TGraph, a TF1, a TTree) is drawn like a histogram in the script too. An object without them raises AttributeError, which ends `main` before the legend draw, the `SaveAs` and the closes; the model does not capture that exception.
- Exceptions that ROOT or the file system can raise (an unwritable output file, for instance) have no counterpart in the model.
- By Python semantics, a 1D histogram with zero bins still writes its header-only file but prints no "Data saved"; the model keeps exactly that behaviour.
