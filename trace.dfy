/** The observable side effects of the scripts as an event trace: calls into
    ROOT that open, close, draw and save, text files written, and messages
    printed. A file handle is the ordinal of the TFile.Open call that
    produced it (the k-th file of the list gets handle k). */
module Trace {
  import opened RootModel

  /** The messages the scripts print, by kind. */
  datatype Message =
    | NoFilesFound(pattern: string)
    | CannotOpen(path: string)
    | HistogramNotFound(hist: string, path: string)
    | NotRecognized(hist: string)
    | DataSaved(output: string)

  datatype Event =
    | OpenCall(handle: nat, path: string, ok: bool)   // TFile.Open; ok = neither null nor zombie
    | Close(handle: nat)                              // TFile.Close
    | Report(msg: Message)                            // print
    | WriteText(output: string, text: string)         // open(output, 'w') and its writes
    | CreateCanvas                                    // ROOT.TCanvas(...)
    | SetLogX                                         // canvas.SetLogx()
    | SetLogY                                         // canvas.SetLogy()
    | Draw(handle: nat, color: int, width: int, option: string)
                                                      // Draw(option) on the histogram read through
                                                      // `handle`, with its line color and width
    | DrawLegend                                      // legend.Draw()
    | SaveAs(output: string)                          // canvas.SaveAs(output)

  /** The values `pick` selects from a trace, in trace order. */
  function Collect<T>(t: seq<Event>, pick: Event -> Option<T>): (r: seq<T>)
    ensures |r| <= |t|
  {
    if t == [] then []
    else (if pick(t[0]).Some? then [pick(t[0]).value] else []) + Collect(t[1..], pick)
  }

  lemma {:induction false} CollectAppend<T>(a: seq<Event>, b: seq<Event>, pick: Event -> Option<T>)
    ensures Collect(a + b, pick) == Collect(a, pick) + Collect(b, pick)
    decreases |a|
  {
    if a == [] {
      assert a + b == b;
    } else {
      var head := if pick(a[0]).Some? then [pick(a[0]).value] else [];
      assert (a + b)[0] == a[0];
      assert (a + b)[1..] == a[1..] + b;
      assert Collect(a + b, pick) == head + Collect(a[1..] + b, pick);
      CollectAppend(a[1..], b, pick);
      assert Collect(a, pick) == head + Collect(a[1..], pick);
    }
  }

  lemma CollectCons<T>(t: seq<Event>, pick: Event -> Option<T>)
    requires |t| >= 1
    ensures Collect(t, pick) == Collect([t[0]], pick) + Collect(t[1..], pick)
  {
    assert [t[0]][1..] == [];
  }

  /** How many times `e` occurs in `t`. */
  function Occurrences(t: seq<Event>, e: Event): nat
  {
    if t == [] then 0 else (if t[0] == e then 1 else 0) + Occurrences(t[1..], e)
  }

  lemma {:induction false} OccurrencesAppend(a: seq<Event>, b: seq<Event>, e: Event)
    ensures Occurrences(a + b, e) == Occurrences(a, e) + Occurrences(b, e)
    decreases |a|
  {
    if a == [] {
      assert a + b == b;
    } else {
      assert (a + b)[0] == a[0];
      assert (a + b)[1..] == a[1..] + b;
      OccurrencesAppend(a[1..], b, e);
    }
  }

  lemma {:induction false} OccurrencesAbsent(t: seq<Event>, e: Event)
    requires e !in t
    ensures Occurrences(t, e) == 0
    decreases |t|
  {
    if t != [] {
      assert t[0] in t;
      assert forall x :: x in t[1..] ==> x in t;
      OccurrencesAbsent(t[1..], e);
    }
  }

  /** The count is the multiplicity of `e` in the trace's multiset. */
  lemma {:induction false} OccurrencesMultiplicity(t: seq<Event>, e: Event)
    ensures Occurrences(t, e) == multiset(t)[e]
    decreases |t|
  {
    if t != [] {
      OccurrencesMultiplicity(t[1..], e);
      assert t == [t[0]] + t[1..];
      assert multiset(t) == multiset([t[0]]) + multiset(t[1..]);
    }
  }

  /** The concatenation of the first n pieces. */
  function Concat<T>(pieces: seq<seq<T>>, n: nat): seq<T>
    requires n <= |pieces|
  {
    if n == 0 then [] else Concat(pieces, n - 1) + pieces[n - 1]
  }

  /** An element of a concatenation comes from one of its pieces. */
  lemma {:induction false} ConcatMembers<T>(pieces: seq<seq<T>>, n: nat, x: T)
    requires n <= |pieces|
    ensures x in Concat(pieces, n) <==> exists k :: 0 <= k < n && x in pieces[k]
  {
    if n > 0 {
      ConcatMembers(pieces, n - 1, x);
      assert Concat(pieces, n) == Concat(pieces, n - 1) + pieces[n - 1];
    }
  }

  /** What `pick` selects from a concatenation of rounds is the concatenation
      of what it selects from each round. */
  lemma {:induction false} CollectConcat<T>(rounds: seq<seq<Event>>, parts: seq<seq<T>>, pick: Event -> Option<T>, n: nat)
    requires |parts| == |rounds| && n <= |rounds|
    requires forall k :: 0 <= k < |rounds| ==> Collect(rounds[k], pick) == parts[k]
    ensures Collect(Concat(rounds, n), pick) == Concat(parts, n)
  {
    if n > 0 {
      CollectConcat(rounds, parts, pick, n - 1);
      CollectAppend(Concat(rounds, n - 1), rounds[n - 1], pick);
    }
  }

  /** Closes of handle h over a concatenation of rounds, when only round h
      can close it, and does so once exactly when it opened its file. */
  lemma {:induction false} ClosesConcat(rounds: seq<seq<Event>>, didOpen: seq<bool>, h: nat, n: nat)
    requires |didOpen| == |rounds| && n <= |rounds|
    requires forall k :: 0 <= k < |rounds| ==> Occurrences(rounds[k], Close(h)) == if k == h && didOpen[k] then 1 else 0
    ensures Occurrences(Concat(rounds, n), Close(h)) == if h < n && didOpen[h] then 1 else 0
  {
    if n > 0 {
      ClosesConcat(rounds, didOpen, h, n - 1);
      OccurrencesAppend(Concat(rounds, n - 1), rounds[n - 1], Close(h));
    }
  }

  lemma {:induction false} ConcatSingletons<T>(s: seq<T>, n: nat)
    requires n <= |s|
    ensures Concat(seq(|s|, k requires 0 <= k < |s| => [s[k]]), n) == s[..n]
  {
    if n > 0 {
      ConcatSingletons(s, n - 1);
      assert s[..n] == s[..n - 1] + [s[n - 1]];
    }
  }

  function WrittenName(e: Event): Option<string> { if e.WriteText? then Some(e.output) else None }
  function OpenedPath(e: Event): Option<string> { if e.OpenCall? then Some(e.path) else None }
  function DrawCall(e: Event): Option<Event> { if e.Draw? then Some(e) else None }
  function ErrorReport(e: Event): Option<Message> {
    if e.Report? && (e.msg.CannotOpen? || e.msg.HistogramNotFound? || e.msg.NotRecognized?) then Some(e.msg) else None
  }

  /** The names of the text files written, in order. */
  function Written(t: seq<Event>): seq<string> { Collect(t, WrittenName) }

  /** The paths passed to TFile.Open, in order. */
  function OpenedPaths(t: seq<Event>): seq<string> { Collect(t, OpenedPath) }

  /** The draw calls, in order. */
  function Draws(t: seq<Event>): seq<Event> { Collect(t, DrawCall) }

  /** The per-file error messages, in order. */
  function Errors(t: seq<Event>): seq<Message> { Collect(t, ErrorReport) }
}
