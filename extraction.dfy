/** Bin extraction and table serialisation, as in extract_1d_histogram_data,
    extract_2d_histogram_data, save_1d_data_to_file and save_2d_data_to_file
    (identical in both extractor scripts). The text of a saved table is
    modelled as a string; number formatting (f"{x}") is the parameter `fmt`. */
module Extraction {
  import opened RootModel
  import opened Text

  datatype Record1D<V> = Record1D(center: V, content: V, error: V)
  datatype Record2D<V> = Record2D(centerX: V, centerY: V, content: V, error: V)

  /** The record the 1D loop builds for bin i. */
  function BinRecord1D<V>(h: Hist1D<V>, i: int): Record1D<V>
  {
    Record1D(h.center(i), h.content(i), h.error(i))
  }

  /** The record the 2D loop builds for x-bin i and y-bin j. */
  function BinRecord2D<V>(h: Hist2D<V>, i: int, j: int): Record2D<V>
  {
    Record2D(h.centerX(i), h.centerY(j), h.content(i, j), h.error(i, j))
  }

  /** The records of bins 1..m, in that order. */
  function Bins1D<V>(h: Hist1D<V>, m: nat): (r: seq<Record1D<V>>)
    ensures |r| == m
    ensures forall k :: 0 <= k < m ==> r[k] == BinRecord1D(h, k + 1)
  {
    if m == 0 then [] else Bins1D(h, m - 1) + [BinRecord1D(h, m)]
  }

  /** The records of x-bin i with y-bins 1..m, in that order. */
  function Column2D<V>(h: Hist2D<V>, i: int, m: nat): (r: seq<Record2D<V>>)
    ensures |r| == m
    ensures forall j :: 0 <= j < m ==> r[j] == BinRecord2D(h, i, j + 1)
  {
    if m == 0 then [] else Column2D(h, i, m - 1) + [BinRecord2D(h, i, m)]
  }

  /** Writing k as q * ny + r with 0 <= r < ny determines q and r. */
  lemma GridPosition(q: int, r: int, ny: int)
    requires 0 <= q && 0 <= r < ny
    ensures (q * ny + r) / ny == q && (q * ny + r) % ny == r
  {
    var k := q * ny + r;
    var q', r' := k / ny, k % ny;
    assert k == q' * ny + r' && 0 <= r' < ny;
    if q' < q {
      MulAtLeast(q - q', ny);
      assert false;
    } else if q' > q {
      MulAtLeast(q' - q, ny);
      assert false;
    }
  }

  lemma MulAtLeast(a: int, b: int)
    requires a >= 1 && b >= 0
    ensures a * b >= b
  {
  }

  /** The records of x-bins 1..m with all their y-bins, x outer and y inner. */
  function Bins2D<V>(h: Hist2D<V>, m: nat): (r: seq<Record2D<V>>)
    ensures |r| == m * h.nbinsY
  {
    if m == 0 then [] else Bins2D(h, m - 1) + Column2D(h, m, h.nbinsY)
  }

  /** Record k of the 2D records comes from x-bin k / ny + 1 and y-bin
      k % ny + 1, and there are m * ny of them. */
  lemma {:induction false} Bins2DPositions<V>(h: Hist2D<V>, m: nat)
    ensures |Bins2D(h, m)| == m * h.nbinsY
    ensures forall k :: 0 <= k < |Bins2D(h, m)| ==>
      Bins2D(h, m)[k] == BinRecord2D(h, k / h.nbinsY + 1, k % h.nbinsY + 1)
  {
    if m > 0 {
      var ny := h.nbinsY;
      Bins2DPositions(h, m - 1);
      var prev, column := Bins2D(h, m - 1), Column2D(h, m, ny);
      assert |prev| == (m - 1) * ny;
      assert m * ny == (m - 1) * ny + ny;
      forall k | 0 <= k < m * ny ensures Bins2D(h, m)[k] == BinRecord2D(h, k / ny + 1, k % ny + 1) {
        if k >= |prev| {
          GridPosition(m - 1, k - |prev|, ny);
          assert k == (m - 1) * ny + (k - |prev|);
        }
      }
    }
  }

  /** extract_1d_histogram_data */
  method Extract1D<V>(h: Hist1D<V>) returns (data: seq<Record1D<V>>)
    ensures data == Bins1D(h, h.nbins)
    ensures |data| == h.nbins
    ensures forall k :: 0 <= k < |data| ==> data[k] == BinRecord1D(h, k + 1)
  {
    var nBins := h.nbins;
    data := [];
    for i := 1 to nBins + 1
      invariant data == Bins1D(h, i - 1)
    {
      var binCenter := h.center(i);
      var binContent := h.content(i);
      var binError := h.error(i);
      data := data + [Record1D(binCenter, binContent, binError)];
    }
  }

  /** extract_2d_histogram_data */
  method Extract2D<V>(h: Hist2D<V>) returns (data: seq<Record2D<V>>)
    ensures data == Bins2D(h, h.nbinsX)
    ensures |data| == h.nbinsX * h.nbinsY
    ensures forall k :: 0 <= k < |data| ==> data[k] == BinRecord2D(h, k / h.nbinsY + 1, k % h.nbinsY + 1)
  {
    var nBinsX, nBinsY := h.nbinsX, h.nbinsY;
    data := [];
    for i := 1 to nBinsX + 1
      invariant data == Bins2D(h, i - 1)
    {
      for j := 1 to nBinsY + 1
        invariant data == Bins2D(h, i - 1) + Column2D(h, i, j - 1)
      {
        var binCenterX := h.centerX(i);
        var binCenterY := h.centerY(j);
        var binContent := h.content(i, j);
        var binError := h.error(i, j);
        data := data + [Record2D(binCenterX, binCenterY, binContent, binError)];
      }
    }
    Bins2DPositions(h, nBinsX);
  }

  /** Bins outside 1..n play no part in 1D extraction: two histograms that
      agree on bins 1..n, whatever their underflow and overflow bins hold,
      give the same records. */
  lemma Bins1DReadsOnlyInnerBins<V>(h: Hist1D<V>, g: Hist1D<V>)
    requires h.nbins == g.nbins
    requires forall i :: 1 <= i <= h.nbins ==> BinRecord1D(h, i) == BinRecord1D(g, i)
    ensures Bins1D(h, h.nbins) == Bins1D(g, g.nbins)
  {
    var a, b := Bins1D(h, h.nbins), Bins1D(g, g.nbins);
    forall k | 0 <= k < |a| ensures a[k] == b[k] {
      assert BinRecord1D(h, k + 1) == BinRecord1D(g, k + 1);
    }
  }

  /** Bins outside 1..nx by 1..ny play no part in 2D extraction. */
  lemma Bins2DReadsOnlyInnerBins<V>(h: Hist2D<V>, g: Hist2D<V>)
    requires h.nbinsX == g.nbinsX && h.nbinsY == g.nbinsY
    requires forall i, j :: 1 <= i <= h.nbinsX && 1 <= j <= h.nbinsY ==> BinRecord2D(h, i, j) == BinRecord2D(g, i, j)
    ensures Bins2D(h, h.nbinsX) == Bins2D(g, g.nbinsX)
  {
    var a, b := Bins2D(h, h.nbinsX), Bins2D(g, g.nbinsX);
    var ny := h.nbinsY;
    Bins2DPositions(h, h.nbinsX);
    Bins2DPositions(g, g.nbinsX);
    forall k | 0 <= k < |a| ensures a[k] == b[k] {
      KthBinInGrid(k, h.nbinsX, ny);
      assert BinRecord2D(h, k / ny + 1, k % ny + 1) == BinRecord2D(g, k / ny + 1, k % ny + 1);
    }
  }

  /** Position k of an nx-by-ny grid names an inner x-bin and an inner y-bin. */
  lemma KthBinInGrid(k: int, nx: nat, ny: nat)
    requires 0 <= k < nx * ny
    ensures ny > 0 && 1 <= k / ny + 1 <= nx && 1 <= k % ny + 1 <= ny
  {
    var q := k / ny;
    assert k == q * ny + k % ny;
  }

  /** The 2D order is x outer, y inner: an earlier record has a smaller
      x-bin, or the same x-bin and a smaller y-bin. */
  lemma Bins2DOrder(k: int, k': int, ny: nat)
    requires 0 <= k < k' && ny > 0
    ensures k / ny < k' / ny || (k / ny == k' / ny && k % ny < k' % ny)
  {
    var q, q' := k / ny, k' / ny;
    assert k == q * ny + k % ny && k' == q' * ny + k' % ny;
    if q > q' {
      assert (q - q') * ny >= ny by { MulAtLeast(q - q', ny); }
      assert false;
    }
  }

  const Header1D := "Bin Center\tBin Content\tBin Error"
  const Header2D := "X\tY\tValue\tError"

  /** f"{bin_center}\t{bin_content}\t{bin_error}" */
  function Line1D<V>(fmt: V -> string, r: Record1D<V>): string
  {
    fmt(r.center) + "\t" + fmt(r.content) + "\t" + fmt(r.error)
  }

  /** f"{bin_center_x}\t{bin_center_y}\t{bin_content}\t{bin_error}" */
  function Line2D<V>(fmt: V -> string, r: Record2D<V>): string
  {
    fmt(r.centerX) + "\t" + fmt(r.centerY) + "\t" + fmt(r.content) + "\t" + fmt(r.error)
  }

  /** The lines of a saved 1D table: the header, then one line per record. */
  function Table1D<V>(fmt: V -> string, data: seq<Record1D<V>>): seq<string>
  {
    [Header1D] + seq(|data|, k requires 0 <= k < |data| => Line1D(fmt, data[k]))
  }

  /** The lines of a saved 2D table: the header, then one line per record. */
  function Table2D<V>(fmt: V -> string, data: seq<Record2D<V>>): seq<string>
  {
    [Header2D] + seq(|data|, k requires 0 <= k < |data| => Line2D(fmt, data[k]))
  }

  /** save_1d_data_to_file: the text it writes. */
  method Save1D<V>(fmt: V -> string, data: seq<Record1D<V>>) returns (text: string)
    ensures text == LinesToText(Table1D(fmt, data))
  {
    text := Header1D + "\n";
    assert LinesToText([Header1D]) == Header1D + "\n" + LinesToText([]);
    assert Table1D(fmt, data[..0]) == [Header1D];
    for i := 0 to |data|
      invariant text == LinesToText(Table1D(fmt, data[..i]))
    {
      var r := data[i];
      var line := Line1D(fmt, r);
      assert Table1D(fmt, data[..i + 1]) == Table1D(fmt, data[..i]) + [line];
      LinesToTextSnoc(Table1D(fmt, data[..i]), line);
      text := text + line + "\n";
    }
    assert data[..|data|] == data;
  }

  /** save_2d_data_to_file: the text it writes. */
  method Save2D<V>(fmt: V -> string, data: seq<Record2D<V>>) returns (text: string)
    ensures text == LinesToText(Table2D(fmt, data))
  {
    text := Header2D + "\n";
    assert LinesToText([Header2D]) == Header2D + "\n" + LinesToText([]);
    assert Table2D(fmt, data[..0]) == [Header2D];
    for i := 0 to |data|
      invariant text == LinesToText(Table2D(fmt, data[..i]))
    {
      var r := data[i];
      var line := Line2D(fmt, r);
      assert Table2D(fmt, data[..i + 1]) == Table2D(fmt, data[..i]) + [line];
      LinesToTextSnoc(Table2D(fmt, data[..i]), line);
      text := text + line + "\n";
    }
    assert data[..|data|] == data;
  }

  /** The formatter never produces a tab or a newline (true of Python's
      rendering of floats). */
  ghost predicate PlainFormat<V(!new)>(fmt: V -> string)
  {
    forall v :: '\t' !in fmt(v) && '\n' !in fmt(v)
  }

  function Fields1D<V>(fmt: V -> string, r: Record1D<V>): seq<string>
  {
    [fmt(r.center), fmt(r.content), fmt(r.error)]
  }

  function Fields2D<V>(fmt: V -> string, r: Record2D<V>): seq<string>
  {
    [fmt(r.centerX), fmt(r.centerY), fmt(r.content), fmt(r.error)]
  }

  /** A saved 1D line is its three formatted fields joined by tabs. */
  lemma Line1DJoinsFields<V>(fmt: V -> string, r: Record1D<V>)
    ensures Line1D(fmt, r) == Join(Fields1D(fmt, r), '\t')
  {
    Join3(fmt(r.center), fmt(r.content), fmt(r.error), '\t');
  }

  /** A saved 2D line is its four formatted fields joined by tabs. */
  lemma Line2DJoinsFields<V>(fmt: V -> string, r: Record2D<V>)
    ensures Line2D(fmt, r) == Join(Fields2D(fmt, r), '\t')
  {
    Join4(fmt(r.centerX), fmt(r.centerY), fmt(r.content), fmt(r.error), '\t');
  }

  /** The 1D header line is the three column names joined by tabs. */
  lemma Header1DJoinsNames()
    ensures Join(["Bin Center", "Bin Content", "Bin Error"], '\t') == Header1D
  {
    Join3("Bin Center", "Bin Content", "Bin Error", '\t');
  }

  /** The 2D header line is the four column names joined by tabs. */
  lemma Header2DJoinsNames()
    ensures Join(["X", "Y", "Value", "Error"], '\t') == Header2D
  {
    Join4("X", "Y", "Value", "Error", '\t');
  }

  /** Reading a saved 1D table back gives the three header names, then the
      three formatted fields of every record, in extraction order; the file
      has one line more than there are records. */
  lemma Table1DRoundTrip<V(!new)>(fmt: V -> string, data: seq<Record1D<V>>)
    requires PlainFormat(fmt)
    ensures |Table1D(fmt, data)| == |data| + 1
    ensures ParseTable(LinesToText(Table1D(fmt, data))) ==
      [["Bin Center", "Bin Content", "Bin Error"]] + seq(|data|, k requires 0 <= k < |data| => Fields1D(fmt, data[k]))
  {
    var header := ["Bin Center", "Bin Content", "Bin Error"];
    var rows := [header] + seq(|data|, k requires 0 <= k < |data| => Fields1D(fmt, data[k]));
    var lines := Table1D(fmt, data);
    Header1DJoinsNames();
    forall j | 1 <= j < |lines| ensures lines[j] == Join(rows[j], '\t') {
      Line1DJoinsFields(fmt, data[j - 1]);
    }
    forall k | 0 <= k < |rows| ensures |rows[k]| >= 1 && PlainFields(rows[k]) {
      if k > 0 {
        assert rows[k] == Fields1D(fmt, data[k - 1]);
      }
    }
    assert lines == JoinedLines(rows, '\t');
    ParseJoinedLines(rows);
  }

  /** Reading a saved 2D table back gives the four header names, then the
      four formatted fields of every record, in extraction order; the file
      has one line more than there are records. */
  lemma Table2DRoundTrip<V(!new)>(fmt: V -> string, data: seq<Record2D<V>>)
    requires PlainFormat(fmt)
    ensures |Table2D(fmt, data)| == |data| + 1
    ensures ParseTable(LinesToText(Table2D(fmt, data))) ==
      [["X", "Y", "Value", "Error"]] + seq(|data|, k requires 0 <= k < |data| => Fields2D(fmt, data[k]))
  {
    var header := ["X", "Y", "Value", "Error"];
    var rows := [header] + seq(|data|, k requires 0 <= k < |data| => Fields2D(fmt, data[k]));
    var lines := Table2D(fmt, data);
    Header2DJoinsNames();
    forall j | 1 <= j < |lines| ensures lines[j] == Join(rows[j], '\t') {
      Line2DJoinsFields(fmt, data[j - 1]);
    }
    forall k | 0 <= k < |rows| ensures |rows[k]| >= 1 && PlainFields(rows[k]) {
      if k > 0 {
        assert rows[k] == Fields2D(fmt, data[k - 1]);
      }
    }
    assert lines == JoinedLines(rows, '\t');
    ParseJoinedLines(rows);
  }
}
