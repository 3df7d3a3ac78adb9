/** The slice of ROOT that the three scripts use, as values.

    A histogram is its bin count per axis plus total accessor functions over
    bin indices; the values they return are of an uninterpreted type `V`
    (the floats of the scripts). Bin 0 is the underflow bin and bin n+1 the
    overflow bin of an axis with n bins; the accessors are defined on every
    integer, so nothing here forbids asking for them. */
module RootModel {

  datatype Option<T> = None | Some(value: T)

  /** GetNbinsX(), GetBinCenter(i), GetBinContent(i), GetBinError(i). */
  datatype Hist1D<V> = Hist1D(nbins: nat, center: int -> V, content: int -> V, error: int -> V)

  /** GetNbinsX(), GetNbinsY(), GetXaxis().GetBinCenter(i),
      GetYaxis().GetBinCenter(j), GetBinContent(i, j), GetBinError(i, j). */
  datatype Hist2D<V> = Hist2D(
    nbinsX: nat, nbinsY: nat,
    centerX: int -> V, centerY: int -> V,
    content: (int, int) -> V, error: (int, int) -> V)

  /** A named object stored in a ROOT file, by class. In ROOT's hierarchy TH2
      derives from TH1, so a TH2Object is an instance of both. */
  datatype RootObject<V> =
    | TH1Object(hist1: Hist1D<V>)   // an instance of TH1 that is not a TH2
    | TH2Object(hist2: Hist2D<V>)   // an instance of TH2
    | OtherObject                   // any object that is not a TH1

  /** isinstance(o, ROOT.TH1) */
  predicate IsTH1<V>(o: RootObject<V>) { o.TH1Object? || o.TH2Object? }

  /** isinstance(o, ROOT.TH2) */
  predicate IsTH2<V>(o: RootObject<V>) { o.TH2Object? }

  /** An opened (non-zombie) ROOT file: its objects by name. */
  datatype RootFile<V> = RootFile(objects: map<string, RootObject<V>>)

  /** TFile.Open(path): None when the call returns null or a zombie file. */
  type Disk<V> = string -> Option<RootFile<V>>

  /** file.Get(name): None when the result is null (falsy). */
  function Get<V>(f: RootFile<V>, name: string): Option<RootObject<V>>
  {
    if name in f.objects then Some(f.objects[name]) else None
  }

  /** The three outcomes of the scripts' dimensionality test. */
  datatype Kind<V> = OneD(h1: Hist1D<V>) | TwoD(h2: Hist2D<V>) | Unrecognized

  /** The test as the extractors write it: TH1-but-not-TH2 first, then TH2,
      otherwise not a recognised histogram. */
  function Classify<V>(o: RootObject<V>): (k: Kind<V>)
    ensures o.TH1Object? ==> k == OneD(o.hist1)
    ensures o.TH2Object? ==> k == TwoD(o.hist2)
    ensures o.OtherObject? ==> k == Unrecognized
  {
    if IsTH1(o) && !IsTH2(o) then OneD(o.hist1)
    else if IsTH2(o) then TwoD(o.hist2)
    else Unrecognized
  }
}
