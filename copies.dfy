/** How the signature tables of the two copies relate: the package copy's
    answer is the src copy's answer with the kinds coarsened, except where
    the src copy's ZIP refinement runs short. */
module Copies {
  import opened Results
  import opened Bytes
  import Src = SrcFat32
  import Pkg = PkgFat32

  /** The package copy's name for a src-copy kind: "exe/dll" is "exe",
      every ZIP refinement is plain "zip", and "%PDF" is "ai". */
  function Coarsen(k: Src.Kind): Pkg.Kind
  {
    match k
    case ExeDll => Pkg.Exe
    case Bmp => Pkg.Bmp
    case Jpg => Pkg.Jpg
    case ZipDocx | ZipPptx | ZipXlsx | ZipNamed(_) => Pkg.Zip
    case Pdf => Pkg.Ai
    case Gif => Pkg.Gif
    case Png => Pkg.Png
    case Avi => Pkg.Avi
  }

  /** On the same 16 bytes both copies agree on whether there is a hit and
      on its coarse kind; the only extra failure of the src copy is a
      ZIP local file header cut short by the end of the volume. */
  lemma ClassifiersAgree(sigData: seq<byte>, volume: seq<byte>, offset: nat)
    ensures var s, p := Src.MatchSignature(sigData, volume, offset), Pkg.MatchSignature(sigData);
      && (s.Ok? ==> p == Ok(match s.value case None => None case Some(k) => Some(Coarsen(k))))
      && (s.Err? ==> p.Err? || (p == Ok(Some(Pkg.Zip)) && Src.MatchSignatureZip(volume, offset).Err?))
  {
  }
}
