/** The carver in src/fat32.py: a signature table whose ZIP entry is
    refined by an ordered substring heuristic, and one scan loop
    (`carving_ex`) started at cluster 1 (`carving_all`) or at the FSInfo
    next-free hint (`carving_unallocated`), reporting each hit as the
    cluster number plus one. */
module SrcFat32 {
  import opened Results
  import opened Bytes
  import opened FatLayout
  import opened Scan

  /** The kinds `match_signature` returns: "exe/dll", "bmp", "jpg",
      "zip[docx]", "zip[pptx]", "zip[xlsx]", "zip{name}", "pdf", "gif",
      "png", "avi". */
  datatype Kind =
    | ExeDll | Bmp | Jpg
    | ZipDocx | ZipPptx | ZipXlsx
    /** The file name of the first local file header, as raw bytes. */
    | ZipNamed(name: seq<byte>)
    | Pdf | Gif | Png | Avi

  // ----- the ZIP refinement -----

  const WordDir: seq<byte> := [0x77, 0x6F, 0x72, 0x64, 0x2F]  // "word/"
  const PptDir: seq<byte> := [0x70, 0x70, 0x74, 0x2F]          // "ppt/"
  const XlDir: seq<byte> := [0x78, 0x6C, 0x2F]                 // "xl/"

  /** `match_signatrue_zip(offset)`: read 0x1000 bytes at the cluster and
      look for the OOXML part directories in a fixed order; failing those,
      take the file name from the first local file header (length '<H' at
      0x1A, name from 0x1E, cut short where the read ended). */
  function MatchSignatureZip(volume: seq<byte>, offset: nat): Result<Kind>
  {
    var zipData := Read(volume, offset, 0x1000);
    if Contains(zipData, WordDir) then Ok(ZipDocx)
    else if Contains(zipData, PptDir) then Ok(ZipPptx)
    else if Contains(zipData, XlDir) then Ok(ZipXlsx)
    else if |zipData| < 0x1C then Err(ShortRead)
    else
      var nameLen := U16LE(zipData, 0x1A);
      Ok(ZipNamed(zipData[Min(0x1E, |zipData|)..Min(0x1E + nameLen, |zipData|)]))
  }

  /** "word/" beats "ppt/", which beats "xl/"; only when none occurs in
      the bytes read is the local file header consulted, and only then can
      a short read stop the classification. */
  lemma ZipPrecedence(volume: seq<byte>, offset: nat)
    ensures var z, r := Read(volume, offset, 0x1000), MatchSignatureZip(volume, offset);
      && (r == Ok(ZipDocx) <==> exists i :: OccursAt(z, WordDir, i))
      && (r == Ok(ZipPptx) <==>
            (forall i :: !OccursAt(z, WordDir, i)) && exists i :: OccursAt(z, PptDir, i))
      && (r == Ok(ZipXlsx) <==>
            (forall i :: !OccursAt(z, WordDir, i) && !OccursAt(z, PptDir, i)) &&
            exists i :: OccursAt(z, XlDir, i))
      && (r.Err? <==>
            (forall i :: !OccursAt(z, WordDir, i) && !OccursAt(z, PptDir, i) && !OccursAt(z, XlDir, i)) &&
            |z| < 0x1C)
  {
    var z := Read(volume, offset, 0x1000);
    ContainsIff(z, WordDir);
    ContainsIff(z, PptDir);
    ContainsIff(z, XlDir);
  }

  /** The fallback name is the run of bytes right after the 30-byte local
      file header, as long as its '<H' length field at 0x1A says, cut short
      at the end of what was read. */
  lemma ZipNamedIsHeaderName(volume: seq<byte>, offset: nat)
    ensures var z, r := Read(volume, offset, 0x1000), MatchSignatureZip(volume, offset);
      r.Ok? && r.value.ZipNamed? ==>
        && |z| >= 0x1C
        && |r.value.name| == (if |z| <= 0x1E then 0 else Min(U16LE(z, 0x1A), |z| - 0x1E))
        && forall k :: 0 <= k < |r.value.name| ==> r.value.name[k] == volume[offset + 0x1E + k]
  {
  }

  // ----- the signature table -----

  /** `match_signature(sig_data, offset)`: the 16 bytes read at a cluster,
      tested big-endian, first as '>H' against MZ, BM and FF D8, then as
      '>L'. An unpack past the end of `sigData` raises. */
  function MatchSignature(sigData: seq<byte>, volume: seq<byte>, offset: nat): Result<Option<Kind>>
  {
    if |sigData| < 2 then Err(ShortRead)
    else
      var half := U16BE(sigData, 0);
      if half == 0x4D5A then Ok(Some(ExeDll))
      else if half == 0x424D then Ok(Some(Bmp))
      else if half == 0xFFD8 then Ok(Some(Jpg))
      else if |sigData| < 4 then Err(ShortRead)
      else
        var word := U32BE(sigData, 0);
        if word == 0x504B_0304 then
          match MatchSignatureZip(volume, offset)
          case Ok(k) => Ok(Some(k))
          case Err(e) => Err(e)
        else if word == 0x2550_4446 then Ok(Some(Pdf))
        else if word == 0x4749_4638 then Ok(Some(Gif))
        else if word == 0x8950_4E47 then Ok(Some(Png))
        else if word == 0x5249_4646 then Ok(Some(Avi))
        else Ok(None)
  }

  /** Leading two bytes that decide the kind by themselves. */
  const TwoByteMagic: map<seq<byte>, Kind> := map[
    [0x4D, 0x5A] := ExeDll,                 // "MZ"
    [0x42, 0x4D] := Bmp,                    // "BM"
    [0xFF, 0xD8] := Jpg                     // JPEG SOI
  ]

  /** "PK\x03\x04", a ZIP local file header. */
  const ZipMagic: seq<byte> := [0x50, 0x4B, 0x03, 0x04]

  /** Leading four bytes of the other kinds. */
  const FourByteMagic: map<seq<byte>, Kind> := map[
    [0x25, 0x50, 0x44, 0x46] := Pdf,        // "%PDF"
    [0x47, 0x49, 0x46, 0x38] := Gif,        // "GIF8"
    [0x89, 0x50, 0x4E, 0x47] := Png,        // "\x89PNG"
    [0x52, 0x49, 0x46, 0x46] := Avi         // "RIFF"
  ]

  /** The classifier as a table over byte prefixes. */
  function ByTable(sigData: seq<byte>, volume: seq<byte>, offset: nat): Result<Option<Kind>>
  {
    if |sigData| >= 2 && sigData[..2] in TwoByteMagic then Ok(Some(TwoByteMagic[sigData[..2]]))
    else if |sigData| < 4 then Err(ShortRead)
    else if sigData[..4] == ZipMagic then
      match MatchSignatureZip(volume, offset)
      case Ok(k) => Ok(Some(k))
      case Err(e) => Err(e)
    else if sigData[..4] in FourByteMagic then Ok(Some(FourByteMagic[sigData[..4]]))
    else Ok(None)
  }

  /** The integer comparisons of `match_signature` are exactly the byte
      table: every input gets the same answer. */
  lemma MatchSignatureIsTable(sigData: seq<byte>, volume: seq<byte>, offset: nat)
    ensures MatchSignature(sigData, volume, offset) == ByTable(sigData, volume, offset)
  {
    if |sigData| >= 2 {
      U16BEPrefix(sigData, 0x4D, 0x5A);
      U16BEPrefix(sigData, 0x42, 0x4D);
      U16BEPrefix(sigData, 0xFF, 0xD8);
    }
    if |sigData| >= 4 {
      U32BEPrefix(sigData, 0x50, 0x4B, 0x03, 0x04);
      U32BEPrefix(sigData, 0x25, 0x50, 0x44, 0x46);
      U32BEPrefix(sigData, 0x47, 0x49, 0x46, 0x38);
      U32BEPrefix(sigData, 0x89, 0x50, 0x4E, 0x47);
      U32BEPrefix(sigData, 0x52, 0x49, 0x46, 0x46);
    }
  }

  /** A two-byte signature decides the kind whatever follows it. */
  lemma TwoByteMagicWins(sigData: seq<byte>, volume: seq<byte>, offset: nat)
    requires |sigData| >= 2 && sigData[..2] in TwoByteMagic
    ensures MatchSignature(sigData, volume, offset) == Ok(Some(TwoByteMagic[sigData[..2]]))
  {
    MatchSignatureIsTable(sigData, volume, offset);
  }

  /** No hit exactly when four bytes were read and none of the
      signatures is a prefix of them. */
  lemma NoHitIff(sigData: seq<byte>, volume: seq<byte>, offset: nat)
    ensures MatchSignature(sigData, volume, offset) == Ok(None) <==>
      |sigData| >= 4 && sigData[..2] !in TwoByteMagic && sigData[..4] != ZipMagic &&
      sigData[..4] !in FourByteMagic
  {
    MatchSignatureIsTable(sigData, volume, offset);
  }

  // ----- one cluster, and the scan -----

  /** One iteration of the loop body at byte `offset`: read 16 bytes
      there and classify them. */
  function ClassifyAt(volume: seq<byte>, offset: nat): Result<Option<Kind>>
  {
    MatchSignature(Read(volume, offset, 0x10), volume, offset)
  }

  /** `ClassifyAt` on a fixed volume, as the loop's classifier. */
  function Classifier(volume: seq<byte>): nat -> Result<Option<Kind>>
  {
    (offset: nat) => ClassifyAt(volume, offset)
  }

  /** The classification of cluster number `c`. */
  function ClassifyCluster(volume: seq<byte>, b: BootSector, c: nat): Result<Option<Kind>>
  {
    Classifier(volume)(ClusterOffset(b, c))
  }

  /** Away from the end of the volume a cluster always classifies: only a
      short read can make `match_signature` raise. */
  lemma ClassifyClusterTotal(volume: seq<byte>, b: BootSector, c: nat)
    requires ClusterOffset(b, c) + 0x1C <= |volume|
    ensures ClassifyCluster(volume, b, c).Ok?
  {
    var offset := ClusterOffset(b, c);
    var z := Read(volume, offset, 0x1000);
    assert |z| >= 0x1C;
  }

  /** `while cluster_num <= free_cluster_count` from `start`: the clusters
      `start` to `bound` inclusive. */
  function VisitCount(start: nat, bound: nat): (n: nat)
    ensures start <= bound ==> start + n == bound + 1
    ensures bound < start ==> n == 0
  {
    if start <= bound then bound - start + 1 else 0
  }

  /** What `carving_ex(start)` reports when the loop bound is `bound`:
      clusters `start` to `bound`, from the offset of `start` one cluster
      at a time, each hit numbered `c + 1`. */
  function CarveSpec(volume: seq<byte>, b: BootSector, start: nat, bound: nat): Carve<Kind>
  {
    ClusterScan(Classifier(volume), b, start, VisitCount(start, bound), start + 1)
  }

  /** Hits are in increasing order, and each names, one too high, a
      cluster from `start` to `bound` that classified as the hit's kind. */
  lemma CarveSpecSound(volume: seq<byte>, b: BootSector, start: nat, bound: nat)
    ensures var r := CarveSpec(volume, b, start, bound);
      forall i, j :: 0 <= i < j < |r.hits| ==> r.hits[i].cluster < r.hits[j].cluster
    ensures var r := CarveSpec(volume, b, start, bound);
      forall h :: 0 <= h < |r.hits| ==>
        start + 1 <= r.hits[h].cluster <= bound + 1 &&
        ClassifyCluster(volume, b, r.hits[h].cluster - 1) == Ok(Some(r.hits[h].kind))
  {
    ClusterScanSound(Classifier(volume), b, start, VisitCount(start, bound), start + 1);
  }

  /** The scan completes exactly when every cluster from `start` to
      `bound` classified, and then it reports every one that classified as
      a kind, numbered one too high. */
  lemma CarveSpecComplete(volume: seq<byte>, b: BootSector, start: nat, bound: nat)
    ensures CarveSpec(volume, b, start, bound).status == Completed <==>
      forall c :: start <= c <= bound ==> ClassifyCluster(volume, b, c).Ok?
    ensures var r := CarveSpec(volume, b, start, bound);
      r.status == Completed ==>
        forall c, k :: start <= c <= bound && ClassifyCluster(volume, b, c) == Ok(Some(k)) ==>
          Hit(c + 1, k) in r.hits
  {
    var n := VisitCount(start, bound);
    ClusterScanCompletes(Classifier(volume), b, start, n, start + 1);
    ClusterScanComplete(Classifier(volume), b, start, n, start + 1);
    if CarveSpec(volume, b, start, bound).status == Completed {
      forall c | start <= c <= bound ensures ClassifyCluster(volume, b, c).Ok? {
        assert start <= c < start + n;
      }
    } else {
      var c :| start <= c < start + n && !Classifier(volume)(ClusterOffset(b, c)).Ok?;
      assert start <= c <= bound && !ClassifyCluster(volume, b, c).Ok?;
    }
  }

  /** A truncated scan keeps what it printed: every cluster before the one
      where it stopped (reported as `status.cluster`, so the cluster itself
      is `status.cluster - 1`) that classified as a kind is reported, as
      c + 1. */
  lemma CarveSpecTruncatedComplete(volume: seq<byte>, b: BootSector, start: nat, bound: nat)
    ensures var r := CarveSpec(volume, b, start, bound);
      r.status.Truncated? ==>
        forall c, k :: start <= c < r.status.cluster - 1 && ClassifyCluster(volume, b, c) == Ok(Some(k)) ==>
          Hit(c + 1, k) in r.hits
  {
    ClusterScanTruncatedComplete(Classifier(volume), b, start, VisitCount(start, bound), start + 1);
  }

  /** A scan stops only at a cluster whose read ran short, numbered one
      too high, after every cluster before it classified. */
  lemma CarveSpecStops(volume: seq<byte>, b: BootSector, start: nat, bound: nat)
    ensures var r := CarveSpec(volume, b, start, bound);
      r.status.Truncated? ==>
        && start + 1 <= r.status.cluster <= bound + 1
        && ClassifyCluster(volume, b, r.status.cluster - 1).Err?
        && forall c :: start <= c < r.status.cluster - 1 ==> ClassifyCluster(volume, b, c).Ok?
  {
    ClusterScanStops(Classifier(volume), b, start, VisitCount(start, bound), start + 1);
  }

  /** A run in which no cluster carries a signature reports nothing. */
  lemma CarveSpecNoHit(volume: seq<byte>, b: BootSector, start: nat, bound: nat)
    requires forall c :: start <= c <= bound ==> ClassifyCluster(volume, b, c) == Ok(None)
    ensures CarveSpec(volume, b, start, bound) == Carve([], Completed)
  {
    var n := VisitCount(start, bound);
    forall c | start <= c < start + n ensures Classifier(volume)(ClusterOffset(b, c)) == Ok(None) {
      assert ClassifyCluster(volume, b, c) == Ok(None);
    }
    ClusterScanQuiet(Classifier(volume), b, start, n, start + 1);
  }

  /** A run in which exactly one cluster `c0` carries a signature reports
      exactly that cluster, as `c0 + 1`. */
  lemma CarveSpecSingleHit(volume: seq<byte>, b: BootSector, start: nat, bound: nat, c0: nat, k: Kind)
    requires start <= c0 <= bound
    requires ClassifyCluster(volume, b, c0) == Ok(Some(k))
    requires forall c :: start <= c <= bound && c != c0 ==> ClassifyCluster(volume, b, c) == Ok(None)
    ensures CarveSpec(volume, b, start, bound) == Carve([Hit(c0 + 1, k)], Completed)
  {
    var n := VisitCount(start, bound);
    forall c | start <= c < start + n && c != c0 ensures Classifier(volume)(ClusterOffset(b, c)) == Ok(None) {
      assert ClassifyCluster(volume, b, c) == Ok(None);
    }
    ClusterScanLone(Classifier(volume), b, start, n, start + 1, c0, k);
  }

  // ----- the FAT32 object -----

  /** A FAT32 volume as the program holds it: the device (here the byte
      sequence of the whole volume) and the attributes the parse methods
      set. The ten boot-sector attributes are kept together in `boot`. */
  class FAT32 {
    const data: seq<byte>

    var boot: BootSector
    var fatSizeByte: nat
    var clusterCount: nat
    var dataClusterCount: int
    /** Absent until `ParseFsinfo` finds the FSInfo lead signature. */
    var freeClusterCount: Option<nat>
    var nextFreeClusterLocation: Option<nat>

    /** The device is open; nothing has been parsed yet. */
    constructor (volume: seq<byte>)
      ensures data == volume
      ensures freeClusterCount == None && nextFreeClusterLocation == None
    {
      data := volume;
      boot := BootSector(0, 0, 0, 0, 0, 0, 0, 0, [], []);
      fatSizeByte, clusterCount, dataClusterCount := 0, 0, 0;
      freeClusterCount, nextFreeClusterLocation := None, None;
    }

    /** The three derived attributes agree with the boot sector. */
    ghost predicate DerivedCounts()
      reads this
    {
      && fatSizeByte == FatSizeByte(boot)
      && clusterCount == ClusterCount(boot)
      && dataClusterCount == DataClusterCount(boot)
    }

    /** The state after a successful start-up on `data`. */
    ghost predicate Loaded()
      reads this
    {
      && ParseMetadata(data).Ok?
      && boot == ParseMetadata(data).value.boot
      && DerivedCounts()
      && match ParseMetadata(data).value.fsInfo
         case None => freeClusterCount == None && nextFreeClusterLocation == None
         case Some(info) =>
           freeClusterCount == Some(info.freeClusterCount) &&
           nextFreeClusterLocation == Some(info.nextFreeCluster)
    }

    /** `parse_bootsector`: on success every boot-sector attribute and the
        derived counts are set; on failure nothing is. */
    method ParseBootsector() returns (r: Outcome)
      modifies this
      ensures var d := DecodeBootSector(Read(data, 0, 0x200));
        && (d.Err? ==> r == Fail(d.error) && unchanged(this))
        && (d.Ok? ==> r == Pass && boot == d.value && DerivedCounts())
      ensures freeClusterCount == old(freeClusterCount)
      ensures nextFreeClusterLocation == old(nextFreeClusterLocation)
    {
      var bootsector := Read(data, 0, 0x200);
      var decoded := DecodeBootSector(bootsector);
      if decoded.Err? {
        return Fail(decoded.error);
      }
      boot := decoded.value;
      fatSizeByte := SectorToByte(boot, boot.fatSize);
      clusterCount := fatSizeByte / 4;
      dataClusterCount := clusterCount - 2;
      r := Pass;
    }

    /** `parse_fsinfo`: reads the sector at the fixed byte 0x200. With the
        wrong lead signature it returns and sets nothing; with the right one
        it sets both counters, the first one already set if the second
        unpack runs past the buffer. */
    method ParseFsinfo() returns (r: Outcome)
      modifies this
      ensures boot == old(boot)
      ensures fatSizeByte == old(fatSizeByte) && clusterCount == old(clusterCount)
      ensures dataClusterCount == old(dataClusterCount)
      ensures var fs := Read(data, 0x200, 0x200);
        && r == (match DecodeFsInfo(fs) case Err(e) => Fail(e) case Ok(_) => Pass)
        && (DecodeFsInfo(fs) == Ok(None) ==> unchanged(this))
        && (DecodeFsInfo(fs).Ok? && DecodeFsInfo(fs).value.Some? ==>
              freeClusterCount == Some(DecodeFsInfo(fs).value.value.freeClusterCount) &&
              nextFreeClusterLocation == Some(DecodeFsInfo(fs).value.value.nextFreeCluster))
        && (DecodeFsInfo(fs).Err? ==>
              nextFreeClusterLocation == old(nextFreeClusterLocation) &&
              freeClusterCount == if |fs| >= 0x1EC then Some(U32LE(fs, 0x1E8)) else old(freeClusterCount))
    {
      var fsinfo := Read(data, 0x200, 0x200);
      if |fsinfo| < 4 {
        return Fail(ShortRead);
      }
      var magic := U32LE(fsinfo, 0);
      if magic != FsInfoLeadSignature {
        return Pass;
      }
      if |fsinfo| < 0x1EC {
        return Fail(ShortRead);
      }
      freeClusterCount := Some(U32LE(fsinfo, 0x1E8));
      if |fsinfo| < 0x1F0 {
        return Fail(ShortRead);
      }
      nextFreeClusterLocation := Some(U32LE(fsinfo, 0x1EC));
      r := Pass;
    }

    /** `parse_fat`: the two dwords at the start of the first FAT, which
        begins right after the reserved sectors. The bytes of the rest of
        the FAT that go into `fat_data_cluster` are not modelled (nothing
        consults them), but that read comes first and raises when its length
        `fat_size_byte - 8` is below -1. */
    method ParseFat() returns (r: Result<FatHeader>)
      ensures r == Err(BadReadLength) <==> fatSizeByte < 7
      ensures r == Err(ShortRead) <==>
        fatSizeByte >= 7 && SectorToByte(boot, boot.reservedSector) + 8 > |data|
      ensures r.Ok? <==> fatSizeByte >= 7 && SectorToByte(boot, boot.reservedSector) + 8 <= |data|
      ensures r.Ok? ==>
        var at := SectorToByte(boot, boot.reservedSector);
        r.value.mediaType == U32LE(data, at) && r.value.partitionStatus == U32LE(data, at + 4)
    {
      var at := SectorToByte(boot, boot.reservedSector);
      var fatMetadata := Read(data, at, 0x08);
      if fatSizeByte - 0x08 < -1 {
        return Err(BadReadLength);
      }
      if |fatMetadata| < 8 {
        return Err(ShortRead);
      }
      assert fatMetadata == data[at..at + 8];
      r := Ok(FatHeader(U32LE(fatMetadata, 0), U32LE(fatMetadata, 4)));
    }

    /** `__init__` after the drive check: open the volume, then parse the
        boot sector, FSInfo and FAT header in that order; the first
        failure ends start-up. */
    static method Open(volume: seq<byte>) returns (r: Result<(FAT32, FatHeader)>)
      ensures r.Ok? <==> ParseMetadata(volume).Ok?
      ensures r.Err? ==> ParseMetadata(volume) == Err(r.error)
      ensures r.Ok? ==>
        && fresh(r.value.0) && r.value.0.data == volume && r.value.0.Loaded()
        && r.value.1 == ParseMetadata(volume).value.fatHeader
    {
      var fat := new FAT32(volume);
      ghost var bs, fs := Read(volume, 0, 0x200), Read(volume, 0x200, 0x200);
      var boot := fat.ParseBootsector();
      if boot.Fail? {
        assert ParseMetadata(volume) == Err(DecodeBootSector(bs).error);
        return Err(boot.error);
      }
      assert DecodeBootSector(bs) == Ok(fat.boot);
      var fsinfo := fat.ParseFsinfo();
      if fsinfo.Fail? {
        assert ParseMetadata(volume) == Err(DecodeFsInfo(fs).error);
        return Err(fsinfo.error);
      }
      ghost var info := DecodeFsInfo(fs).value;
      var header := fat.ParseFat();
      ghost var fm := Read(volume, SectorToByte(fat.boot, fat.boot.reservedSector), 8);
      if header == Err(BadReadLength) {
        assert ParseMetadata(volume) == Err(BadReadLength);
        return Err(BadReadLength);
      }
      if header.Err? {
        assert ParseMetadata(volume) == Err(DecodeFatHeader(fm).error);
        return Err(header.error);
      }
      assert DecodeFatHeader(fm) == header;
      assert ParseMetadata(volume) == Ok(Metadata(fat.boot, info, header.value));
      r := Ok((fat, header.value));
    }

    /** `carving_ex(start)`: walk the clusters from `start` while the
        cluster number is at most the FSInfo free-cluster count, moving the
        offset one cluster at a time, and report each hit as the cluster
        number plus one. Without FSInfo counters it cannot start. */
    method CarvingEx(start: nat) returns (r: Carve<Kind>)
      ensures freeClusterCount.None? ==> r == Carve([], MissingFsInfo)
      ensures freeClusterCount.Some? ==> r == CarveSpec(data, boot, start, freeClusterCount.value)
    {
      if freeClusterCount.None? {
        return Carve([], MissingFsInfo);
      }
      var bound := freeClusterCount.value;
      var unallocClusterOffset := SectorToByte(boot,
        boot.reservedSector + boot.fatSize * 2 + ClusterToSector(boot, start));
      r := Sweep(Classifier(data), unallocClusterOffset, boot.sectorPerCluster * boot.bytesPerSector,
                 VisitCount(start, bound), start + 1);
    }

    /** `carving_all`: the scan from cluster 1. */
    method CarvingAll() returns (r: Carve<Kind>)
      ensures freeClusterCount.None? ==> r == Carve([], MissingFsInfo)
      ensures freeClusterCount.Some? ==> r == CarveSpec(data, boot, 1, freeClusterCount.value)
    {
      r := CarvingEx(1);
    }

    /** `carving_unallocated`: the scan from the FSInfo next-free hint. */
    method CarvingUnallocated() returns (r: Carve<Kind>)
      ensures freeClusterCount.None? || nextFreeClusterLocation.None? ==> r == Carve([], MissingFsInfo)
      ensures freeClusterCount.Some? && nextFreeClusterLocation.Some? ==>
        r == CarveSpec(data, boot, nextFreeClusterLocation.value, freeClusterCount.value)
    {
      if nextFreeClusterLocation.None? {
        return Carve([], MissingFsInfo);
      }
      r := CarvingEx(nextFreeClusterLocation.value);
    }
  }
}
