/** The carver in fat32/fat32.py: a flat signature table (MZ through a
    stub that always says "exe", the ZIP magic through a stub that always
    says "zip") and one scan loop from the FSInfo next-cluster hint,
    strictly below the free-cluster count, reporting the raw cluster
    number. */
module PkgFat32 {
  import opened Results
  import opened Bytes
  import opened FatLayout
  import opened Scan

  /** The kinds `match_signature` returns: "exe", "bmp", "jpg", "zip",
      "ai", "gif", "png", "avi", "pdf". */
  datatype Kind = Exe | Bmp | Jpg | Zip | Ai | Gif | Png | Avi | Pdf

  // ----- the signature table -----

  /** `match_signature_exe`: whatever the bytes, "exe". */
  function MatchSignatureExe(sigData: seq<byte>): Kind
  {
    Exe
  }

  /** `match_signatrue_zip`: whatever the bytes, "zip". */
  function MatchSignatureZip(sigData: seq<byte>): Kind
  {
    Zip
  }

  /** `match_signature(sig_data)`: the 16 bytes read at a cluster, tested
      big-endian, first as '>H' against MZ, BM and FF D8, then as '>L'.
      The value 0x25504446 is tested twice, first for "ai" and last for
      "pdf". An unpack past the end of `sigData` raises. */
  function MatchSignature(sigData: seq<byte>): Result<Option<Kind>>
  {
    if |sigData| < 2 then Err(ShortRead)
    else
      var half := U16BE(sigData, 0);
      if half == 0x4D5A then Ok(Some(MatchSignatureExe(sigData)))
      else if half == 0x424D then Ok(Some(Bmp))
      else if half == 0xFFD8 then Ok(Some(Jpg))
      else if |sigData| < 4 then Err(ShortRead)
      else
        var word := U32BE(sigData, 0);
        if word == 0x504B_0304 then Ok(Some(MatchSignatureZip(sigData)))
        else if word == 0x2550_4446 then Ok(Some(Ai))
        else if word == 0x4749_4638 then Ok(Some(Gif))
        else if word == 0x8950_4E47 then Ok(Some(Png))
        else if word == 0x5249_4646 then Ok(Some(Avi))
        else if word == 0x2550_4446 then Ok(Some(Pdf))
        else Ok(None)
  }

  /** Leading two bytes that decide the kind by themselves. */
  const TwoByteMagic: map<seq<byte>, Kind> := map[
    [0x4D, 0x5A] := Exe,                    // "MZ"
    [0x42, 0x4D] := Bmp,                    // "BM"
    [0xFF, 0xD8] := Jpg                     // JPEG SOI
  ]

  /** Leading four bytes of the other kinds; "%PDF" is read as "ai". */
  const FourByteMagic: map<seq<byte>, Kind> := map[
    [0x50, 0x4B, 0x03, 0x04] := Zip,        // "PK\x03\x04"
    [0x25, 0x50, 0x44, 0x46] := Ai,         // "%PDF"
    [0x47, 0x49, 0x46, 0x38] := Gif,        // "GIF8"
    [0x89, 0x50, 0x4E, 0x47] := Png,        // "\x89PNG"
    [0x52, 0x49, 0x46, 0x46] := Avi         // "RIFF"
  ]

  /** The classifier as a table over byte prefixes. */
  function ByTable(sigData: seq<byte>): Result<Option<Kind>>
  {
    if |sigData| >= 2 && sigData[..2] in TwoByteMagic then Ok(Some(TwoByteMagic[sigData[..2]]))
    else if |sigData| < 4 then Err(ShortRead)
    else if sigData[..4] in FourByteMagic then Ok(Some(FourByteMagic[sigData[..4]]))
    else Ok(None)
  }

  /** The integer comparisons of `match_signature` are exactly the byte
      table: every input gets the same answer. */
  lemma MatchSignatureIsTable(sigData: seq<byte>)
    ensures MatchSignature(sigData) == ByTable(sigData)
  {
    if |sigData| >= 2 {
      U16BEPrefix(sigData, 0x4D, 0x5A);
      U16BEPrefix(sigData, 0x42, 0x4D);
      U16BEPrefix(sigData, 0xFF, 0xD8);
    }
    if |sigData| >= 4 {
      U32BEPrefix(sigData, 0x50, 0x4B, 0x03, 0x04);
      U32BEPrefix(sigData, 0x25, 0x50, 0x44, 0x46);
      U32BEPrefix(sigData, 0x47, 0x49, 0x46, 0x38);
      U32BEPrefix(sigData, 0x89, 0x50, 0x4E, 0x47);
      U32BEPrefix(sigData, 0x52, 0x49, 0x46, 0x46);
    }
  }

  /** A two-byte signature decides the kind whatever follows it. */
  lemma TwoByteMagicWins(sigData: seq<byte>)
    requires |sigData| >= 2 && sigData[..2] in TwoByteMagic
    ensures MatchSignature(sigData) == Ok(Some(TwoByteMagic[sigData[..2]]))
  {
    MatchSignatureIsTable(sigData);
  }

  /** No hit exactly when four bytes were read and none of the signatures
      is a prefix of them. */
  lemma NoHitIff(sigData: seq<byte>)
    ensures MatchSignature(sigData) == Ok(None) <==>
      |sigData| >= 4 && sigData[..2] !in TwoByteMagic && sigData[..4] !in FourByteMagic
  {
    MatchSignatureIsTable(sigData);
  }

  /** "%PDF" at the start gives "ai", and the later "pdf" test of the same
      value is never reached: no input is classified as "pdf". */
  lemma PdfNeverReturned(sigData: seq<byte>)
    ensures |sigData| >= 4 && sigData[..4] == [0x25, 0x50, 0x44, 0x46] ==> MatchSignature(sigData) == Ok(Some(Ai))
    ensures MatchSignature(sigData) != Ok(Some(Pdf))
  {
    MatchSignatureIsTable(sigData);
  }

  // ----- one cluster, and the scan -----

  /** One iteration of the loop body at byte `offset`: read 16 bytes
      there and classify them. */
  function ClassifyAt(volume: seq<byte>, offset: nat): Result<Option<Kind>>
  {
    MatchSignature(Read(volume, offset, 0x10))
  }

  /** `ClassifyAt` on a fixed volume, as the loop's classifier. */
  function Classifier(volume: seq<byte>): nat -> Result<Option<Kind>>
  {
    (offset: nat) => ClassifyAt(volume, offset)
  }

  /** The classification of cluster number `c`. */
  function ClassifyCluster(volume: seq<byte>, b: BootSector, c: nat): Result<Option<Kind>>
  {
    Classifier(volume)(ClusterOffset(b, c))
  }

  /** A cluster whose first four bytes lie inside the volume always
      classifies: only a short read can make `match_signature` raise. */
  lemma ClassifyClusterTotal(volume: seq<byte>, b: BootSector, c: nat)
    requires ClusterOffset(b, c) + 4 <= |volume|
    ensures ClassifyCluster(volume, b, c).Ok?
  {
    assert |Read(volume, ClusterOffset(b, c), 0x10)| >= 4;
  }

  /** `while cluster_num < free_cluster_count` from `start`: the clusters
      `start` to `bound - 1`. */
  function VisitCount(start: nat, bound: nat): (n: nat)
    ensures start < bound ==> start + n == bound
    ensures bound <= start ==> n == 0
  {
    if start < bound then bound - start else 0
  }

  /** What `carving_unallocated` reports from cluster `start` when the
      loop bound is `bound`: clusters `start` to `bound - 1`, from the
      offset of `start` one cluster at a time, each hit under its own
      number. */
  function CarveSpec(volume: seq<byte>, b: BootSector, start: nat, bound: nat): Carve<Kind>
  {
    ClusterScan(Classifier(volume), b, start, VisitCount(start, bound), start)
  }

  /** Hits are in increasing order, and each names a cluster from `start`
      below `bound` that classified as the hit's kind. */
  lemma CarveSpecSound(volume: seq<byte>, b: BootSector, start: nat, bound: nat)
    ensures var r := CarveSpec(volume, b, start, bound);
      forall i, j :: 0 <= i < j < |r.hits| ==> r.hits[i].cluster < r.hits[j].cluster
    ensures var r := CarveSpec(volume, b, start, bound);
      forall h :: 0 <= h < |r.hits| ==>
        start <= r.hits[h].cluster < bound &&
        ClassifyCluster(volume, b, r.hits[h].cluster) == Ok(Some(r.hits[h].kind))
  {
    ClusterScanSound(Classifier(volume), b, start, VisitCount(start, bound), start);
  }

  /** The scan completes exactly when every cluster from `start` below
      `bound` classified, and then it reports every one that classified as
      a kind. */
  lemma CarveSpecComplete(volume: seq<byte>, b: BootSector, start: nat, bound: nat)
    ensures CarveSpec(volume, b, start, bound).status == Completed <==>
      forall c :: start <= c < bound ==> ClassifyCluster(volume, b, c).Ok?
    ensures var r := CarveSpec(volume, b, start, bound);
      r.status == Completed ==>
        forall c, k :: start <= c < bound && ClassifyCluster(volume, b, c) == Ok(Some(k)) ==>
          Hit(c, k) in r.hits
  {
    var n := VisitCount(start, bound);
    ClusterScanCompletes(Classifier(volume), b, start, n, start);
    ClusterScanComplete(Classifier(volume), b, start, n, start);
    if CarveSpec(volume, b, start, bound).status == Completed {
      forall c | start <= c < bound ensures ClassifyCluster(volume, b, c).Ok? {
        assert start <= c < start + n;
      }
    } else {
      var c :| start <= c < start + n && !Classifier(volume)(ClusterOffset(b, c)).Ok?;
      assert start <= c < bound && !ClassifyCluster(volume, b, c).Ok?;
    }
  }

  /** A truncated scan keeps what it printed: every cluster before the one
      where it stopped that classified as a kind is reported. */
  lemma CarveSpecTruncatedComplete(volume: seq<byte>, b: BootSector, start: nat, bound: nat)
    ensures var r := CarveSpec(volume, b, start, bound);
      r.status.Truncated? ==>
        forall c, k :: start <= c < r.status.cluster && ClassifyCluster(volume, b, c) == Ok(Some(k)) ==>
          Hit(c, k) in r.hits
  {
    ClusterScanTruncatedComplete(Classifier(volume), b, start, VisitCount(start, bound), start);
  }

  /** A scan stops only at a cluster whose read ran short, after every
      cluster before it classified. */
  lemma CarveSpecStops(volume: seq<byte>, b: BootSector, start: nat, bound: nat)
    ensures var r := CarveSpec(volume, b, start, bound);
      r.status.Truncated? ==>
        && start <= r.status.cluster < bound
        && ClassifyCluster(volume, b, r.status.cluster).Err?
        && forall c :: start <= c < r.status.cluster ==> ClassifyCluster(volume, b, c).Ok?
  {
    ClusterScanStops(Classifier(volume), b, start, VisitCount(start, bound), start);
  }

  /** A run in which no cluster carries a signature reports nothing. */
  lemma CarveSpecNoHit(volume: seq<byte>, b: BootSector, start: nat, bound: nat)
    requires forall c :: start <= c < bound ==> ClassifyCluster(volume, b, c) == Ok(None)
    ensures CarveSpec(volume, b, start, bound) == Carve([], Completed)
  {
    var n := VisitCount(start, bound);
    forall c | start <= c < start + n ensures Classifier(volume)(ClusterOffset(b, c)) == Ok(None) {
      assert ClassifyCluster(volume, b, c) == Ok(None);
    }
    ClusterScanQuiet(Classifier(volume), b, start, n, start);
  }

  /** A run in which exactly one cluster `c0` carries a signature reports
      exactly that cluster, under its own number. */
  lemma CarveSpecSingleHit(volume: seq<byte>, b: BootSector, start: nat, bound: nat, c0: nat, k: Kind)
    requires start <= c0 < bound
    requires ClassifyCluster(volume, b, c0) == Ok(Some(k))
    requires forall c :: start <= c < bound && c != c0 ==> ClassifyCluster(volume, b, c) == Ok(None)
    ensures CarveSpec(volume, b, start, bound) == Carve([Hit(c0, k)], Completed)
  {
    var n := VisitCount(start, bound);
    forall c | start <= c < start + n && c != c0 ensures Classifier(volume)(ClusterOffset(b, c)) == Ok(None) {
      assert ClassifyCluster(volume, b, c) == Ok(None);
    }
    ClusterScanLone(Classifier(volume), b, start, n, start, c0, k);
  }

  // ----- the FAT32 object -----

  /** A FAT32 volume as the program holds it: the device (here the byte
      sequence of the whole volume) and the attributes the parse methods
      set. The ten boot-sector attributes are kept together in `boot`. */
  class FAT32 {
    const data: seq<byte>

    var boot: BootSector
    var fatSizeByte: nat
    var clusterCount: nat
    var dataClusterCount: int
    /** `free_cluster_count`, absent until FSInfo was parsed. */
    var freeClusterCount: Option<nat>
    /** `next_cluster_location`, absent until FSInfo was parsed. */
    var nextClusterLocation: Option<nat>

    /** The device is open; nothing has been parsed yet. */
    constructor (volume: seq<byte>)
      ensures data == volume
      ensures freeClusterCount == None && nextClusterLocation == None
    {
      data := volume;
      boot := BootSector(0, 0, 0, 0, 0, 0, 0, 0, [], []);
      fatSizeByte, clusterCount, dataClusterCount := 0, 0, 0;
      freeClusterCount, nextClusterLocation := None, None;
    }

    /** The three derived attributes agree with the boot sector. */
    ghost predicate DerivedCounts()
      reads this
    {
      && fatSizeByte == FatSizeByte(boot)
      && clusterCount == ClusterCount(boot)
      && dataClusterCount == DataClusterCount(boot)
    }

    /** The state after a successful start-up on `data`. */
    ghost predicate Loaded()
      reads this
    {
      && ParseMetadata(data).Ok?
      && boot == ParseMetadata(data).value.boot
      && DerivedCounts()
      && match ParseMetadata(data).value.fsInfo
         case None => freeClusterCount == None && nextClusterLocation == None
         case Some(info) =>
           freeClusterCount == Some(info.freeClusterCount) &&
           nextClusterLocation == Some(info.nextFreeCluster)
    }

    /** `parse_bootsector`: on success every boot-sector attribute and the
        derived counts are set; on failure nothing is. */
    method ParseBootsector() returns (r: Outcome)
      modifies this
      ensures var d := DecodeBootSector(Read(data, 0, 0x200));
        && (d.Err? ==> r == Fail(d.error) && unchanged(this))
        && (d.Ok? ==> r == Pass && boot == d.value && DerivedCounts())
      ensures freeClusterCount == old(freeClusterCount)
      ensures nextClusterLocation == old(nextClusterLocation)
    {
      var bootsector := Read(data, 0, 0x200);
      var decoded := DecodeBootSector(bootsector);
      if decoded.Err? {
        return Fail(decoded.error);
      }
      boot := decoded.value;
      fatSizeByte := SectorToByte(boot, boot.fatSize);
      clusterCount := fatSizeByte / 4;
      dataClusterCount := clusterCount - 2;
      r := Pass;
    }

    /** `parse_fsinfo`: reads the sector at the fixed byte 0x200. With the
        wrong lead signature it returns and sets nothing; with the right one
        it sets both counters, the first one already set if the second
        unpack runs past the buffer. */
    method ParseFsinfo() returns (r: Outcome)
      modifies this
      ensures boot == old(boot)
      ensures fatSizeByte == old(fatSizeByte) && clusterCount == old(clusterCount)
      ensures dataClusterCount == old(dataClusterCount)
      ensures var fs := Read(data, 0x200, 0x200);
        && r == (match DecodeFsInfo(fs) case Err(e) => Fail(e) case Ok(_) => Pass)
        && (DecodeFsInfo(fs) == Ok(None) ==> unchanged(this))
        && (DecodeFsInfo(fs).Ok? && DecodeFsInfo(fs).value.Some? ==>
              freeClusterCount == Some(DecodeFsInfo(fs).value.value.freeClusterCount) &&
              nextClusterLocation == Some(DecodeFsInfo(fs).value.value.nextFreeCluster))
        && (DecodeFsInfo(fs).Err? ==>
              nextClusterLocation == old(nextClusterLocation) &&
              freeClusterCount == if |fs| >= 0x1EC then Some(U32LE(fs, 0x1E8)) else old(freeClusterCount))
    {
      var fsinfo := Read(data, 0x200, 0x200);
      if |fsinfo| < 4 {
        return Fail(ShortRead);
      }
      var magic := U32LE(fsinfo, 0);
      if magic != FsInfoLeadSignature {
        return Pass;
      }
      if |fsinfo| < 0x1EC {
        return Fail(ShortRead);
      }
      freeClusterCount := Some(U32LE(fsinfo, 0x1E8));
      if |fsinfo| < 0x1F0 {
        return Fail(ShortRead);
      }
      nextClusterLocation := Some(U32LE(fsinfo, 0x1EC));
      r := Pass;
    }

    /** `parse_fat`: the two dwords at the start of the first FAT, which
        begins right after the reserved sectors. The bytes of the rest of
        the FAT that go into `fat_data_cluster` are not modelled (nothing
        consults them), but that read comes first and raises when its length
        `fat_size_byte - 8` is below -1. */
    method ParseFat() returns (r: Result<FatHeader>)
      ensures r == Err(BadReadLength) <==> fatSizeByte < 7
      ensures r == Err(ShortRead) <==>
        fatSizeByte >= 7 && SectorToByte(boot, boot.reservedSector) + 8 > |data|
      ensures r.Ok? <==> fatSizeByte >= 7 && SectorToByte(boot, boot.reservedSector) + 8 <= |data|
      ensures r.Ok? ==>
        var at := SectorToByte(boot, boot.reservedSector);
        r.value.mediaType == U32LE(data, at) && r.value.partitionStatus == U32LE(data, at + 4)
    {
      var at := SectorToByte(boot, boot.reservedSector);
      var fatMetadata := Read(data, at, 0x08);
      if fatSizeByte - 0x08 < -1 {
        return Err(BadReadLength);
      }
      if |fatMetadata| < 8 {
        return Err(ShortRead);
      }
      assert fatMetadata == data[at..at + 8];
      r := Ok(FatHeader(U32LE(fatMetadata, 0), U32LE(fatMetadata, 4)));
    }

    /** `__init__` after the drive check: open the volume, then parse the
        boot sector, FSInfo and FAT header in that order; the first
        failure ends start-up. */
    static method Open(volume: seq<byte>) returns (r: Result<(FAT32, FatHeader)>)
      ensures r.Ok? <==> ParseMetadata(volume).Ok?
      ensures r.Err? ==> ParseMetadata(volume) == Err(r.error)
      ensures r.Ok? ==>
        && fresh(r.value.0) && r.value.0.data == volume && r.value.0.Loaded()
        && r.value.1 == ParseMetadata(volume).value.fatHeader
    {
      var fat := new FAT32(volume);
      ghost var bs, fs := Read(volume, 0, 0x200), Read(volume, 0x200, 0x200);
      var boot := fat.ParseBootsector();
      if boot.Fail? {
        assert ParseMetadata(volume) == Err(DecodeBootSector(bs).error);
        return Err(boot.error);
      }
      assert DecodeBootSector(bs) == Ok(fat.boot);
      var fsinfo := fat.ParseFsinfo();
      if fsinfo.Fail? {
        assert ParseMetadata(volume) == Err(DecodeFsInfo(fs).error);
        return Err(fsinfo.error);
      }
      ghost var info := DecodeFsInfo(fs).value;
      var header := fat.ParseFat();
      ghost var fm := Read(volume, SectorToByte(fat.boot, fat.boot.reservedSector), 8);
      if header == Err(BadReadLength) {
        assert ParseMetadata(volume) == Err(BadReadLength);
        return Err(BadReadLength);
      }
      if header.Err? {
        assert ParseMetadata(volume) == Err(DecodeFatHeader(fm).error);
        return Err(header.error);
      }
      assert DecodeFatHeader(fm) == header;
      assert ParseMetadata(volume) == Ok(Metadata(fat.boot, info, header.value));
      r := Ok((fat, header.value));
    }

    /** `carving_unallocated`: walk the clusters from the FSInfo
        next-cluster hint while the cluster number is below the
        free-cluster count, moving the offset one cluster at a time, and
        report each hit under its cluster number. Without FSInfo counters
        it cannot start. */
    method CarvingUnallocated() returns (r: Carve<Kind>)
      ensures freeClusterCount.None? || nextClusterLocation.None? ==> r == Carve([], MissingFsInfo)
      ensures freeClusterCount.Some? && nextClusterLocation.Some? ==>
        r == CarveSpec(data, boot, nextClusterLocation.value, freeClusterCount.value)
    {
      if nextClusterLocation.None? || freeClusterCount.None? {
        return Carve([], MissingFsInfo);
      }
      var clusterNum := nextClusterLocation.value;
      var unallocClusterOffset := SectorToByte(boot,
        boot.reservedSector + boot.fatSize * 2 + ClusterToSector(boot, clusterNum));
      r := Sweep(Classifier(data), unallocClusterOffset, boot.sectorPerCluster * boot.bytesPerSector,
                 VisitCount(clusterNum, freeClusterCount.value), clusterNum);
    }
  }
}
