/** The on-disk FAT32 structures the carver reads, and the offset
    arithmetic it does on them. Both copies of the program decode these
    identically, so they are defined once here.

    Layouts follow Microsoft's FAT32 File System Specification (fatgen103):
    "Boot Sector and BPB", "FAT32 Structure Starting at Offset 36" and
    "FAT32 FSInfo Sector Structure". */
module FatLayout {
  import opened Results
  import opened Bytes
  import opened Scan

  /** The boot-sector fields the program keeps (one per attribute that
      `parse_bootsector` sets before the derived counts). */
  datatype BootSector = BootSector(
    bytesPerSector: nat,        // '<H' at 0x0B (BPB_BytsPerSec)
    sectorPerCluster: nat,      // '<B' at 0x0D (BPB_SecPerClus)
    reservedSector: nat,        // '<H' at 0x0E (BPB_RsvdSecCnt)
    numberOfFat: nat,           // '<B' at 0x10 (BPB_NumFATs)
    mediaType: nat,             // '<B' at 0x15 (BPB_Media)
    fatSize: nat,               // '<L' at 0x24 (BPB_FATSz32), in sectors
    rootdirClusterOffset: nat,  // '<L' at 0x2C (BPB_RootClus)
    fsinfoSectorOffset: nat,    // '<H' at 0x30 (BPB_FSInfo); never used to locate FSInfo
    volumeLabel: seq<byte>,     // '10s' at 0x47 (BS_VolLab is 11 bytes; the program takes 10)
    fsType: seq<byte>           // '8s' at 0x52 (BS_FilSysType)
  )

  /** Every field within the width it is unpacked with. */
  ghost predicate WellFormed(b: BootSector)
  {
    && b.bytesPerSector < 0x1_0000
    && b.sectorPerCluster < 0x100
    && b.reservedSector < 0x1_0000
    && b.numberOfFat < 0x100
    && b.mediaType < 0x100
    && b.fatSize < 0x1_0000_0000
    && b.rootdirClusterOffset < 0x1_0000_0000
    && b.fsinfoSectorOffset < 0x1_0000
    && |b.volumeLabel| == 10
    && |b.fsType| == 8
  }

  /** Read big-endian at 0x1FE, i.e. the bytes 0x55 0xAA. */
  const BootSignature: nat := 0x55AA
  /** FSI_LeadSig, read little-endian at the start of the FSInfo sector. */
  const FsInfoLeadSignature: nat := 0x4161_5252

  /** `parse_bootsector` on the 0x200 bytes read at offset 0: the field
      values, or why the program stops (the buffer is short, or the
      signature check fails and it exits). */
  function DecodeBootSector(bs: seq<byte>): (r: Result<BootSector>)
    ensures r.Ok? <==> |bs| >= 0x200 && bs[0x1FE] == 0x55 && bs[0x1FF] == 0xAA
    ensures r.Err? ==> r.error == if |bs| < 0x200 then ShortRead else BadBootSignature
    ensures r.Ok? ==> WellFormed(r.value)
    ensures r.Ok? ==> r.value.volumeLabel == bs[0x47..0x51] && r.value.fsType == bs[0x52..0x5A]
  {
    if |bs| < 0x200 then Err(ShortRead)
    else
      U16BEIs(bs, 0x1FE, BootSignature);
      if U16BE(bs, 0x1FE) != BootSignature then Err(BadBootSignature)
      else Ok(BootSector(
        U16LE(bs, 0x0B), bs[0x0D], U16LE(bs, 0x0E), bs[0x10], bs[0x15],
        U32LE(bs, 0x24), U32LE(bs, 0x2C), U16LE(bs, 0x30),
        bs[0x47..0x51], bs[0x52..0x5A]))
  }

  // ----- derived counts (computed at the end of parse_bootsector) -----

  /** `fat_size_byte`: the size of one FAT in bytes. */
  function FatSizeByte(b: BootSector): nat
  {
    SectorToByte(b, b.fatSize)
  }

  /** `cluster_count`: `int(fat_size_byte / 4)`, the number of 4-byte FAT
      entries. The float division is exact here (fat_size_byte < 2^53) and
      truncation of a non-negative quotient is floor, so this is `/ 4`. */
  function ClusterCount(b: BootSector): nat
  {
    FatSizeByte(b) / 4
  }

  /** `data_cluster_count`: the entry count less the two reserved entries
      (negative for a FAT smaller than 8 bytes, as in the program). */
  function DataClusterCount(b: BootSector): int
  {
    ClusterCount(b) - 2
  }

  // ----- FSInfo -----

  datatype FsInfo = FsInfo(
    freeClusterCount: nat,   // '<L' at 0x1E8 (FSI_Free_Count)
    nextFreeCluster: nat     // '<L' at 0x1EC (FSI_Nxt_Free)
  )

  /** `parse_fsinfo` on the 0x200 bytes read at byte 0x200: `None` when the
      lead signature is wrong (the method returns early), the two counters
      otherwise, or a short read when a field lies past the buffer. */
  function DecodeFsInfo(fs: seq<byte>): (r: Result<Option<FsInfo>>)
    ensures r.Err? <==> |fs| < 4 || (fs[..4] == LE32(FsInfoLeadSignature) && |fs| < 0x1F0)
    ensures r == Ok(None) <==> |fs| >= 4 && fs[..4] != LE32(FsInfoLeadSignature)
    ensures r.Ok? && r.value.Some? ==>
      r.value.value.freeClusterCount < 0x1_0000_0000 && r.value.value.nextFreeCluster < 0x1_0000_0000
  {
    if |fs| < 4 then Err(ShortRead)
    else
      U32LEIs(fs, 0, FsInfoLeadSignature);
      if U32LE(fs, 0) != FsInfoLeadSignature then Ok(None)
      else if |fs| < 0x1F0 then Err(ShortRead)
      else Ok(Some(FsInfo(U32LE(fs, 0x1E8), U32LE(fs, 0x1EC))))
  }

  // ----- the first two FAT entries -----

  datatype FatHeader = FatHeader(
    mediaType: nat,         // '<L' at 0x00 of the FAT (FAT[0])
    partitionStatus: nat    // '<L' at 0x04 of the FAT (FAT[1])
  )

  /** `parse_fat` on the 8 bytes read at the start of the FAT. */
  function DecodeFatHeader(fm: seq<byte>): (r: Result<FatHeader>)
    ensures r.Ok? <==> |fm| >= 8
    ensures r.Ok? ==> r.value.mediaType < 0x1_0000_0000 && r.value.partitionStatus < 0x1_0000_0000
  {
    if |fm| < 8 then Err(ShortRead)
    else Ok(FatHeader(U32LE(fm, 0), U32LE(fm, 4)))
  }

  // ----- the whole start-up sequence -----

  /** What the program knows of a volume once it has started: the boot
      sector, the FSInfo counters if their signature matched, and the
      first two FAT entries. */
  datatype Metadata = Metadata(boot: BootSector, fsInfo: Option<FsInfo>, fatHeader: FatHeader)

  /** The parse steps of `__init__` in order, on the volume as a byte
      sequence: boot sector at byte 0, FSInfo at the fixed byte 0x200 (not
      at sector `fsinfoSectorOffset`), then the FAT at the end of the
      reserved sectors, where a FAT smaller than 7 bytes makes the read of
      its remainder raise. The first step that fails ends start-up. */
  function ParseMetadata(volume: seq<byte>): (r: Result<Metadata>)
    ensures r.Ok? ==> |volume| >= 0x200 && volume[0x1FE] == 0x55 && volume[0x1FF] == 0xAA
    ensures r == Err(BadBootSignature) <==>
      |volume| >= 0x200 && !(volume[0x1FE] == 0x55 && volume[0x1FF] == 0xAA)
    ensures r.Ok? && r.value.fsInfo.Some? ==>
      |volume| >= 0x3F0 && volume[0x200..0x204] == LE32(FsInfoLeadSignature)
    ensures r.Ok? ==> SectorToByte(r.value.boot, r.value.boot.reservedSector) + 8 <= |volume|
    ensures r.Ok? ==> FatSizeByte(r.value.boot) >= 7
    ensures r == Err(BadReadLength) <==>
      var d := DecodeBootSector(Read(volume, 0, 0x200));
      d.Ok? && DecodeFsInfo(Read(volume, 0x200, 0x200)).Ok? && FatSizeByte(d.value) < 7
  {
    var bs := Read(volume, 0, 0x200);
    match DecodeBootSector(bs)
    case Err(e) => Err(e)
    case Ok(boot) =>
      assert bs[0x1FE] == volume[0x1FE] && bs[0x1FF] == volume[0x1FF];
      var fs := Read(volume, 0x200, 0x200);
      match DecodeFsInfo(fs)
      case Err(e) => Err(e)
      case Ok(info) =>
        assert info.Some? ==> fs[..4] == volume[0x200..0x204];
        if FatSizeByte(boot) < 7 then Err(BadReadLength)
        else
          match DecodeFatHeader(Read(volume, SectorToByte(boot, boot.reservedSector), 8))
          case Err(e) => Err(e)
          case Ok(header) => Ok(Metadata(boot, info, header))
  }

  /** A signed boot sector whose BPB_FATSz32 is 0 gives a zero-byte FAT,
      so `parse_fat` asks for -8 bytes and start-up fails, whatever the
      FSInfo sector holds. */
  lemma ZeroFatSizeFailsStartUp(volume: seq<byte>)
    requires |volume| >= 0x400 && volume[0x1FE] == 0x55 && volume[0x1FF] == 0xAA
    requires volume[0x24..0x28] == [0, 0, 0, 0]
    ensures ParseMetadata(volume) == Err(BadReadLength)
  {
    var bs := Read(volume, 0, 0x200);
    assert bs[0x24..0x28] == volume[0x24..0x28];
    U32LEOfLE32(bs, 0x24, 0);
  }

  // ----- offsets -----

  /** `sector_to_byte` */
  function SectorToByte(b: BootSector, sector: nat): nat
  {
    b.bytesPerSector * sector
  }

  /** `cluster_to_sector` */
  function ClusterToSector(b: BootSector, cluster: nat): nat
  {
    b.sectorPerCluster * cluster
  }

  /** The byte offset the carver reads for cluster number `c`: past the
      reserved sectors and TWO FATs (whatever `numberOfFat` says), then `c`
      whole clusters, with no allowance for the first data cluster being
      number 2. */
  function ClusterOffset(b: BootSector, c: nat): nat
  {
    SectorToByte(b, b.reservedSector + b.fatSize * 2 + ClusterToSector(b, c))
  }

  /** The bytes one cluster spans, the amount the loop adds per step. */
  function ClusterBytes(b: BootSector): nat
  {
    b.sectorPerCluster * b.bytesPerSector
  }

  /** Each step of the scan moves the offset by one cluster's bytes. */
  lemma ClusterOffsetStep(b: BootSector, c: nat)
    ensures ClusterOffset(b, c + 1) == ClusterOffset(b, c) + ClusterBytes(b)
  {
    var spc, bps := b.sectorPerCluster, b.bytesPerSector;
    var base := b.reservedSector + b.fatSize * 2;
    calc {
      ClusterOffset(b, c + 1);
      bps * (base + spc * (c + 1));
      { assert spc * (c + 1) == spc * c + spc; }
      bps * (base + spc * c) + bps * spc;
    }
  }

  /** The offset the loop has reached after `n` steps from cluster `start`
      is the offset of cluster `start + n`: adding one cluster's bytes per
      step agrees with recomputing the offset from the cluster number. */
  lemma {:induction false} OffsetAtCluster(b: BootSector, start: nat, n: nat)
    ensures OffsetAt(ClusterOffset(b, start), ClusterBytes(b), n) == ClusterOffset(b, start + n)
  {
    if n > 0 {
      OffsetAtCluster(b, start, n - 1);
      ClusterOffsetStep(b, start + n - 1);
    }
  }

  /** The offset of cluster `c` is the first-FAT-then-skip offset plus `c`
      clusters of `sectorPerCluster * bytesPerSector` bytes each. */
  lemma {:induction false} ClusterOffsetClosedForm(b: BootSector, c: nat)
    ensures ClusterOffset(b, c) == ClusterOffset(b, 0) + c * ClusterBytes(b)
  {
    if c > 0 {
      ClusterOffsetClosedForm(b, c - 1);
      ClusterOffsetStep(b, c - 1);
    }
  }

  // ----- the cluster walk -----

  /** The carving loop over `count` clusters from cluster `start`: the
      offset starts at that cluster and moves one cluster per step; the
      hits are numbered from `number`. */
  function ClusterScan<K>(classify: nat -> Result<Option<K>>, b: BootSector, start: nat, count: nat, number: int): Carve<K>
  {
    Run(classify, ClusterOffset(b, start), ClusterBytes(b), count, number)
  }

  /** Hits come in increasing order, and hit number `number + i` is
      cluster `start + i`, which the walk visited and which classified as
      the hit's kind. */
  lemma ClusterScanSound<K>(classify: nat -> Result<Option<K>>, b: BootSector, start: nat, count: nat, number: int)
    ensures var r := ClusterScan(classify, b, start, count, number);
      forall i, j :: 0 <= i < j < |r.hits| ==> r.hits[i].cluster < r.hits[j].cluster
    ensures var r := ClusterScan(classify, b, start, count, number);
      forall h :: 0 <= h < |r.hits| ==>
        var c := start + (r.hits[h].cluster - number);
        start <= c < start + count && classify(ClusterOffset(b, c)) == Ok(Some(r.hits[h].kind))
  {
    var first, step := ClusterOffset(b, start), ClusterBytes(b);
    RunOrdered(classify, first, step, count, number);
    RunSound(classify, first, step, count, number);
    var r := ClusterScan(classify, b, start, count, number);
    forall h | 0 <= h < |r.hits|
      ensures classify(ClusterOffset(b, start + (r.hits[h].cluster - number))) == Ok(Some(r.hits[h].kind))
    {
      OffsetAtCluster(b, start, r.hits[h].cluster - number);
    }
  }

  /** The walk completes exactly when every visited cluster classified. */
  lemma ClusterScanCompletes<K>(classify: nat -> Result<Option<K>>, b: BootSector, start: nat, count: nat, number: int)
    ensures ClusterScan(classify, b, start, count, number).status == Completed <==>
      forall c :: start <= c < start + count ==> classify(ClusterOffset(b, c)).Ok?
  {
    var first, step := ClusterOffset(b, start), ClusterBytes(b);
    RunCompletes(classify, first, step, count, number);
    if Run(classify, first, step, count, number).status == Completed {
      forall c | start <= c < start + count ensures classify(ClusterOffset(b, c)).Ok? {
        OffsetAtCluster(b, start, c - start);
        assert classify(OffsetAt(first, step, c - start)).Ok?;
      }
    } else {
      var i :| 0 <= i < count && !classify(OffsetAt(first, step, i)).Ok?;
      OffsetAtCluster(b, start, i);
      assert !classify(ClusterOffset(b, start + i)).Ok?;
    }
  }

  /** A completed walk reports every visited cluster that classified as a
      kind, cluster `start + i` as number `number + i`. */
  lemma ClusterScanComplete<K>(classify: nat -> Result<Option<K>>, b: BootSector, start: nat, count: nat, number: int)
    ensures var r := ClusterScan(classify, b, start, count, number);
      r.status == Completed ==>
        forall c, k :: start <= c < start + count && classify(ClusterOffset(b, c)) == Ok(Some(k)) ==>
          Hit(number + (c - start), k) in r.hits
  {
    var first, step := ClusterOffset(b, start), ClusterBytes(b);
    RunComplete(classify, first, step, count, number);
    var r := Run(classify, first, step, count, number);
    if r.status == Completed {
      forall c, k | start <= c < start + count && classify(ClusterOffset(b, c)) == Ok(Some(k))
        ensures Hit(number + (c - start), k) in r.hits
      {
        OffsetAtCluster(b, start, c - start);
        assert classify(OffsetAt(first, step, c - start)) == Ok(Some(k));
      }
    }
  }

  /** A truncated walk still reports every visited cluster before the one
      where it stopped that classified as a kind, cluster `start + i` as
      number `number + i`. */
  lemma ClusterScanTruncatedComplete<K>(classify: nat -> Result<Option<K>>, b: BootSector, start: nat, count: nat, number: int)
    ensures var r := ClusterScan(classify, b, start, count, number);
      r.status.Truncated? ==>
        forall c, k :: start <= c < start + (r.status.cluster - number) && classify(ClusterOffset(b, c)) == Ok(Some(k)) ==>
          Hit(number + (c - start), k) in r.hits
  {
    var first, step := ClusterOffset(b, start), ClusterBytes(b);
    RunTruncatedComplete(classify, first, step, count, number);
    var r := Run(classify, first, step, count, number);
    if r.status.Truncated? {
      forall c, k | start <= c < start + (r.status.cluster - number) && classify(ClusterOffset(b, c)) == Ok(Some(k))
        ensures Hit(number + (c - start), k) in r.hits
      {
        OffsetAtCluster(b, start, c - start);
        assert classify(OffsetAt(first, step, c - start)) == Ok(Some(k));
      }
    }
  }

  /** A walk stops at the first visited cluster whose classification
      failed, and reports its number. */
  lemma ClusterScanStops<K>(classify: nat -> Result<Option<K>>, b: BootSector, start: nat, count: nat, number: int)
    ensures var r := ClusterScan(classify, b, start, count, number);
      r.status.Truncated? ==>
        var stop := start + (r.status.cluster - number);
        && start <= stop < start + count
        && classify(ClusterOffset(b, stop)).Err?
        && forall c :: start <= c < stop ==> classify(ClusterOffset(b, c)).Ok?
  {
    var first, step := ClusterOffset(b, start), ClusterBytes(b);
    RunStops(classify, first, step, count, number);
    var r := Run(classify, first, step, count, number);
    if r.status.Truncated? {
      var n := r.status.cluster - number;
      OffsetAtCluster(b, start, n);
      forall c | start <= c < start + n ensures classify(ClusterOffset(b, c)).Ok? {
        OffsetAtCluster(b, start, c - start);
        assert classify(OffsetAt(first, step, c - start)).Ok?;
      }
    }
  }

  /** A walk over clusters none of which carries a signature completes
      with no hits. */
  lemma ClusterScanQuiet<K>(classify: nat -> Result<Option<K>>, b: BootSector, start: nat, count: nat, number: int)
    requires forall c :: start <= c < start + count ==> classify(ClusterOffset(b, c)) == Ok(None)
    ensures ClusterScan(classify, b, start, count, number) == Carve([], Completed)
  {
    var first, step := ClusterOffset(b, start), ClusterBytes(b);
    var cls := Visit(classify, first, step, count);
    forall i | 0 <= i < count ensures cls[i] == Ok(None) {
      OffsetAtCluster(b, start, i);
    }
    CollectQuiet(cls, number);
  }

  /** A walk in which only cluster `c0` carries a signature completes with
      that one hit, numbered `number + (c0 - start)`. */
  lemma ClusterScanLone<K>(classify: nat -> Result<Option<K>>, b: BootSector, start: nat, count: nat, number: int,
                           c0: nat, k: K)
    requires start <= c0 < start + count && classify(ClusterOffset(b, c0)) == Ok(Some(k))
    requires forall c :: start <= c < start + count && c != c0 ==> classify(ClusterOffset(b, c)) == Ok(None)
    ensures ClusterScan(classify, b, start, count, number) == Carve([Hit(number + (c0 - start), k)], Completed)
  {
    var first, step := ClusterOffset(b, start), ClusterBytes(b);
    var cls := Visit(classify, first, step, count);
    forall i | 0 <= i < count ensures cls[i] == classify(ClusterOffset(b, start + i)) {
      OffsetAtCluster(b, start, i);
    }
    forall i | 0 <= i < count && i != c0 - start ensures cls[i] == Ok(None) {
      assert start + i != c0;
    }
    CollectLone(cls, number, c0 - start, k);
  }

  /** The offset of the first sector of data cluster `n` (n >= 2) as
      fatgen103 defines it: FirstDataSector = reserved + NumFATs * FATSz,
      then (n - 2) clusters. */
  function StandardClusterOffset(b: BootSector, n: nat): nat
    requires n >= 2
  {
    b.bytesPerSector * (b.reservedSector + b.numberOfFat * b.fatSize + (n - 2) * b.sectorPerCluster)
  }

  /** What the program reads for cluster number `c` is, on a volume with
      two FATs, where fatgen103 places data cluster `c + 2`. */
  lemma ClusterOffsetIsStandardPlusTwo(b: BootSector, c: nat)
    requires b.numberOfFat == 2
    ensures ClusterOffset(b, c) == StandardClusterOffset(b, c + 2)
  {
    assert b.numberOfFat * b.fatSize == b.fatSize * 2;
    assert (c + 2 - 2) * b.sectorPerCluster == b.sectorPerCluster * c;
  }

  /** The cluster offset does not depend on the FAT count field. */
  lemma ClusterOffsetIgnoresFatCount(b: BootSector, n: nat, c: nat)
    ensures ClusterOffset(b.(numberOfFat := n), c) == ClusterOffset(b, c)
  {
  }

  // ----- encoders: sectors with given field values -----

  function BootSectorByte(b: BootSector, filler: seq<byte>, i: nat): byte
    requires WellFormed(b) && |filler| == 0x200 && i < 0x200
  {
    if 0x0B <= i < 0x0D then LE16(b.bytesPerSector)[i - 0x0B]
    else if i == 0x0D then b.sectorPerCluster
    else if 0x0E <= i < 0x10 then LE16(b.reservedSector)[i - 0x0E]
    else if i == 0x10 then b.numberOfFat
    else if i == 0x15 then b.mediaType
    else if 0x24 <= i < 0x28 then LE32(b.fatSize)[i - 0x24]
    else if 0x2C <= i < 0x30 then LE32(b.rootdirClusterOffset)[i - 0x2C]
    else if 0x30 <= i < 0x32 then LE16(b.fsinfoSectorOffset)[i - 0x30]
    else if 0x47 <= i < 0x51 then b.volumeLabel[i - 0x47]
    else if 0x52 <= i < 0x5A then b.fsType[i - 0x52]
    else if i == 0x1FE then 0x55
    else if i == 0x1FF then 0xAA
    else filler[i]
  }

  /** A 512-byte boot sector holding the fields of `b` and the 0x55AA
      signature, with every other byte taken from `filler`. */
  function EncodeBootSector(b: BootSector, filler: seq<byte>): (s: seq<byte>)
    requires WellFormed(b) && |filler| == 0x200
  {
    seq(0x200, i requires 0 <= i < 0x200 => BootSectorByte(b, filler, i))
  }

  /** Parsing a boot sector written from `b` gives back exactly `b`. */
  lemma DecodeEncodeBootSector(b: BootSector, filler: seq<byte>)
    requires WellFormed(b) && |filler| == 0x200
    ensures DecodeBootSector(EncodeBootSector(b, filler)) == Ok(b)
  {
    var s := EncodeBootSector(b, filler);
    assert s[0x0B..0x0D] == LE16(b.bytesPerSector);
    U16LEOfLE16(s, 0x0B, b.bytesPerSector);
    assert s[0x0E..0x10] == LE16(b.reservedSector);
    U16LEOfLE16(s, 0x0E, b.reservedSector);
    assert s[0x24..0x28] == LE32(b.fatSize);
    U32LEOfLE32(s, 0x24, b.fatSize);
    assert s[0x2C..0x30] == LE32(b.rootdirClusterOffset);
    U32LEOfLE32(s, 0x2C, b.rootdirClusterOffset);
    assert s[0x30..0x32] == LE16(b.fsinfoSectorOffset);
    U16LEOfLE16(s, 0x30, b.fsinfoSectorOffset);
    assert s[0x47..0x51] == b.volumeLabel;
    assert s[0x52..0x5A] == b.fsType;
  }

  /** Writing the parsed fields back over a valid 512-byte boot sector
      changes nothing: every byte the parser decodes is accounted for. */
  lemma EncodeDecodeBootSector(bs: seq<byte>)
    requires |bs| == 0x200 && DecodeBootSector(bs).Ok?
    ensures EncodeBootSector(DecodeBootSector(bs).value, bs) == bs
  {
    var b := DecodeBootSector(bs).value;
    LE16OfU16LE(bs, 0x0B);
    LE16OfU16LE(bs, 0x0E);
    LE32OfU32LE(bs, 0x24);
    LE32OfU32LE(bs, 0x2C);
    LE16OfU16LE(bs, 0x30);
    var s := EncodeBootSector(b, bs);
    forall i | 0 <= i < 0x200 ensures s[i] == bs[i] {
      if 0x0B <= i < 0x0D { assert bs[i] == bs[0x0B..0x0D][i - 0x0B]; }
      else if 0x0E <= i < 0x10 { assert bs[i] == bs[0x0E..0x10][i - 0x0E]; }
      else if 0x24 <= i < 0x28 { assert bs[i] == bs[0x24..0x28][i - 0x24]; }
      else if 0x2C <= i < 0x30 { assert bs[i] == bs[0x2C..0x30][i - 0x2C]; }
      else if 0x30 <= i < 0x32 { assert bs[i] == bs[0x30..0x32][i - 0x30]; }
    }
  }

  function FsInfoByte(info: FsInfo, filler: seq<byte>, i: nat): byte
    requires info.freeClusterCount < 0x1_0000_0000 && info.nextFreeCluster < 0x1_0000_0000
    requires |filler| == 0x200 && i < 0x200
  {
    if i < 4 then LE32(FsInfoLeadSignature)[i]
    else if 0x1E8 <= i < 0x1EC then LE32(info.freeClusterCount)[i - 0x1E8]
    else if 0x1EC <= i < 0x1F0 then LE32(info.nextFreeCluster)[i - 0x1EC]
    else filler[i]
  }

  /** A 512-byte FSInfo sector with the lead signature and the counters of
      `info`, every other byte from `filler`. */
  function EncodeFsInfo(info: FsInfo, filler: seq<byte>): (s: seq<byte>)
    requires info.freeClusterCount < 0x1_0000_0000 && info.nextFreeCluster < 0x1_0000_0000
    requires |filler| == 0x200
  {
    seq(0x200, i requires 0 <= i < 0x200 => FsInfoByte(info, filler, i))
  }

  /** Parsing an FSInfo sector written from `info` yields `info`. */
  lemma DecodeEncodeFsInfo(info: FsInfo, filler: seq<byte>)
    requires info.freeClusterCount < 0x1_0000_0000 && info.nextFreeCluster < 0x1_0000_0000
    requires |filler| == 0x200
    ensures DecodeFsInfo(EncodeFsInfo(info, filler)) == Ok(Some(info))
  {
    var s := EncodeFsInfo(info, filler);
    assert s[0..4] == LE32(FsInfoLeadSignature);
    U32LEOfLE32(s, 0, FsInfoLeadSignature);
    assert s[0x1E8..0x1EC] == LE32(info.freeClusterCount);
    U32LEOfLE32(s, 0x1E8, info.freeClusterCount);
    assert s[0x1EC..0x1F0] == LE32(info.nextFreeCluster);
    U32LEOfLE32(s, 0x1EC, info.nextFreeCluster);
  }

  /** Writing the parsed counters back over a signed 512-byte FSInfo sector
      changes nothing: the signature and both counters are all it decodes. */
  lemma EncodeDecodeFsInfo(fs: seq<byte>)
    requires |fs| == 0x200 && DecodeFsInfo(fs).Ok? && DecodeFsInfo(fs).value.Some?
    ensures EncodeFsInfo(DecodeFsInfo(fs).value.value, fs) == fs
  {
    var info := DecodeFsInfo(fs).value.value;
    LE32OfU32LE(fs, 0x1E8);
    LE32OfU32LE(fs, 0x1EC);
    var s := EncodeFsInfo(info, fs);
    forall i | 0 <= i < 0x200 ensures s[i] == fs[i] {
      if i < 4 { assert fs[i] == fs[..4][i]; }
      else if 0x1E8 <= i < 0x1EC { assert fs[i] == fs[0x1E8..0x1EC][i - 0x1E8]; }
      else if 0x1EC <= i < 0x1F0 { assert fs[i] == fs[0x1EC..0x1F0][i - 0x1EC]; }
    }
  }

  /** The eight FAT header bytes for `h`. */
  function EncodeFatHeader(h: FatHeader): (s: seq<byte>)
    requires h.mediaType < 0x1_0000_0000 && h.partitionStatus < 0x1_0000_0000
  {
    LE32(h.mediaType) + LE32(h.partitionStatus)
  }

  /** The FAT header decoder and encoder are inverse to each other. */
  lemma FatHeaderRoundTrip(h: FatHeader, fm: seq<byte>)
    requires h.mediaType < 0x1_0000_0000 && h.partitionStatus < 0x1_0000_0000
    requires |fm| == 8
    ensures DecodeFatHeader(EncodeFatHeader(h)) == Ok(h)
    ensures EncodeFatHeader(DecodeFatHeader(fm).value) == fm
  {
    var s := EncodeFatHeader(h);
    assert s[0..4] == LE32(h.mediaType) && s[4..8] == LE32(h.partitionStatus);
    U32LEOfLE32(s, 0, h.mediaType);
    U32LEOfLE32(s, 4, h.partitionStatus);
    LE32OfU32LE(fm, 0);
    LE32OfU32LE(fm, 4);
    assert fm == fm[0..4] + fm[4..8];
  }
}
