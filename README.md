# FAT32 carving, modelled in Dafny

The program opens a FAT32 volume as raw bytes. It decodes three structures: the boot sector (BPB), the FSInfo sector, and the first two entries of the FAT. It then walks the data area cluster by cluster. At each cluster it looks at the first 16 bytes, and for each one that starts with a known file signature it reports the cluster number and the file kind.

The repository holds the carver twice, and this project models both:

- `src/fat32.py` (module `SrcFat32`) has one loop, `carving_ex(start)`. `carving_all` starts it at cluster 1 and `carving_unallocated` at the FSInfo next-free hint. The loop visits clusters while the cluster number is at most the FSInfo free-cluster count, and reports each hit as cluster number + 1. A ZIP hit is refined by looking for `word/`, `ppt/` and `xl/` in the 4 KiB at the cluster; failing those, the hit takes the file name from the first local file header.
- `fat32/fat32.py` (module `PkgFat32`) has only `carving_unallocated`. It visits clusters while the number is strictly below the free-cluster count and reports the raw cluster number. Its table says "exe" for MZ and plain "zip" for the ZIP magic, through two stubs. It maps `%PDF` (0x25504446) to "ai", so its later "pdf" test of the same value is never reached.

The volume is a `seq<byte>`. Code the two copies share is defined once:

- `Bytes`: the short-read behaviour of seek and read, and the `struct` unpackers.
- `FatLayout`: the on-disk layouts (Microsoft's FAT32 File System Specification: "Boot Sector and BPB", "FAT32 Structure Starting at Offset 36", "FAT32 FSInfo Sector Structure"), `sector_to_byte`, `cluster_to_sector` and the cluster offset formula.
- `Scan`: the loop, a generic `Sweep` method over a classifier function. `Sweep` keeps the source's running offset (`+= sector_per_cluster * bytes_per_sector`) and is proved equal to `Run`, a specification over the offsets `OffsetAt(first, step, n)`.

`FatLayout.OffsetAtCluster` ties the running offset to the closed-form offset of cluster `start + n`. Each copy keeps its own `FAT32` class, with the attributes as fields that the parse methods update. Each copy also keeps its own classifier and its own statement of what a scan reports (`CarveSpec`).

The model keeps these quirks of the source:

- The data area starts after `reserved_sector + fat_size * 2` sectors. The `number_of_fat` field is ignored (`FatLayout.ClusterOffsetIgnoresFatCount`).
- Cluster numbers are not reduced by 2. On a two-FAT volume, cluster `c` is where fatgen103 puts data cluster `c + 2` (`FatLayout.ClusterOffsetIsStandardPlusTwo`).
- FSInfo is read at byte 0x200, not at sector `fsinfo_sector_offset`.
- Both scan modes are bounded by `free_cluster_count`.

Errors follow the code:

- `unpack_from` past the end of a short read raises. The model returns `Err(ShortRead)`.
- During a scan the same raise is a documented stop, `Status.Truncated(n)`. The hits printed before it are kept (`SrcFat32.CarveSpecTruncatedComplete`, `PkgFat32.CarveSpecTruncatedComplete`), and `n` is the reported number of the cluster that failed.
- A wrong 0x55AA signature (`sys.exit`) is `Err(BadBootSignature)`, and no attribute is set.
- `parse_fat` reads the rest of the FAT, `fat_size_byte - 8` bytes, before it unpacks the header. For a FAT smaller than 7 bytes that length is below -1, and the buffered reader raises ValueError. The model returns `Err(BadReadLength)`, and start-up fails.
- A wrong FSInfo signature leaves both counters unset. Any later scan then raises on the missing attribute before reading anything, modelled as `Status.MissingFsInfo`. This holds for `carving_all` too: the loop bound is `free_cluster_count`.

`str(zip_data)` is Python's repr of the bytes. For the needles `word/`, `ppt/` and `xl/` it holds a match exactly when the raw bytes do: the needles are printable, contain no quote or backslash, and no escape sequence can produce them. The model therefore searches the raw bytes.

## Model

| member | source | states |
|---|---|---|
| Bytes.Read | src/fat32.py:36-37 | seek then read: the bytes from the offset on, at most the length asked for, fewer or none when the volume ends first |
| Bytes.U16LE | src/fat32.py:42 | '<H' at an offset: the result is below 2^16; no contract of its own; meaning stated by `Bytes.U16LEOfLE16` and `Bytes.LE16OfU16LE` |
| Bytes.U32LE | src/fat32.py:47 | '<L' at an offset: the result is below 2^32; no contract of its own; meaning stated by `Bytes.U32LEOfLE32`, `Bytes.LE32OfU32LE` and `Bytes.U32LEIs` |
| Bytes.U16BE | src/fat32.py:38 | '>H' at an offset: the result is below 2^16; no contract of its own; meaning stated by `Bytes.U16BEIs` and `Bytes.U16BEPrefix` |
| Bytes.U32BE | src/fat32.py:130 | '>L' at an offset: the result is below 2^32; no contract of its own; meaning stated by `Bytes.U32BEPrefix` |
| Bytes.Contains | src/fat32.py:146-150 | no contract of its own; meaning stated by `Bytes.ContainsIff` |
| Bytes.U16BEIs | src/fat32.py:38-39 | the '>H' at 0x1FE equals 0x55AA exactly when the two bytes there are 0x55, 0xAA |
| Bytes.U32LEIs | src/fat32.py:72-73 | the '<L' at 0 equals 0x41615252 exactly when the four bytes there are that value low byte first |
| Bytes.U16LEOfLE16 | src/fat32.py:42 | unpacking '<H' from the two bytes that '<H' packs from v gives v back |
| Bytes.LE16OfU16LE | src/fat32.py:44 | packing an unpacked '<H' value gives the same two bytes back |
| Bytes.U32LEOfLE32 | src/fat32.py:47 | unpacking '<L' from the four bytes that '<L' packs from v gives v back |
| Bytes.LE32OfU32LE | src/fat32.py:48 | packing an unpacked '<L' value gives the same four bytes back |
| Bytes.U16BEPrefix | src/fat32.py:122-128 | a '>H' comparison with a two-byte magic number is a test that the data starts with those two bytes |
| Bytes.U32BEPrefix | src/fat32.py:130-140 | a '>L' comparison with a four-byte magic number is a test that the data starts with those four bytes |
| Bytes.ContainsIff | src/fat32.py:146-150 | the `in` test succeeds exactly when the needle occurs as a contiguous run somewhere in the data |
| FatLayout.DecodeBootSector | src/fat32.py:35-51 | parsing succeeds exactly when 512 bytes were read and bytes 0x1FE, 0x1FF are 0x55, 0xAA; otherwise the error is a short read or a bad signature; every field fits its unpack width; the label is bytes 0x47..0x51 and the type bytes 0x52..0x5A |
| FatLayout.DecodeEncodeBootSector | src/fat32.py:42-51 | each field is the little-endian value at its fixed offset: a sector written from any field values parses back to exactly those values |
| FatLayout.EncodeDecodeBootSector | src/fat32.py:42-51 | writing the parsed fields back over a valid sector reproduces it byte for byte |
| FatLayout.DecodeEncodeFsInfo | src/fat32.py:72-77 | an FSInfo sector with the lead signature and given counters at 0x1E8 and 0x1EC parses back to those counters |
| FatLayout.EncodeDecodeFsInfo | src/fat32.py:72-77 | writing the parsed counters back over a signed 512-byte FSInfo sector reproduces it byte for byte |
| FatLayout.DecodeFsInfo | src/fat32.py:69-77 | a short read is an error exactly when fewer than four bytes were read, or the lead signature matched and fewer than 0x1F0 bytes were read; the counters are absent exactly when at least four bytes were read and the lead signature is wrong; both counters fit in 32 bits |
| FatLayout.DecodeFatHeader | src/fat32.py:83-88 | the FAT header decodes exactly when 8 bytes were read, and both dwords are 32-bit values |
| FatLayout.FatHeaderRoundTrip | src/fat32.py:87-88 | the FAT header decoder and encoder are inverse to each other in both directions |
| FatLayout.ParseMetadata | src/fat32.py:6-13 | start-up fails with a bad signature exactly when 512 bytes were read without bytes 0x55, 0xAA at 0x1FE; it fails with a bad read length exactly when the boot sector and FSInfo parsed and the FAT is smaller than 7 bytes; with FSInfo present, bytes 0x200..0x204 hold the lead signature; on success the FAT has at least 7 bytes and its header lies inside the volume |
| FatLayout.ZeroFatSizeFailsStartUp | src/fat32.py:84-86 | a signed volume whose BPB FAT size is 0 fails start-up at the read of the rest of the FAT, whatever its FSInfo sector holds |
| FatLayout.FatSizeByte | src/fat32.py:52 | no contract of its own; meaning stated by `FatLayout.ParseMetadata` and the `ParseFat` methods, which fail when it is below 7 |
| FatLayout.ClusterCount | src/fat32.py:53 | no contract of its own; `ParseBootsector` sets `cluster_count` to it (its `DerivedCounts` postcondition) |
| FatLayout.DataClusterCount | src/fat32.py:54 | no contract of its own; `ParseBootsector` sets `data_cluster_count` to it (its `DerivedCounts` postcondition); it is negative for a FAT smaller than 8 bytes |
| FatLayout.SectorToByte | src/fat32.py:94-95 | no contract of its own; meaning stated by the lemmas about `FatLayout.ClusterOffset` |
| FatLayout.ClusterToSector | src/fat32.py:97-98 | no contract of its own; meaning stated by the lemmas about `FatLayout.ClusterOffset` |
| FatLayout.ClusterOffset | src/fat32.py:108-112 | no contract of its own; meaning stated by `FatLayout.ClusterOffsetClosedForm`, `FatLayout.ClusterOffsetIsStandardPlusTwo`, `FatLayout.ClusterOffsetIgnoresFatCount` and `FatLayout.OffsetAtCluster` |
| FatLayout.ClusterOffsetStep | src/fat32.py:108-119 | one step of the loop moves the offset by sector_per_cluster times bytes_per_sector, as recomputing the offset for the next cluster does |
| FatLayout.OffsetAtCluster | src/fat32.py:107-119 | loop invariant: after n steps from cluster start, the running offset is bytes_per_sector × (reserved + 2·fat_size + sector_per_cluster·(start + n)) |
| FatLayout.ClusterOffsetClosedForm | src/fat32.py:108-112 | the offset of cluster c is the offset of cluster 0 plus c whole clusters |
| FatLayout.ClusterOffsetIsStandardPlusTwo | src/fat32.py:108-112 | with two FATs, cluster c is read where fatgen103 puts data cluster c + 2: the missing "-2" |
| FatLayout.ClusterOffsetIgnoresFatCount | src/fat32.py:110 | the offset does not depend on number_of_fat |
| FatLayout.ClusterScan | src/fat32.py:106-119 | no contract of its own; meaning stated by the `FatLayout.ClusterScan` lemmas below |
| FatLayout.ClusterScanSound | src/fat32.py:113-119 | a walk's hits are in increasing order, and each is a visited cluster (start + reported - number) that classified as that kind |
| FatLayout.ClusterScanCompletes | src/fat32.py:113-119 | a walk completes exactly when every visited cluster classified |
| FatLayout.ClusterScanComplete | src/fat32.py:113-119 | a completed walk reports every visited cluster that classified as a kind |
| FatLayout.ClusterScanTruncatedComplete | src/fat32.py:113-119 | a truncated walk still reports every visited cluster before the one where it stopped that classified as a kind, under its number |
| FatLayout.ClusterScanStops | src/fat32.py:113-119 | a walk stops at a visited cluster whose classification failed, after all earlier ones classified |
| FatLayout.ClusterScanQuiet | src/fat32.py:113-119 | a walk over clusters with no signature completes with no hits |
| FatLayout.ClusterScanLone | src/fat32.py:113-119 | a walk in which only cluster c0 has a signature completes with exactly that hit |
| Scan.Collect | src/fat32.py:113-119 | a run reports at most one hit per visited cluster and either completes or stops at a failure |
| Scan.CollectSound | src/fat32.py:113-118 | each hit is a visited cluster that classified as its kind, and hits are strictly increasing |
| Scan.CollectCompletes | src/fat32.py:113-118 | a run completes exactly when no classification raised |
| Scan.CollectComplete | src/fat32.py:113-118 | every cluster before the stop (all, if completed) that classified as a kind is reported |
| Scan.CollectStops | src/fat32.py:113-118 | a stopped run stopped at the first failing cluster, with all hits before it |
| Scan.CollectStoppedPrefix | src/fat32.py:113-118 | once the run has stopped, later clusters change nothing |
| Scan.CollectStep | src/fat32.py:113-119 | one more cluster extends the report by its hit, keeps it, or stops it |
| Scan.CollectQuiet | src/fat32.py:116-117 | a run without any signature reports nothing |
| Scan.CollectLone | src/fat32.py:116-117 | a run with exactly one signature reports exactly that hit |
| Scan.Visit | src/fat32.py:114-115 | one classification per visited cluster |
| Scan.OffsetAt | src/fat32.py:119 | no contract of its own; meaning stated by `FatLayout.OffsetAtCluster` |
| Scan.Run | src/fat32.py:113-119 | no contract of its own; meaning stated by the `Scan.Run` lemmas below and `Scan.Sweep` |
| Scan.RunStep | src/fat32.py:113-119 | one loop iteration at the running offset is one step of the run |
| Scan.RunStoppedPrefix | src/fat32.py:113-119 | the loop may stop at the failing cluster: the rest of the run changes nothing |
| Scan.RunOrdered | src/fat32.py:117 | hits are emitted in strictly increasing order of reported number |
| Scan.RunSound | src/fat32.py:114-117 | each hit is the classification at the offset of a visited cluster |
| Scan.RunCompletes | src/fat32.py:113-119 | the run completes exactly when every visited offset classified |
| Scan.RunComplete | src/fat32.py:113-119 | a completed run reports every visited offset that classified as a kind |
| Scan.RunTruncatedComplete | src/fat32.py:113-119 | a truncated run still reports every visited offset before the one where it stopped that classified as a kind |
| Scan.RunStops | src/fat32.py:113-119 | a stopped run stopped at a failing offset after all earlier ones classified |
| Scan.Sweep | src/fat32.py:106-119 | the while loop, with its running offset, computes exactly the run specification |
| SrcFat32.MatchSignatureZip | src/fat32.py:142-154 | no contract of its own; meaning stated by `SrcFat32.ZipPrecedence` and `SrcFat32.ZipNamedIsHeaderName` |
| SrcFat32.MatchSignature | src/fat32.py:121-140 | no contract of its own; meaning stated by `SrcFat32.MatchSignatureIsTable`, `SrcFat32.TwoByteMagicWins` and `SrcFat32.NoHitIff` |
| SrcFat32.ZipPrecedence | src/fat32.py:142-151 | "word/" beats "ppt/" beats "xl/", each exactly when the earlier ones do not occur in the 0x1000 bytes read; only without all three can a short read fail |
| SrcFat32.ZipNamedIsHeaderName | src/fat32.py:152-154 | the fallback name is the bytes right after the 30-byte header, as many as the '<H' at 0x1A says, cut short by the read |
| SrcFat32.MatchSignatureIsTable | src/fat32.py:121-140 | the integer comparisons equal a byte-prefix table: MZ, BM, FF D8 by two bytes, else PK\x03\x04 to the ZIP refinement, %PDF, GIF8, \x89PNG, RIFF by four |
| SrcFat32.TwoByteMagicWins | src/fat32.py:122-128 | a two-byte signature decides the kind whatever follows |
| SrcFat32.NoHitIff | src/fat32.py:121-140 | no hit exactly when four bytes were read and no signature is a prefix |
| SrcFat32.ClassifyAt | src/fat32.py:114-115 | no contract of its own; meaning stated by `SrcFat32.ClassifyClusterTotal` |
| SrcFat32.ClassifyCluster | src/fat32.py:108-115 | no contract of its own; meaning stated by `SrcFat32.ClassifyClusterTotal` and the `SrcFat32.CarveSpec` lemmas |
| SrcFat32.VisitCount | src/fat32.py:113 | with the inclusive bound, a scan from start to bound visits bound - start + 1 clusters, and none when bound is below start |
| SrcFat32.CarveSpec | src/fat32.py:106-119 | no contract of its own; meaning stated by the `SrcFat32.CarveSpec` lemmas below and `SrcFat32.FAT32.CarvingEx` |
| SrcFat32.ClassifyClusterTotal | src/fat32.py:114-115 | a cluster at least 0x1C bytes from the end of the volume always classifies |
| SrcFat32.CarveSpecSound | src/fat32.py:113-118 | hits are increasing; each is c + 1 for a cluster c from start to free_cluster_count that classified as that kind |
| SrcFat32.CarveSpecComplete | src/fat32.py:113-118 | the scan completes exactly when every cluster from start to the bound inclusive classified, and then reports each one with a kind as c + 1 |
| SrcFat32.CarveSpecTruncatedComplete | src/fat32.py:113-118 | a truncated scan still reports, as c + 1, every cluster before the one where it stopped that classified as a kind |
| SrcFat32.CarveSpecStops | src/fat32.py:113-118 | a scan stops at a cluster whose read ran short, after every earlier one classified |
| SrcFat32.CarveSpecNoHit | src/fat32.py:113-118 | no signature in the range: empty report |
| SrcFat32.CarveSpecSingleHit | src/fat32.py:113-118 | exactly one signature at c0 in the range: the report is exactly (c0 + 1, kind) |
| SrcFat32.FAT32.constructor | src/fat32.py:10 | the device is the volume and no FSInfo counter is set yet |
| SrcFat32.FAT32.ParseBootsector | src/fat32.py:35-54 | on a bad signature or short read nothing changes; otherwise the boot fields are the decoded sector and the counts are fat_size_byte = bps × fat_size, cluster_count = that div 4, data_cluster_count = that − 2 |
| SrcFat32.FAT32.ParseFsinfo | src/fat32.py:69-77 | reads the sector at byte 0x200; with the wrong lead signature nothing changes; with it and 0x1F0 bytes read, both counters are set from 0x1E8 and 0x1EC; a signed sector cut short, or fewer than four bytes, fails with a short read, and then only `free_cluster_count` is set, and only when 0x1EC bytes were read; the boot-sector attributes stay as they were |
| SrcFat32.FAT32.ParseFat | src/fat32.py:83-88 | the read of the rest of the FAT raises exactly when `fat_size_byte` is below 7; otherwise the header is the two '<L' at the end of the reserved sectors, and a short read is the only other failure |
| SrcFat32.FAT32.Open | src/fat32.py:6-13 | start-up succeeds exactly when the whole parse sequence does, including the FAT-size check, with the same error otherwise, and leaves the object loaded with the parsed values |
| SrcFat32.FAT32.CarvingEx | src/fat32.py:106-119 | without FSInfo counters nothing is read; otherwise the report is the scan specification from start to free_cluster_count |
| SrcFat32.FAT32.CarvingAll | src/fat32.py:100-101 | the scan from cluster 1 |
| SrcFat32.FAT32.CarvingUnallocated | src/fat32.py:103-104 | the scan from the next-free hint |
| PkgFat32.MatchSignatureExe | fat32/fat32.py:133-134 | no contract of its own; meaning stated by `PkgFat32.MatchSignatureIsTable` |
| PkgFat32.MatchSignatureZip | fat32/fat32.py:136-137 | no contract of its own; meaning stated by `PkgFat32.MatchSignatureIsTable` |
| PkgFat32.MatchSignature | fat32/fat32.py:109-131 | no contract of its own; meaning stated by `PkgFat32.MatchSignatureIsTable`, `PkgFat32.TwoByteMagicWins`, `PkgFat32.NoHitIff` and `PkgFat32.PdfNeverReturned` |
| PkgFat32.MatchSignatureIsTable | fat32/fat32.py:109-137 | the integer comparisons equal a byte-prefix table: MZ gives "exe" and PK\x03\x04 plain "zip" through the stubs, %PDF gives "ai" |
| PkgFat32.TwoByteMagicWins | fat32/fat32.py:111-117 | a two-byte signature decides the kind whatever follows |
| PkgFat32.NoHitIff | fat32/fat32.py:109-131 | no hit exactly when four bytes were read and no signature is a prefix |
| PkgFat32.PdfNeverReturned | fat32/fat32.py:122-131 | %PDF gives "ai" and no input gives "pdf" |
| PkgFat32.ClassifyAt | fat32/fat32.py:102-103 | no contract of its own; meaning stated by `PkgFat32.ClassifyClusterTotal` |
| PkgFat32.ClassifyCluster | fat32/fat32.py:96-103 | no contract of its own; meaning stated by `PkgFat32.ClassifyClusterTotal` and the `PkgFat32.CarveSpec` lemmas |
| PkgFat32.VisitCount | fat32/fat32.py:101 | with the strict bound, a scan from start below bound visits bound - start clusters, and none when bound is at most start |
| PkgFat32.CarveSpec | fat32/fat32.py:94-107 | no contract of its own; meaning stated by the `PkgFat32.CarveSpec` lemmas below and `PkgFat32.FAT32.CarvingUnallocated` |
| PkgFat32.ClassifyClusterTotal | fat32/fat32.py:102-103 | a cluster at least 4 bytes from the end of the volume always classifies |
| PkgFat32.CarveSpecSound | fat32/fat32.py:101-105 | hits are increasing; each is a cluster from start below free_cluster_count, under its own number, that classified as that kind |
| PkgFat32.CarveSpecComplete | fat32/fat32.py:101-105 | the scan completes exactly when every cluster from start below the bound classified, and then reports each one with a kind |
| PkgFat32.CarveSpecTruncatedComplete | fat32/fat32.py:101-105 | a truncated scan still reports, under its own number, every cluster before the one where it stopped that classified as a kind |
| PkgFat32.CarveSpecStops | fat32/fat32.py:101-105 | a scan stops at a cluster whose read ran short, after every earlier one classified |
| PkgFat32.CarveSpecNoHit | fat32/fat32.py:101-105 | no signature in the range: empty report |
| PkgFat32.CarveSpecSingleHit | fat32/fat32.py:101-105 | exactly one signature at c0 in the range: the report is exactly (c0, kind) |
| PkgFat32.FAT32.constructor | fat32/fat32.py:9 | the device is the volume and no FSInfo counter is set yet |
| PkgFat32.FAT32.ParseBootsector | fat32/fat32.py:28-48 | on a bad signature or short read nothing changes; otherwise the same fields and derived counts as the other copy |
| PkgFat32.FAT32.ParseFsinfo | fat32/fat32.py:63-71 | reads the sector at byte 0x200; with the wrong lead signature nothing changes; with it and 0x1F0 bytes read, both counters are set (the second as `next_cluster_location`); a signed sector cut short, or fewer than four bytes, fails with a short read, and then only `free_cluster_count` is set, and only when 0x1EC bytes were read |
| PkgFat32.FAT32.ParseFat | fat32/fat32.py:77-83 | the read of the rest of the FAT raises exactly when `fat_size_byte` is below 7; otherwise the header is the two '<L' at the end of the reserved sectors, and a short read is the only other failure |
| PkgFat32.FAT32.Open | fat32/fat32.py:5-12 | start-up succeeds exactly when the whole parse sequence does, including the FAT-size check, with the same error otherwise |
| PkgFat32.FAT32.CarvingUnallocated | fat32/fat32.py:94-107 | without FSInfo counters nothing is read; otherwise the report is the scan from next_cluster_location strictly below free_cluster_count, raw numbers |
| Copies.ClassifiersAgree | fat32/fat32.py:109-137 | on the same bytes the two classifiers agree on hit or no hit and on the coarse kind; the src copy fails additionally only when its ZIP refinement reads short |

## Left out

- `test_drive` and the psutil partition list: host volume discovery through a foreign library. The model starts from the volume's bytes.
- Opening `\\.\X:`, and `__del__` closing it: device I/O. The device is an immutable byte sequence.
- Every `print` and `sys.exit`. Exits become error results. What the loop prints becomes the returned list of hits, and the hex formatting of the FAT header is not modelled.
- The bytes of the rest of the FAT that go into `fat_data_cluster`: nothing reads them. The read itself is modelled, because it raises for a FAT smaller than 7 bytes (`Err(BadReadLength)`).
- The euc-kr decode of the ZIP file name: a foreign codec. `SrcFat32.MatchSignatureZip` returns the raw name bytes, and does not model the decode error a malformed name would raise.
- The `__main__` argument handling of both files.
- The unbounded integers of Python need no wrap-around. `int(fat_size_byte / 4)` is float division, which is exact below 2^53, so it is modelled as `/ 4`.
- `PkgFat32.MatchSignatureExe` and `PkgFat32.MatchSignatureZip` are constant stubs and carry no contract of their own. Their results are stated through `PkgFat32.MatchSignatureIsTable`.
- `Copies.ClassifiersAgree` compares the classifiers only. It does not compare the two scans, whose bounds and numbering differ.
