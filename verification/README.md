# Sipi in Dafny

A model of the core of the Sipi image server and proofs about it: how an image is scaled, turned and
dithered, how renditions are cached, how an image repository is spread over directories, and how tiled
TIFF images are written and read back. `dafny verify dfyconfig.toml` checks the whole project.

| part | files |
|---|---|
| scaling | `AxisWeights`, `AxisOrder`, `Resampler`, `ResampleLaws`, `ResampleRange`, `ResampleError`, `ResamplePlaces` |
| rotation, orientation, dithering | `Picture`, `Raster`, `Orientation`, `Dither`, `SipiImage` |
| file cache | `CacheModel`, `CacheLaws`, `CacheRuns`, `CachePins`, `CacheIndex`, `CacheFiles`, `CacheDisk`, `SipiCache` |
| streaming and caching a response | `OutputSink`, `ServeImage`, `ServeResponse` |
| hashed directory tree | `FilenameHash`, `HashValue`, `HashTree`, `LevelGrowth`, `LevelRemoval`, `LevelCheck`, `Migration` |
| TIFF | `TiffMemory`, `EpsilonDivision`, `TiledTiff`, `TiledLaws` |
| arithmetic | `Sums`, `Grid`, `Wrap` |

Code that changes state is modelled by classes, arrays and loops; each method is proved against a
specification, and the laws are proved about the specification.

## How the program is read

- `float` and `double` are exact real numbers. The eviction mark `0.8 * limit`, converted back to a whole
  number, is `4 * limit / 5` rounded down.
- Integers are unbounded where the program's type cannot overflow; where it can, the width is written out
  or proved to suffice: the 32-bit hash, the 32-bit accumulators of the resampler and the sum of its
  weights, the 16-bit dither buffer, the wrapping cache counters (`usedBytes` modulo 2^64, `nfiles` modulo 2^32),
  and the 32-bit sizes, coordinates and offsets of the tile reader and writer.
- `char` is signed, as on the platforms Sipi is built for.
- Each public method of the cache is one atomic step, as its mutex makes it.
- `std::sort` may deliver any order by access time; `readdir` and the hash table may deliver any order.
- What the environment decides is a parameter: the clock, `stat` results, whether `realloc` finds room and
  what fresh memory holds, how much of a chunk a file takes, what a callback returns or throws.
- A codec is any sequence of chunks that stops after a write has failed.

## What turned out false, and exactly when it holds

- `SipiCache::add` with an existing key takes the old entry off the counters but leaves it in the table
  while it purges. If that purge evicts the entry or fails, its size comes off twice. `RunExactIff` says when
  a run keeps the program's counters exact, `ReplacementSafeIff` when one replacement does, and
  `ReplacementWedges` and `WedgedForever` that three calls can leave a cache that never holds a file again.
- `add` unlinks the replaced file even if it is pinned: `PinnedUnlinkIff`, with a run in `PinnedFileUnlinked`. If
  moreover its purge fails, the entry stays without a file: `RunFiles`, `StrandsIff`, with a run in
  `StrandedExample`. When a purge fails: `PurgeFailsIff`, and in terms of the pins `PurgeFailsByPins`.
- Quantised weights can be negative (`IntegerShrinkNonNegativeIff`, `NegativeWeightExample`), and then an image can
  leave its range: `RangeKeptIff` for all sizes, `WholeFactorFirmIff`, `RangeExamples`.
- A repository with dot files does not end up at the paths `filepath()` gives when levels are added:
  `AllAtFilePathIff`, `DotFileStays`. A file named like a letter directory makes migration fail: `MigrateToLevels`,
  `LetterNameFails`. Two files of one name that come up to one directory replace each other: `MoveFilesUp`,
  `TwinsCollide`. A tree deeper than six levels is counted past the end of the counters: `CheckLevels`, `SevenLevels`.
- An index with two present records of one key makes the startup counters wrong: `StartupExactIff`,
  `RepeatedKeyExample`. Strings longer than 255 bytes are cut when the index is saved: `SaveLoadIff`, `LongKeyExample`.
- `SEEK_END` of the in-memory TIFF file counts from the capacity, and with a positive offset leaves the
  position outside the buffer: `SeekEndIsFileEndIff`, `StepValidIff`, `SeekEndEscapes`.
- `read_tiled_data` returns the image from the corner of the region's first tile on: `AlignedIff`. Of a region of
  2^32 samples or more its 32-bit buffer size and offsets make it write outside its buffer: `StoredIff`,
  `ReadOkIff`, `HugeImageOverruns`. Tile sides above 10000 can make it refuse a file just written: `RefusedIff`,
  `RefusedExample`.

## Model

| member | source | states |
|---|---|---|
| AxisWeights.BuildAxisWeights | src/SipiImage.cpp:1008-1074 | For every source and target size the compressed rows are well formed and each output's taps are consecutive, in range, non-negatively weighted and leave out no sample of weight under its kernel (cell overlap when shrinking, tent when enlarging, one tap at equal size); the real weights sum to one and the stored ones are their quantised form |
| AxisWeights.CoverTaps | src/SipiImage.cpp:1029-1036 | The overlaps of the source cells under an interval are positive, in order, and add up to exactly its length; every other cell has no overlap |
| AxisWeights.TentTaps | src/SipiImage.cpp:1046-1055 | Linear interpolation yields one or two in-range taps with the tent weights of their distance, which sum to one |
| AxisWeights.Scan | src/SipiImage.cpp:1064-1070 | The running sum of rounded weights stays in int32 and the scan finds the first largest tap |
| AxisWeights.Quantise | src/SipiImage.cpp:1063-1072 | Rounds each weight to 14 bits and folds what is missing to 2^14 into the first largest tap |
| AxisWeights.AxisSafe | src/SipiImage.cpp:1059-1072 | At any pair of sizes every output has taps, all in range, with weights that sum to exactly 2^14 and positive parts that sum to at most 2 * 2^14 |
| AxisWeights.AxisSame | src/SipiImage.cpp:1014-1019 | An axis of unchanged size has the single tap i with weight 2^14 for output i |
| AxisWeights.QuantisedNonNegative | src/SipiImage.cpp:1059-1072 | A group of at most 182 non-negative weights of sum one is non-negative after rounding and folding |
| AxisWeights.AxisNonNegative | src/SipiImage.cpp:1008-1074 | No weight is negative if the axis shrinks at most 181 times, keeps its size or grows |
| AxisWeights.IntegerShrinkNonNegativeIff | src/SipiImage.cpp:1059-1072 | Shrinking by a whole factor q gives only non-negative weights iff (q - 1) times the rounded 2^14 / q is at most 2^14 |
| AxisWeights.NegativeWeightExample | src/SipiImage.cpp:1059-1072 | Shrinking 516 samples to 2 produces the weight -64 |
| AxisOrder.EnlargeTaps | src/SipiImage.cpp:1040-1056 | The exact stored weights of an enlarged axis in whole numbers: output i lies at i (src - 1) / (dst - 1), the sample right of it gets the remainder over dst - 1 rounded to 14 bits and the one left of it the rest, and no other sample has weight |
| AxisOrder.EndKept | src/SipiImage.cpp:1043-1055 | The first and the last output of an axis that does not shrink copy the first and the last sample |
| AxisOrder.GridKept | src/SipiImage.cpp:1040-1043 | If dst - 1 is q times src - 1, output q s copies sample s exactly |
| AxisOrder.ShrinkWeight | src/SipiImage.cpp:1021-1037 | On a shrunk axis the real weight of sample s for output i is the length of the overlap of [i src, (i + 1) src) and [s dst, (s + 1) dst), over src |
| AxisOrder.EveryCellSpent | src/SipiImage.cpp:1021-1037 | The outputs of a shrunk axis together take every source cell exactly once |
| AxisOrder.ShrinkOrdered | src/SipiImage.cpp:1021-1037 | A later output of a shrunk axis reads no sample left of what an earlier one reads |
| Resampler.AccumulatorInRange | src/resample.h:14-21 | For 8- and 16-bit samples every partial accumulation and every product of a safe group stays within int32 |
| Resampler.Accumulate | src/resample.cc:59-62 | The int32 loop over one output's taps computes the rounded weighted sum without overflow |
| Resampler.HorizontalPass | src/resample.cc:51-66 | The scratch buffer holds at every row, column and channel the narrowed weighted sum of that row's taps |
| Resampler.AddScaledRow | src/resample.cc:82-93 | Multiply-adding a row in lane blocks with a scalar tail adds weight times sample at every column, whatever the lane width |
| Resampler.VerticalPass | src/resample.cc:68-102 | For every lane width the result is the scalar per-column weighted sum, narrowed |
| Resampler.ResampleSeparable | src/resample.cc:42-103 | Both passes together compute the two-dimensional specification, independent of the lane width |
| ResampleLaws.ResampledBetween | src/resample.cc:42-103 | Every output sample lies between the least and greatest source sample of its channel if no axis shrinks more than 181 times; a flat channel stays exactly flat at any sizes |
| ResampleRange.RangeKeptIff | src/resample.cc:42-103 | For any two sizes, every channel of every image stays within every range that holds it iff for no output of either axis the sum of its negative weights times (maxval - 1) reaches 2^13 |
| ResampleRange.WholeFactorFirmIff | src/SipiImage.cpp:1059-1072 | For a whole shrink factor q that condition is ((q - 1) * rounded 2^14 / q - 2^14) * (maxval - 1) < 2^13 |
| ResampleRange.RangeExamples | src/resample.cc:42-103 | Some 8-bit image of 516 x 2 pixels leaves its range when it is scaled to 2 x 2, and no image of 402 x 2 does, though there a weight is already negative |
| ResampleError.ResampleAccuracy | src/resample.cc:42-103 | Every output sample is within a bound given by its tap counts of the exact two-dimensional average of the whole source under the kernels of its column and row |
| ResampleError.TotalErrorIs | src/resample.h:14-21 | With n and m taps that bound is 1 + (n + m) * maxval / 2^15 |
| ResampleError.GroupError | src/SipiImage.cpp:1059-1072 | One group's quantised sum is off the real one, scaled by 2^14, by at most half a unit per tap and sample step, because folding measures all samples from the largest tap's |
| ResampleLaws.ResampledMonotone | src/resample.cc:42-103 | A pointwise brighter image resamples to a pointwise brighter image under the same condition |
| ResampleLaws.ResampledIdentity | src/resample.cc:42-103 | Resampling to the same size returns the buffer unchanged |
| ResamplePlaces.CornersKept | src/resample.cc:42-103 | An image that shrinks on no axis keeps its four corner pixels in their corners |
| ResamplePlaces.GridPixelsKept | src/resample.cc:42-103 | With whole steps q and r of the result for one of the source, pixel (q x, r y) is the source pixel (x, y) exactly |
| ResamplePlaces.StillRises | src/resample.cc:42-103 | Rows whose samples rise from left to right, and columns that rise from top to bottom, still do if no axis shrinks more than 181 times |
| SipiImageClass.SipiImage.Scale | src/SipiImage.cpp:1078-1109 | Fails, changing nothing, exactly for degenerate sizes or other bit depths; otherwise the samples are those of the resampler with built weights, keep ranges and order, are near the exact averages, are unchanged at the same size, and stay in place: corners and grid points when enlarging, and rising rows and columns |
| SipiImageClass.ScaledBy | src/SipiImage.cpp:1078-1109 | Resampling with any weights that the builder may deliver keeps every range, the order of images and rising rows and columns if no axis shrinks more than 181 times, keeps flat channels at any size and corners and grid points when enlarging, and is within the error bound at every sample |
| Orientation.TurnBuffer | src/SipiImage.cpp:1117-1263 | The mirror loop and the loops for 90, 180 and 270 degrees put every sample where the turn says |
| Orientation.RotateCompose | src/SipiImage.cpp:1114-1263 | Two rotations with mirrors are one: the eight elements multiply as the dihedral group, on every image |
| Orientation.RotateUndone | src/SipiImage.cpp:1114-1263 | An element followed by its inverse restores the image sample for sample |
| SipiImageClass.SipiImage.NormalAngle | src/SipiImage.cpp:1146-1149 | The two loops end and bring any multiple of 90 degrees to the same angle in [0, 360) |
| SipiImageClass.SipiImage.Rotate | src/SipiImage.cpp:1114-1263 | For every multiple of 90 degrees the image is mirrored first if asked and then turned; other bit depths keep their samples, and mirroring them fails |
| Orientation.RotatedIsUpright | src/SipiIO.h:37-55 | For all eight tags the element chosen puts every sample at the visual position that the sides named by the tag define |
| SipiImageClass.SipiImage.SetTopleft | src/SipiImage.cpp:1342-1373 | Every sample ends at its visual position and the tag is 1; unknown tags leave the image alone; other bit depths keep their samples although the tag is reset, and swap width and height exactly for the tags 6 and 8 |
| Dither.DiffuseStep | src/SipiImage.cpp:1430-1436 | Deciding one pixel and pushing its error keeps every decided pixel and every partial value in step with the pulling reference |
| Dither.DiffusePixel | src/SipiImage.cpp:1430-1436 | One step of the loop in a 16-bit buffer never overflows and pushes to exactly the neighbours that exist |
| Dither.DiffuseAll | src/SipiImage.cpp:1428-1438 | The in-place loops compute the reference: each pixel's value is its input plus the shares of its four earlier neighbours, and the output its threshold |
| Dither.DiffusedUnique | src/SipiImage.cpp:1428-1438 | The equations of the reference have at most one solution |
| Dither.OutNearest | src/SipiImage.cpp:1431-1431 | A pixel becomes the nearer of 0 and 255 |
| Dither.ErrorOfSixteen | src/SipiImage.cpp:1432-1436 | An error of 16 in a row of three gives 7 to the right and 3, 5 and 1 to the row below |
| Dither.DiffusedCalm | src/SipiImage.cpp:1421-1438 | Every working value of an 8-bit image stays in [-128, 379] |
| Dither.Conservation | src/SipiImage.cpp:1427-1440 | Input total minus output total is exactly the error that no neighbour receives |
| Dither.LostRange | src/SipiImage.cpp:1432-1436 | For errors in [-128, 127] a pixel loses -128 to 127, an interior one 0 to 3 |
| Dither.BrightnessKept | src/SipiImage.cpp:1427-1440 | The totals differ by at most 3 per pixel plus 124 per border pixel one way and 128 per border pixel the other |
| Dither.BitonalFixed | src/SipiImage.cpp:1413-1419 | A bitonal image is its own dithering |
| SipiImageClass.SipiImage.ToBitonal | src/SipiImage.cpp:1406-1441 | The buffer becomes its dithering, also when the early return leaves it alone; bytes after the first nx * ny stay |
| SipiCacheClass.SipiCache.Purge | src/SipiCache.cpp:304-377 | The loop with wrapping counters does what the abstract purge does for some order by access time |
| CacheModel.EvictIsPrefix | src/SipiCache.cpp:335-358 | The eviction loop removes a prefix of the unpinned entries, each while some mark was still exceeded, and stops as soon as both are met |
| CacheLaws.PurgeLaw | src/SipiCache.cpp:304-377 | Evicts only unpinned entries, each no more recently used than any surviving unpinned one; a non-negative result counts them and means both marks are met, -1 means all survivors are pinned; pinned files stay on disk |
| CacheLaws.PurgeFailsIff | src/SipiCache.cpp:310-376 | A purge returns -1 iff a limit is reached and no number of evictions of unpinned entries, oldest first, brings both counters to their marks |
| CacheLaws.PurgeFailsByPins | src/SipiCache.cpp:310-376 | While no counter wraps, a firing purge returns -1 iff the pinned entries alone exceed a mark, whatever the order |
| CacheLaws.AddDrift | src/SipiCache.cpp:511-534 | `add` keeps the sums behind the counters as far off the table as they were, except an unsafe replacement, which takes the old size and one file off too much |
| CacheLaws.AddOutcome | src/SipiCache.cpp:519-531 | `add` enters the record iff its purge does not refuse, that is unless it fires and no number of evictions from the front of its list meets both marks; otherwise no entry is new and the new file is gone |
| CacheLaws.RoomIff | src/SipiCache.cpp:511-526 | With counters that match the table, `add` of a new key or of a pinned entry finds room iff without that entry no limit is reached, or the other pinned entries are within both marks |
| CacheLaws.ReplacementSafeIff | src/SipiCache.cpp:511-534 | A replacement keeps the sums, and the program's counters unless they wrap, exact iff without the old entry no limit is reached, or both marks are met before purge comes to that entry |
| CacheRuns.RunDrift | src/SipiCache.cpp:304-563 | Over every run the sums behind the counters fall behind the table by exactly the unsafe replacements and their sizes |
| CacheRuns.RunResidues | src/SipiCache.cpp:304-563 | After every run the program's counters are the residues modulo 2^64 and 2^32 of the table's totals less those losses |
| CacheRuns.RunExactIff | src/SipiCache.cpp:304-563 | A run from exact counters ends with exact counters iff the table's totals fit them and the unsafe replacements come to multiples of 2^32 in number and 2^64 in bytes; with fewer than 2^32 of them, iff there was none |
| CacheRuns.RunBounded | src/SipiCache.cpp:310-376 | With both limits set, every run without unsafe replacements of files within the size limit keeps at most the allowed files and less than twice the allowed bytes, with exact counters; `StartupReady` gives such a start |
| CacheRuns.RunFilesLimited | src/SipiCache.cpp:310-376 | With a file limit, whether or not there is a size limit, every run without unsafe replacements keeps at most that many entries |
| CacheRuns.RunBytesLimited | src/SipiCache.cpp:310-376 | With a size limit, whether or not there is a file limit, every such run of files within it keeps less than twice that many recorded bytes |
| CacheDisk.RunFileBytes | src/SipiCache.cpp:304-563 | With a size limit, the files of the entries together have less than twice that many bytes on disk after every such run in which `add` is told the length of its file and nobody writes to an entry's file, and the byte counter is their length |
| CacheDisk.FiresAtLimits | src/SipiCache.cpp:310-316 | With counters that match the table a purge fires iff the entries reach a limit that is set |
| CacheDisk.PurgeToMarks | src/SipiCache.cpp:320-324 | A purge that fires and succeeds leaves at most 80% of each limit that is set |
| CacheDisk.StepDisk | src/SipiCache.cpp:304-563 | Exactly how every step changes the files on disk: dropped and replaced entries lose theirs, a refused `add` its own, and nothing else goes |
| CacheDisk.RemoveDisk | src/SipiCache.cpp:540-563 | `remove` takes an unpinned entry and its file away, and no other file |
| CacheDisk.StepEntries | src/SipiCache.cpp:304-563 | After every step an entry is the record just added or was there before with the same record but for its access time |
| CacheDisk.AddThenCheck | src/SipiCache.cpp:381-423 | A file just added is found, under its path, iff its original is not newer than it |
| CachePins.RunPins | src/SipiCache.cpp:418-434 | In every run a path's pin count is the blocking hits minus the matching releases, and no zero entry is stored |
| CachePins.BalancedRun | src/SipiCache.cpp:418-434 | A run that releases what it pinned leaves the pin count as it was |
| CachePins.PinnedUnlinkIff | src/SipiCache.cpp:341-358 | A step takes a pinned file off the disk iff it is an `add` replacing that file's entry, or an `add` whose purge refuses and whose own file it is |
| CachePins.HitThenReplace | src/SipiCache.cpp:511-516 | In every state a blocking hit followed by an `add` of the same key leaves the hit file pinned and off the disk |
| CachePins.PinnedFileUnlinked | src/SipiCache.cpp:511-516 | Five calls on a new cache that end so |
| CacheFiles.StepLost | src/SipiCache.cpp:304-563 | After a step the entries without a file are those that had none and kept their record's file name, and the one a failing replacement of a pinned entry strands |
| CacheFiles.RunFiles | src/SipiCache.cpp:304-563 | After every run from a state in which each entry has its own file on disk, the entries without a file are exactly those that a refused replacement of a pinned entry stranded |
| CacheFiles.StrandsIff | src/SipiCache.cpp:511-526 | With counters that match the table, replacing a pinned entry strands it iff without it a limit is still reached and the other pinned entries exceed a mark |
| CacheFiles.StrandedExample | src/SipiCache.cpp:511-526 | A run on a new cache of limit 10, with two pinned files of 1 and 10 bytes, that leaves the replaced entry without its file |
| CacheFiles.StartupReady | src/SipiCache.cpp:87-209 | After startup entries have distinct files, unhidden ones are on disk, and with both limits set and totals in range the cache is within its bounds |
| CachePins.ReplacementWedges | src/SipiCache.cpp:511-519 | Three calls on a new cache of limit 10 leave an empty table with both counters wrapped to their maximum |
| CachePins.WedgedForever | src/SipiCache.cpp:519-526 | An empty cache with a counter above its mark stays so after every step |
| SipiCacheClass.SipiCache.Check | src/SipiCache.cpp:381-423 | Tied to the abstract `check`: touches the entry, answers with an up-to-date file's path and pins it if asked; a missing original changes nothing |
| SipiCacheClass.SipiCache.Deblock | src/SipiCache.cpp:427-434 | Takes one pin off and drops the entry at zero |
| SipiCacheClass.SipiCache.Add | src/SipiCache.cpp:457-536 | Tied to the abstract `add` for some order by access time; an entered record has the size and modification time of the file, the current time, the base name of its path and every other argument in its field; a missing cache file changes nothing |
| SipiCacheClass.SipiCache.Remove | src/SipiCache.cpp:540-563 | Removes an unpinned entry with its file, and nothing else |
| SipiCacheClass.SipiCache.constructor | src/SipiCache.cpp:87-209 | Loads the index, removes unknown files and purges: the abstract startup state |
| SipiCacheClass.SipiCache.WriteIndex | src/SipiCache.cpp:213-240 | Writes one record for every entry, its strings cut to their fields |
| CacheIndex.LoadDrift | src/SipiCache.cpp:137-164 | Loading counts every present record; the table lacks exactly those, in number and bytes, whose key a later present record repeats |
| CacheIndex.StartupExactIff | src/SipiCache.cpp:87-209 | The startup counters are exact iff the table's totals fit them and the repeated records come to whole turns; with fewer than 2^32 records, iff no two records whose file is present share a key |
| CacheIndex.RepeatedKeyExample | src/SipiCache.cpp:137-164 | Two present records of the key "k" make the counters wrong |
| CacheIndex.StartupSound | src/SipiCache.cpp:87-209 | With distinct keys and paths, or an index that is thrown away, startup ends with sums that match the table, exact counters if the totals fit, no limit reached, nothing pinned, and a table that names exactly the unhidden files on disk |
| CacheDisk.StartupDisk | src/SipiCache.cpp:100-209 | Startup keeps dot files that are no entry's, but for an index that is thrown away, and removes every other file that no loaded entry names |
| CacheIndex.SaveLoadIff | src/SipiCache.cpp:213-240 | With all files present, saving and loading gives back the table iff every string fits its 256-byte field |
| CacheIndex.LongKeyExample | src/SipiCache.cpp:213-240 | A table whose one key has 256 bytes does not come back |
| CacheIndex.RestartRestores | src/SipiCache.cpp:87-240 | Shutdown and restart restore the table and make the counters exact, however far off they were, if all strings fit, all files are there and the table itself is below the limits |
| CacheIndex.RestartUnwedges | src/SipiCache.cpp:87-240 | An empty cache, also one whose counters have wrapped, can be used again after a restart |
| OutputSink.SinkStream.constructor | src/formats/output_sink.cpp:14-14 | The leaves are those of the sink, left to right, and all are empty |
| OutputSink.SinkStream.Flatten | src/formats/output_sink.cpp:16-35 | Appends the leaves of any nested sink in order |
| OutputSink.SinkStream.Write | src/formats/output_sink.cpp:37-51 | After any number of writes callbacks have all bytes, files a prefix, files that never failed all; the result is zero iff every callback returned zero |
| ServeImage.Encode | src/ffi/serve_image.cpp:291-361 | On success the client has all chunks; always the byte count is what the client got and the file a prefix of it, and all of it iff it could be opened and took every chunk handed out, or there was nothing |
| ServeImage.CommitsIff | src/ffi/serve_image.cpp:383-403 | A prefix passes the gate iff it is all that was received, is not empty and is within the limit |
| ServeImage.FinalizeCache | src/ffi/serve_image.cpp:376-413 | Offers to the cache exactly the files that pass the gate; the file has an entry with its record iff the cache also finds room, and otherwise there is no new entry and the file is deleted |
| ServeImage.Produce | src/ffi/serve_image.cpp:291-347 | The file is offered iff socket, codec and file did not fail, nothing of the file was lost and it is not empty and within the limit, and then it is byte for byte what the client received; it is registered, with the received length and every other field, iff moreover the cache finds room, and otherwise deleted without a new entry; bounds are kept unless an unsafe replacement is made |
| ServeImage.OfferBounded | src/ffi/serve_image.cpp:394-412 | An `add` of a file that passed the gate keeps a bounded cache bounded unless it is an unsafe replacement |
| ServeResponse.Apply | src/ffi/serve_response.cpp:101-127 | Status, headers and the one body in order up to the callback that throws; the finalizer runs once in every case |
| ServeResponse.ScriptInOrder | src/ffi/serve_response.cpp:115-127 | The status comes first, the headers in order after it, and the body once and last: a file with its range, or the producer of a stream |
| ServeResponse.BuildCacheHit | src/ffi/serve_image.cpp:580-599 | A hit pins the file, answers 200 with the given headers and the whole file, and installs its release; a vanished file is released at once |
| ServeResponse.ServeCached | src/ffi/serve_image.cpp:580-599 | From lookup to the end of delivery, whatever fails, the pin table is as before; the calls made begin with status 200 and the headers in order, and a delivery that does not fail sends the whole file |
| FilenameHash.BaseNameIs | src/SipiFilenameHash.cpp:20-34 | The hashed name is what follows the last slash |
| FilenameHash.Hasher.constructor | src/SipiFilenameHash.cpp:20-34 | The letters are the base-26 digits of the wrapping hash of the name alone |
| FilenameHash.HashLettersIffValue | src/SipiFilenameHash.cpp:20-34 | Two names share all six letters iff their hash values are equal |
| HashValue.HashIsNumber | src/SipiFilenameHash.cpp:22-28 | For every name the hash is the number with the signed bytes as base-137 digits, less 2^32 for every turn of the 32-bit product carried through the later rounds, modulo 26^6 |
| HashValue.PlainResidueIff | src/SipiFilenameHash.cpp:22-28 | It is the plain residue of that number iff the lost turns come to a multiple of 26^6 |
| HashValue.ShortNames | src/SipiFilenameHash.cpp:22-28 | A name none of whose rounds leaves 32 bits hashes to its base-137 number modulo 26^6 |
| HashValue.HashOfATif | src/SipiFilenameHash.cpp:20-34 | "a.tif", whose last round wraps, has the value 210507786 and the letters IBARSR |
| HashValue.HashOfTestImage | src/SipiFilenameHash.cpp:20-34 | "test_image.jp2", most of whose rounds wrap, has the letters GTCIFE |
| HashValue.HashOfHighByte | src/SipiFilenameHash.cpp:20-34 | The one byte 0xE9, a negative char, has the letters ZWLRMX |
| FilenameHash.Hasher.FilePath | src/SipiFilenameHash.cpp:47-56 | The path has one directory for each of the first letters, then the name |
| HashValue.PathOfATif | src/SipiFilenameHash.cpp:47-56 | With three levels "images/a.tif" is kept at "I/B/A/a.tif" |
| FilenameHash.PathStringInjective | src/SipiFilenameHash.cpp:47-56 | A path determines its directories and its name |
| LevelCheck.ScanDir | src/SipiFilenameHash.cpp:58-77 | In any letter tree the scan stays within its six counters iff no directory is deeper than six; then each counter is the number of letter directories of its depth |
| LevelCheck.CountForcesLevel | src/SipiFilenameHash.cpp:79-87 | A level has 26^(k+1) directories iff every letter path of that length is one |
| LevelCheck.CheckLevels | src/SipiFilenameHash.cpp:79-91 | Succeeds with d exactly on the complete trees of depth d, and stays within its counters exactly on trees no deeper than six |
| LevelCheck.SevenLevels | src/SipiFilenameHash.cpp:58-77 | A chain of seven letter directories is a tree that the six counters do not reach |
| LevelGrowth.AddLevel | src/SipiFilenameHash.cpp:94-144 | Below any directory: adds all letter directories at the next level and moves each non-dot file there by its next letter, overwriting nothing and changing no directory outside; fails iff such a file has a letter directory's name or a non-dot file sits above the deepest level, and then no file is lost |
| LevelRemoval.RemoveLevel | src/SipiFilenameHash.cpp:146-215 | Below any directory: moves the deepest files up one level and removes that level, overwriting nothing and changing no directory outside; fails iff such a file has a letter directory's name, and then no file is lost |
| LevelRemoval.MoveFilesUp | src/SipiFilenameHash.cpp:181-199 | For any files: moves the files of a leaf up until one has the name of a sibling directory, and replaces exactly the files of the parent that have the name of a moved one |
| Migration.MigrateToLevels | src/SipiFilenameHash.cpp:218-230 | For files of different names anywhere in a complete tree and any depths 0 to 6: no rename overwrites and no file is lost, whether it succeeds or not; it fails iff growing meets a non-dot file above the last level or with a letter's name, or shrinking has to raise one with a letter's name; else the result is the complete tree of the target depth with every file where its hash letters or its own directory put it; an incomplete tree is left untouched |
| Migration.HashPathsKept | src/SipiFilenameHash.cpp:218-230 | If every non-dot file is at its hash path, it is so after the migration, which fails iff a level changes and a file has a letter's name |
| Migration.AllAtFilePathIff | src/SipiFilenameHash.cpp:94-144 | From a repository with all files at their hash paths, every file is at the path `filepath()` gives after a migration iff levels were not added or there is no dot file |
| Migration.DotFileStays | src/SipiFilenameHash.cpp:94-144 | The file ".a" is not where `filepath()` says after one level has been added |
| Migration.ATifMoves | src/SipiFilenameHash.cpp:94-144 | A flat repository with the one file "a.tif" that is given a level keeps it, with its content, in the directory I |
| Migration.LetterNameFails | src/SipiFilenameHash.cpp:94-144 | A flat repository whose one file is called "A" cannot be given a level |
| Migration.TwinsCollide | src/SipiFilenameHash.cpp:181-199 | Two files of one name in sibling directories: raising both replaces the first by the second |
| Migration.MigrateThereAndBack | src/SipiFilenameHash.cpp:218-230 | A repository with its non-dot files at their hash paths and no letter names that is migrated to any depth and back has the same directories, and the same files at the same places iff no dot file was deeper than that depth |
| TiffMemory.StepValidIff | src/formats/SipiIOTiff.cpp:88-182 | An operation keeps 0 <= fptr <= flen <= size iff it is no accepted seek to a negative position and no accepted SEEK_END by a positive offset |
| TiffMemory.SeekEndEscapes | src/formats/SipiIOTiff.cpp:163-175 | From every valid file, SEEK_END by a positive offset puts position and length past the grown buffer |
| TiffMemory.SeekEndIsFileEndIff | src/formats/SipiIOTiff.cpp:163-175 | SEEK_END finds the end of the file iff the buffer is full |
| TiffMemory.LastWriter | src/formats/SipiIOTiff.cpp:88-182 | After any legal run, growth and failed growth included, an offset holds the byte of the last write that covered it |
| TiffMemory.ReadBack | src/formats/SipiIOTiff.cpp:88-182 | Seeking back to a write and reading its length returns its bytes, after any run that left them alone |
| TiffMemory.StepActs | src/formats/SipiIOTiff.cpp:88-182 | The growing buffer is an ordinary file: every legal accepted operation changes content and position as on a byte sequence with a position, SEEK_END counting from the capacity; a refused one changes neither; a read returns the next bytes |
| TiffMemory.PositionCounted | src/formats/SipiIOTiff.cpp:88-182 | After every legal run the position is what a caller counts from the operations and what they returned |
| TiffMemory.WriteAllReadAll | src/formats/SipiIOTiff.cpp:88-182 | From a new file any writes, a seek to the start and one long enough read return the accepted bytes in order |
| TiffMemory.ReadsConsecutive | src/formats/SipiIOTiff.cpp:88-104 | Two reads in a row return what one read of both lengths returns |
| TiffMemory.MemTiff.constructor | src/formats/SipiIOTiff.cpp:67-85 | A new file is empty; its buffer has the initial size, or the increment if that is zero |
| TiffMemory.MemTiff.ReadProc | src/formats/SipiIOTiff.cpp:88-104 | Returns the bytes from the position to the end of the file at most |
| TiffMemory.MemTiff.WriteProc | src/formats/SipiIOTiff.cpp:107-129 | Grows the buffer if needed and stores the bytes; without room changes nothing and returns zero |
| TiffMemory.MemTiff.SeekProc | src/formats/SipiIOTiff.cpp:132-182 | The three kinds of seek, growing the buffer if needed; without room changes nothing and returns -1 |
| EpsilonDivision.EpsilonCeilIs | src/formats/SipiIOTiff.cpp:743-751 | The tolerant ceiling is the ceiling, except for a remainder below 1/10000 of the divisor, where it is one less |
| EpsilonDivision.EpsilonFloorIs | src/formats/SipiIOTiff.cpp:759-767 | The tolerant floor is the floor, except for a remainder above 9999/10000 of the divisor, where it is one more |
| EpsilonDivision.EpsilonExact | src/formats/SipiIOTiff.cpp:743-767 | For divisors up to 10000 both are exact |
| TiledTiff.WriteTiles | src/formats/SipiIOTiff.cpp:1978-1999 | Every tile of the grid exists, and holds its part of the image, zero outside, if coordinates and tile offsets fit 32 bits |
| TiledLaws.TileHolds | src/formats/SipiIOTiff.cpp:1982-1996 | Byte by byte a tile has the pixels of the image under it, and zero where the image has ended |
| TiledTiff.PaintPixel | src/formats/SipiIOTiff.cpp:831-841 | A region pixel whose 32-bit offset is inside the 32-bit buffer takes its tile pixel, and has not been written before; otherwise the write is reported as outside |
| TiledTiff.StoredIff | src/formats/SipiIOTiff.cpp:816-838 | Every write to a region that is not empty stays inside the buffer of `roi_w * roi_h * nc` elements, both taken modulo 2^32, iff the region has fewer than 2^32 samples |
| TiledTiff.TileFitsIff | src/formats/SipiIOTiff.cpp:814-815 | A tile fits the buffer that is allocated for it iff it has fewer than 2^32 bytes |
| TiledTiff.ReadTiledData | src/formats/SipiIOTiff.cpp:769-846 | The errors in their order; the first tile that is missing, leaves a buffer or leaves 32-bit coordinates; and otherwise the plane of tiles from the corner of the first tile on, as far as the tiles read reach |
| TiledLaws.ReadOkIff | src/formats/SipiIOTiff.cpp:769-846 | For tile sides up to 10000 a region inside an 8-bit tiled image is read if a tile, the region and the tiles over it fit 32 bits, and one that is not empty only then; too many samples in the region alone make the reader write outside its buffer |
| TiledLaws.HugeImageOverruns | src/formats/SipiIOTiff.cpp:816-838 | Reading a grey image of 65536 x 65536 pixels in tiles of 256 writes outside the buffer |
| TiledLaws.ReadShows | src/formats/SipiIOTiff.cpp:769-846 | Any region inside a tiled image that fits 32 bits can be read, for tile sides up to 10000, and shows the image from the corner of its first tile on |
| TiledLaws.AlignedRoundTrip | src/formats/SipiIOTiff.cpp:769-846 | A region that starts on a tile corner and fits 32 bits comes back as exactly that part of the image |
| TiledLaws.WholeRoundTrip | src/formats/SipiIOTiff.cpp:769-846 | A whole image that fits 32 bits comes back sample for sample |
| TiledLaws.WriteAndRead | src/formats/SipiIOTiff.cpp:1978-1999 | Writing tiles of sides up to 10000 and reading the whole image returns exactly its samples if it fits 32 bits; for an image that is not empty the reader stays within its buffers and 32-bit coordinates only then |
| TiledLaws.WriteAndReadRegion | src/formats/SipiIOTiff.cpp:1978-1999 | Writing tiles and reading a region that starts on a tile corner returns that part of the image if both fit 32 bits |
| TiledLaws.AlignedIff | src/formats/SipiIOTiff.cpp:795-838 | A region reads back right for every tiled image iff it starts on a tile corner and fits 32 bits |
| TiledLaws.RefusedIff | src/formats/SipiIOTiff.cpp:785-794 | A file just tiled is refused for its tile count iff a side ends less than 1/10000 of a tile after a tile boundary |
| TiledLaws.RefusedExample | src/formats/SipiIOTiff.cpp:785-794 | An image of 10017 x 16 pixels in tiles of 10016 x 16 is refused |

## Left out

- SipiImageClass.SipiImage.Rotate: only multiples of 90 degrees; other angles interpolate with trigonometric functions and have no exact contract.
- SipiImageClass.SipiImage.ToBitonal: grey 8-bit images; the conversion of colour images before it is foreign code, and of a 16-bit grey image the code dithers the first nx * ny bytes, which the model of samples does not show.
- SipiImageClass.SipiImage.SetTopleft: the Exif entry that repeats the tag.
- AxisWeights.AxisNonNegative: one direction for general ratios; the exact condition is proved for whole factors, and `RangeKeptIff` is exact for all.
- CacheLaws.ReplacementSafeIff: from counters that have not wrapped; a wrapped counter behaves like its residue.
- CacheDisk.RunFileBytes: files in the cache directory that are no entry's, such as those still being encoded, are not counted.
- CacheFiles.RunFiles: new files have names no entry has, as `mkstemp` gives them.
- TiledTiff.WriteTiles: 8-bit interleaved samples of one resolution; the pyramid reduction before it and the default tile size are not modelled, and of images within a tile of 2^32 in a side, or tiles of more than 2^32 pixels, only which tiles there are is stated.
- TiledTiff.ReadTiledData: interleaved samples and origins that are not negative; separate planes are not modelled, nor the rounding of the quotients to 32-bit floats, which can matter near the 1/10000 thresholds; the model stops at the first access outside a buffer and at the first coordinate that leaves 32 bits, where the code goes on.
- TiledLaws.ReadShows: image sides are below 2^32, as the tags that hold them; the library is taken to report the true number of tiles and to find a tile by the coordinates given.
- LevelCheck.CheckLevels: other than letter directories, which the code passes over, and the overflow of the product 26^7 that is computed but never compared.
- Migration.MigrateToLevels: targets above six, for which a name has no letter, and repositories with one name in two directories, whose raised files can collide (`MoveFilesUp`).
- CacheLaws.RoomIff: a replaced entry that is not pinned, which the purge may evict too and so wrap a counter; `PurgeFailsIff` covers that case.
- SipiCacheClass.SipiCache.constructor: creating the cache directory, and index paths that contain a slash.
- SipiCacheClass.SipiCache.Check: pin counts are unbounded.
- ServeImage.Produce: the uncached path, the messages and the memory guard.
- HTTP parsing, IIIF region and size strings, authorisation and Lua routes.
- JPEG, PNG and JPEG 2000 encoding and decoding, colour management and metadata.
- The medium and low quality scalers, watermarks, image differences and sums, channel removal.
- Failures of the file system other than those named, metrics, logging and configuration.
