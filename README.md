# ExactKB in Dafny

ExactKB is a browser tool that recompresses images until they fit a byte budget. This project models
its two working parts and proves properties of them.

- **The target-size search of `compressImage`.** The search has up to two bisection phases of 16
  encoder calls each:
  - phase 1 bisects quality at full scale, for JPEG and WebP only;
  - phase 2 bisects scale at a fixed base quality, and runs only when phase 1 recorded nothing;
  - one fallback encode at scale 0.05 and quality 0.1 follows when neither phase produced a blob
    that fits.

  The search reports progress after every successful call and a final 100. The service also holds
  the result record (`createResult`), the canvas dimension formula and `formatBytes`.
- **The gallery of `App.tsx`.** The gallery is the list of image entries whose status moves from
  idle to compressing to completed or error. Its handlers are:
  - add files;
  - compress the whole batch;
  - download one or all;
  - clear;
  - the KB/MB budget conversion, the download name, the recommendation text and the
    "has unprocessed" test.

Modules, one file each:

- `Types` (`types.dfy`): the records of `types.ts`, plus `Option`/`Result`.
- `FileNames` (`file_names.dfy`): `split('.').pop()`, the extension-stripping regular expression
  and ASCII `toUpperCase`.
- `Bisection` (`bisection.dfy`):
  - the canvas encoder is a deterministic size oracle
    `Encoder = (width, height, quality) -> Option<nat>`, where `None` is a canvas or `toBlob` failure;
  - one phase is the tail-recursive specification `RunPhase`, over a bracket `Interval` and a
    `Trace` of encoder calls and progress values;
  - the phase lemmas are stated about `RunPhase`.
- `CompressionService` (`compression_service.dfy`):
  - `Search` is what one compressImage call does;
  - `CompressImage` is the service's procedure, with its two `for` loops (`QualityLoop`, `ScaleLoop`),
    proved to compute `Search`;
  - also `createResult` and `formatBytes`.
- `SearchProperties` (`search_properties.dfy`): whole-run properties of `Search`.
- `App` (`app.dfy`):
  - the `Gallery` class holds the React state `images`, `targetSize`, `unit` and `isProcessingAll`,
    and has one method per handler;
  - startCompression awaits its compressions, so it is split in two: `BeginCompression` runs until
    the first await and `SettleCompression` runs once the batch has settled. Any handler may run in
    between. Settling installs the compressed snapshot whatever the list holds by then, so a clear or
    an upload in between is undone, as in the source;
  - the new lists the handlers compute are functions.

Quality, scale and byte budgets are exact reals.

## Model

| member | source | states |
|---|---|---|
| Bisection.DimensionIsFlooredScale | services/compressionService.ts:110-112 | a canvas dimension is at least 1 pixel, and it is the scaled dimension rounded down whenever that is at least 1 |
| Bisection.DimensionWithinOriginal | services/compressionService.ts:111-112 | at a scale in [0, 1] a non-empty image's canvas dimension lies between 1 and the original dimension |
| Bisection.Dimension | services/compressionService.ts:111-112 | `max(1, floor(dim*scale))`: at least 1, and the scaled dimension rounded down whenever that is at least 1 |
| Bisection.Advance | services/compressionService.ts:47-61 | one probe at the midpoint, which keeps the bracket nested and halves its width. A fitting blob moves the lower bound up to the midpoint, keeps the upper bound, and becomes the record there, so the recorded value strictly rises. Otherwise the upper bound moves down to the midpoint, the lower bound stays, and the record is kept. The bracket invariant is preserved |
| Bisection.ProgressValue | services/compressionService.ts:31-35 | `min(99, step/total*100)`: at most 99 and at most the fraction done, and equal to one of the two |
| Bisection.ProgressIncreases | services/compressionService.ts:26-36 | the values updateProgress reports, `min(99, step/total*100)` for 16 or 32 planned steps, strictly increase, are positive and are at most 99 |
| Bisection.PhaseNarrowsBracket | services/compressionService.ts:43-63 | a phase keeps `low < high` inside [0.01, 1.0] with the record at the lower bound and within budget. It only narrows the bracket. Run to the end, the width is the start width / 2^steps |
| Bisection.PhaseAttempts | services/compressionService.ts:46-48 | a phase appends its encoder calls to the trace: exactly `steps` of them without a failure, otherwise between 1 and `steps` with the failed one last |
| Bisection.PhaseAttemptsInside | services/compressionService.ts:43-48 | every probe of a phase lies on the phase's axis and strictly inside its starting bracket |
| Bisection.PhaseProgress | services/compressionService.ts:62 | a phase reports exactly one progress value per encoder call that returned a blob |
| Bisection.PhaseProgressContinues | services/compressionService.ts:29-36 | a phase keeps the progress reported before it and continues the same step count, so the reports stay `ProgressValue(1), ProgressValue(2), ...` |
| Bisection.PhaseRecordsLastFit | services/compressionService.ts:53-61 | a phase records a candidate exactly when one of its probes fits, and the record is the last fitting probe's size and parameter value |
| Bisection.RecordsLastFitExtends | services/compressionService.ts:59-61 | a probe over budget leaves the record unchanged |
| Bisection.PhaseUpperBoundRejected | services/compressionService.ts:59-60 | every upper bound a phase moves to was rejected: its probe came out over budget |
| Bisection.PhaseNearOptimal | services/compressionService.ts:43-63 | under an encoder monotone in the bisected parameter, a completed phase misses the largest fitting value by at most the bracket width / 2^16 |
| CompressionService.Round | services/compressionService.ts:138 | `Math.round`: the nearest integer, halves rounded up |
| CompressionService.TotalSteps | services/compressionService.ts:19-28 | 32 planned steps for `image/jpeg` and `image/webp`, 16 for every other type |
| CompressionService.BaseQuality | services/compressionService.ts:75-76 | the scale phase encodes at quality 0.75 for JPEG and WebP and 1.0 otherwise |
| CompressionService.Search | services/compressionService.ts:13-103 | one compressImage call; it fails with a decode error exactly when the image does not load |
| CompressionService.ReductionPercentage | services/compressionService.ts:129-136 | `max(0, (orig - final)/orig * 100)`: in [0, 100]; 0 when the blob is no smaller; otherwise exactly the fraction saved times 100 |
| CompressionService.FormatLabel | services/compressionService.ts:130 | the upper-cased text after the last '.', or "IMG" when that text is empty; never empty |
| CompressionService.CreateResult | services/compressionService.ts:127-139 | the result keeps the blob size. Its reduction is `ReductionPercentage` of the two sizes, within [0, 100], and its format is `FormatLabel` of the name, never empty. Its quality is `quality*100` rounded to nearest |
| CompressionService.QualityLoop | services/compressionService.ts:42-64 | the phase-1 loop computes `RunPhase` on the quality axis from [0.01, 1.0]: the same failure, trace, progress and record. A recorded blob fits the budget; with none recorded, `bestQuality` is still 1.0 |
| CompressionService.ScaleLoop | services/compressionService.ts:71-94 | the phase-2 loop computes `RunPhase` on the scale axis at the base quality, continuing phase 1's trace and step count |
| CompressionService.CompressImage | services/compressionService.ts:13-103 | the service procedure's result, progress reports and encoder calls are exactly those of `Search` |
| CompressionService.UnitIndex | services/compressionService.ts:161 | `floor(log(bytes)/log(1024))`: the `i` with 1024^i <= bytes < 1024^(i+1) |
| CompressionService.UnitInTable | services/compressionService.ts:160-162 | the unit table B/KB/MB/GB covers exactly the counts below 1024^4 |
| CompressionService.MantissaInRange | services/compressionService.ts:162 | a count divided by the power of 1024 just below it lies in [1, 1024) and multiplies back to the count |
| CompressionService.FormatBytes | services/compressionService.ts:156-163 | 0 gives "0 B". Otherwise the unit is the table entry at `UnitIndex` (the largest i with 1024^i <= bytes), missing exactly from 1024^4 up. The mantissa lies in [1, 1024) and times 1024^i gives the count back. Negative decimals count as 0 |
| SearchProperties.PhaseFactsHold | services/compressionService.ts:43-63 | the phase facts above, together, for a phase started on [0.01, 1.0] |
| SearchProperties.QualityPhaseFacts | services/compressionService.ts:19-42 | phase 1 runs 16 probes for JPEG and WebP and makes no call for any other format |
| SearchProperties.SearchErrors | services/compressionService.ts:17-125 | a run fails with a decode error exactly when the image does not load, and then makes no encoder call. Every other failure is an encode failure whose last call returned no blob |
| SearchProperties.SearchAttempts | services/compressionService.ts:42-99 | at most 16 quality probes, 16 scale probes and one fallback; quality probes are at scale 1.0 and scale probes at the base quality, all strictly inside (0.01, 1.0); the 17th call after phase 1 is the fallback (0.05, 0.1). With n1 the phase-1 calls, a successful run made n1, n1 + 16 or n1 + 17 calls |
| SearchProperties.SearchPhases | services/compressionService.ts:71-99 | in a successful run phase 2 runs exactly when no phase-1 probe fitted, and the fallback runs exactly when no probe of either phase fitted |
| SearchProperties.SearchResult | services/compressionService.ts:53-139 | the label and reduction come from createResult. A result from phase 1 is its last fitting probe, with that quality rounded. A result from phase 2 is its last fitting probe, with quality 75 or 100. A fallback result has quality 100. Only the fallback can exceed the budget |
| SearchProperties.ReportedIncreases | services/compressionService.ts:31-36 | reported step values strictly increase and lie in (0, 99] |
| SearchProperties.SearchProgressSteps | services/compressionService.ts:28-101 | the progress of a run is `ProgressValue` for steps 1, 2, ..., at most the planned total, followed by 100 exactly when a blob is returned |
| SearchProperties.FinishedIncreases | services/compressionService.ts:34-101 | step values followed by the final 100 strictly increase within (0, 100] |
| SearchProperties.SearchProgress | services/compressionService.ts:31-101 | every run's progress reports strictly increase and lie in (0, 100] |
| SearchProperties.QualityPhaseNearOptimal | services/compressionService.ts:42-64 | under a quality-monotone encoder, no quality more than 0.99/2^16 above the recorded one fits |
| SearchProperties.ScalePhaseNearOptimal | services/compressionService.ts:71-94 | under a scale-monotone encoder, no scale more than 0.99/2^16 above the recorded one fits |
| SearchProperties.FormatBytesExample | services/compressionService.ts:156-163 | 1536 bytes are 1.5 KB to one decimal |
| FileNames.LastSegment | services/compressionService.ts:130 | `split('.').pop()`: a dot-free suffix of the name, preceded by a '.' whenever it is shorter than the name |
| FileNames.LastSegmentAfterDot | App.tsx:60 | the last segment of `stem + "." + ext` is `ext` when `ext` has no dot |
| FileNames.LastSegmentUndotted | App.tsx:60 | a name without a dot is its own last segment |
| FileNames.StripExtension | App.tsx:61 | `replace(/\.[^/.]+$/, "")`: the name with its last dot and a non-empty, slash-free, dot-free tail removed, exactly when such a tail exists; otherwise the name unchanged |
| FileNames.Upper | services/compressionService.ts:130 | `toUpperCase` on ASCII: each lower-case letter becomes its capital (code point minus 32), every other character is kept, and no lower-case letter is left |
| App.Multiplier | App.tsx:36 | the byte multiplier of a unit is positive |
| App.TargetBytes | App.tsx:36-37 | the budget is the size times 1048576 for MB and times 1024 for KB |
| App.TargetBytesUnits | App.tsx:36-37 | a budget in MB is 1024 times the same budget in KB, which is the size times 1024; 1 MB is 1048576 bytes |
| App.NewEntries | App.tsx:23-29 | one entry per dropped file, in file order, with the drawn id, the file, `originalSize = file.size`, status idle and no result |
| App.MarkCompressing | App.tsx:41 | marking by id sets status compressing on the entries with that id and changes nothing else; length and order are kept |
| App.MarkCompressingIdempotent | App.tsx:41 | marking twice equals marking once, and marking keeps every id, file and result |
| App.MarkEach | App.tsx:39-41 | the marks of a batch, one id after another: entries whose id is among the marked ids become compressing, nothing else changes, and length and order are kept |
| App.MarkEveryEntry | App.tsx:39-41 | marking every id of the list turns every entry compressing and changes nothing else |
| App.Compressed | App.tsx:43-47 | a settled entry keeps id, file and size; it is completed with the result on success and marked as an error, with its earlier result, on failure |
| App.CompressAll | App.tsx:39-50 | the batch maps every snapshot entry, in order, to its settled entry |
| App.CompressAllSettles | App.tsx:39-50 | after a batch every entry is completed or an error, in order. It is completed exactly when its compression succeeded, then carries a result, and it is an error whenever its image did not load |
| App.HasUnprocessed | App.tsx:78 | true exactly when some entry is idle |
| App.ShowsDownloadAll | App.tsx:178-200 | the download-all controls show exactly when there is more than one image and none is idle |
| App.BatchShowsDownloadAll | App.tsx:178-200 | after a batch of two or more images the download-all controls are shown |
| App.NewFilesHideDownloadAll | App.tsx:22-30 | adding files hides the download-all controls until they are compressed |
| App.Recommendation | App.tsx:15-20 | the empty gallery gives the first text. Otherwise the text is "Scaling dimensions as needed" exactly when the mean original size exceeds 2 MiB, and "Precision optimization active" when it does not |
| App.TotalSize | App.tsx:17 | the sum of original sizes is 0 for no images and at least each image's size |
| App.MeanAbove | App.tsx:17-18 | the mean of n sizes exceeds a bound exactly when their sum exceeds n times the bound |
| App.ScalingMeansSomeLargeImage | App.tsx:17-18 | a mean over 2 MiB needs at least one image over 2 MiB |
| App.AllLargeMeansScaling | App.tsx:17-18 | a non-empty gallery of images all over 2 MiB has a mean over 2 MiB |
| App.DownloadNameOfDotted | App.tsx:60-61 | for `stem.ext`, with a non-empty extension free of '.' and '/', the download name is `stem_exact.ext` |
| App.DownloadNameUndotted | App.tsx:60-61 | a name without a dot gives `name_exact.name` |
| App.DownloadNameExample | App.tsx:60-61 | "photo.jpg" gives "photo_exact.jpg" |
| App.DownloadName | App.tsx:60-61 | for a name with an extension, "_exact" goes right before its final dot-extension. Any other name gets "_exact." and its last segment appended |
| App.DownloadFor | App.tsx:56-61 | an entry is downloaded exactly when it has a result, under its download name |
| App.Downloads | App.tsx:68-72 | download-all saves no more files than there are entries |
| App.DownloadsExactlyCompleted | App.tsx:56-72 | a name is saved by download-all exactly when some completed entry with a result has that download name |
| App.DownloadsCount | App.tsx:68-72 | when completed entries carry results, one file is saved per completed entry |
| App.CompressBatch | App.tsx:39-50 | compressing the snapshot entry by entry with `CompressImage` yields `CompressAll` |
| App.Gallery.constructor | App.tsx:10-13 | an empty gallery with budget 1 MB, not processing |
| App.Gallery.FilesSelected | App.tsx:22-31 | the new entries are appended after the existing ones; the other state is unchanged |
| App.Gallery.SetTargetSize | App.tsx:112 | only the budget size changes; the gallery invariant is kept |
| App.Gallery.SetUnit | App.tsx:128-134 | only the unit changes; the gallery invariant is kept |
| App.Gallery.MarkAll | App.tsx:39-41 | the `setImages` marks, one id after another, leave the list `MarkEach` of the ids and change nothing else |
| App.Gallery.BeginCompression | App.tsx:33-41 | the part of startCompression before its first await. Nothing happens for an empty gallery. Otherwise the flag is raised and the budget converted from size and unit. The current list is the snapshot, and every entry is marked compressing |
| App.Gallery.SettleCompression | App.tsx:50-53 | when the batch settles the list becomes `CompressAll` of the snapshot, whatever it holds by then, and the flag is lowered |
| App.Gallery.StartCompression | App.tsx:33-54 | startCompression with no other handler running during the batch: nothing changes for an empty gallery. Otherwise the list becomes `CompressAll` of the list at the start, with the budget converted from size and unit, and the processing flag ends false. Completed entries carry results |
| App.Gallery.DownloadAll | App.tsx:68-72 | the names saved are `Downloads` of the list, in list order; one per completed entry |
| App.Gallery.ClearAll | App.tsx:74-76 | the list becomes empty; the other state is unchanged |

## Left out

- Image decoding (`loadImage`, FileReader, `Image`) is the parameter `loaded`, or a per-file `decode` function in the gallery. A rejected load is `None`.
- Canvas drawing and `toBlob` are a deterministic size oracle of the canvas dimensions and quality, one per file in the gallery. Its dependence on the MIME type is folded into that per-file oracle.
- Blob contents, `URL.createObjectURL`, `previewUrl`, `originalPreview` and the DOM anchor of a download are not modelled; a download is its file name.
- The `sleep(20)` delays are not modelled: they only affect timing. Only one await is modelled: the one between `BeginCompression` and `SettleCompression`, during which other handlers can run.
- `Promise.all` in startCompression runs the compressions concurrently. The model compresses the snapshot entries one after the other. The final list is the same, because it is built from the snapshot taken at the start.
- App.Gallery.StartCompression: this method is the batch with no handler running in between. The interleaved case is `BeginCompression`, then any handlers, then `SettleCompression`. The disabled start button that `isProcessingAll` drives is not modelled.
- The random id of a new entry (`Math.random`) is a parameter of `FilesSelected`.
- Floating-point rounding of the midpoints and progress values is not modelled: the model uses exact reals.
- The text rendering of `formatBytes` (`toFixed`, `parseFloat`, `Math.log` rounding) is not modelled. The model returns the exact mantissa, the decimals and the unit. Past GB the unit is `None`, where the source prints "undefined".
- CompressionService.ReductionPercentage: for an empty original file the source divides by zero (NaN, or -Infinity clamped to 0). The model returns 0.
- A `NaN` budget (a non-numeric size input) is not modelled: budgets are reals.
- FileNames.Upper: only ASCII letters are upper-cased. Unicode case mapping is not modelled.
- `bestScale` is kept by the service but ignored by createResult. The model does not track it, since the result record has no scale.
- The `progress`, `targetSize` and `unit` fields of an `ImageFile` are never set by the gallery and are not modelled.
- JSX, styling, `components/Dropzone.tsx` and `components/ResultCard.tsx` are presentation only and not modelled.
