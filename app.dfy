/**
 * The gallery of App.tsx: the list of image entries and the handlers that replace it.
 *
 * The React state (`images`, `targetSize`, `unit`, `isProcessingAll`) is the `Gallery` class; each
 * handler is a method, and the new lists the handlers compute with `map`, spread and `some` are the
 * functions of this module.
 */
module App {
  import opened Types
  import opened FileNames
  import opened Bisection
  import opened CompressionService
  import opened SearchProperties

  /** Bytes per unit of the target size input. */
  function Multiplier(unit: SizeUnit): (r: real)
    ensures r > 0.0
  {
    if unit == MB then 1024.0 * 1024.0 else 1024.0
  }

  /** startCompression's byte budget: the typed size times the unit's multiplier. */
  function TargetBytes(targetSize: real, unit: SizeUnit): (r: real)
    ensures unit == MB ==> r == targetSize * 1048576.0
    ensures unit == KB ==> r == targetSize * 1024.0
  {
    targetSize * Multiplier(unit)
  }

  /** A size in MB is 1024 times the same size in KB, and both scale linearly with the input. */
  lemma TargetBytesUnits(targetSize: real)
    ensures TargetBytes(targetSize, MB) == 1024.0 * TargetBytes(targetSize, KB)
    ensures TargetBytes(targetSize, KB) == targetSize * 1024.0
    ensures TargetBytes(1.0, MB) == 1048576.0
  {
  }

  /** The entry handleFilesSelected creates for a dropped file. */
  function NewEntry(id: string, file: SourceFile): ImageFile {
    ImageFile(id, file, file.size, Idle, None)
  }

  /** The entries for a batch of dropped files, in file order, with the ids drawn for them. */
  function NewEntries(files: seq<SourceFile>, ids: seq<string>): (r: seq<ImageFile>)
    requires |ids| == |files|
    ensures |r| == |files|
    ensures forall k :: 0 <= k < |r| ==>
      r[k].id == ids[k] && r[k].file == files[k] && r[k].originalSize == files[k].size
      && r[k].status == Idle && r[k].result.None?
  {
    seq(|files|, k requires 0 <= k < |files| => NewEntry(ids[k], files[k]))
  }

  /** `prev.map(p => p.id === id ? { ...p, status: 'compressing' } : p)`. */
  function MarkCompressing(images: seq<ImageFile>, id: string): (r: seq<ImageFile>)
    ensures |r| == |images|
    ensures forall k :: 0 <= k < |r| && images[k].id == id ==> r[k] == images[k].(status := Compressing)
    ensures forall k :: 0 <= k < |r| && images[k].id != id ==> r[k] == images[k]
  {
    if images == [] then []
    else
      var head := if images[0].id == id then images[0].(status := Compressing) else images[0];
      [head] + MarkCompressing(images[1..], id)
  }

  /** The ids of a list of entries, in list order. */
  function Ids(images: seq<ImageFile>): (r: seq<string>)
    ensures |r| == |images| && forall k :: 0 <= k < |r| ==> r[k] == images[k].id
  {
    seq(|images|, k requires 0 <= k < |images| => images[k].id)
  }

  /** The marks of startCompression, one per id in turn: the entries whose id is among `ids` become
      compressing and nothing else changes. */
  function MarkEach(images: seq<ImageFile>, ids: seq<string>): (r: seq<ImageFile>)
    ensures |r| == |images|
    ensures forall k :: 0 <= k < |r| && images[k].id in ids ==> r[k] == images[k].(status := Compressing)
    ensures forall k :: 0 <= k < |r| && images[k].id !in ids ==> r[k] == images[k]
    decreases |ids|
  {
    if ids == [] then images
    else MarkCompressing(MarkEach(images, ids[..|ids| - 1]), ids[|ids| - 1])
  }

  /** Marking every id of the list turns every entry compressing and keeps everything else. */
  lemma MarkEveryEntry(images: seq<ImageFile>)
    ensures var r := MarkEach(images, Ids(images));
      |r| == |images| && forall k :: 0 <= k < |r| ==> r[k] == images[k].(status := Compressing)
  {
    var ids := Ids(images);
    forall k | 0 <= k < |images|
      ensures images[k].id in ids
    {
      assert ids[k] == images[k].id;
    }
  }

  /** Marking again changes nothing, and marking keeps every id, file and result in place. */
  lemma MarkCompressingIdempotent(images: seq<ImageFile>, id: string)
    ensures MarkCompressing(MarkCompressing(images, id), id) == MarkCompressing(images, id)
    ensures forall k :: 0 <= k < |images| ==>
      var e := MarkCompressing(images, id)[k];
      e.id == images[k].id && e.file == images[k].file && e.result == images[k].result
  {
    var once := MarkCompressing(images, id);
    var twice := MarkCompressing(once, id);
    assert forall k :: 0 <= k < |once| ==> twice[k] == once[k];
  }

  /** What the batch keeps for one entry: the snapshot taken when the batch started, marked
      completed with the result, or marked as an error (any earlier result is kept). */
  function Compressed(img: ImageFile, outcome: Result<CompressionResult>): (r: ImageFile)
    ensures r.id == img.id && r.file == img.file && r.originalSize == img.originalSize
    ensures outcome.Ok? ==> r.status == Completed && r.result == Some(outcome.value)
    ensures outcome.Err? ==> r.status == Error && r.result == img.result
  {
    match outcome
    case Ok(result) => img.(status := Completed, result := Some(result))
    case Err(_) => img.(status := Error)
  }

  /** The result of compressImage for one entry, given how the browser decodes its file and the
      canvas encoder for it. */
  function BatchOutcome(img: ImageFile, target: real, decode: SourceFile -> Option<Picture>,
                   encoderFor: SourceFile -> Encoder): Result<CompressionResult>
  {
    Search(img.file, decode(img.file), target, encoderFor(img.file)).result
  }

  /** The list startCompression installs when every compression has settled. */
  function CompressAll(images: seq<ImageFile>, target: real, decode: SourceFile -> Option<Picture>,
                       encoderFor: SourceFile -> Encoder): (r: seq<ImageFile>)
    ensures |r| == |images|
    ensures forall k :: 0 <= k < |r| ==> r[k] == Compressed(images[k], BatchOutcome(images[k], target, decode, encoderFor))
  {
    seq(|images|, k requires 0 <= k < |images| => Compressed(images[k], BatchOutcome(images[k], target, decode, encoderFor)))
  }

  /** After a batch every entry is completed or an error, in the original order, and an entry is
      completed exactly when its compression returned a blob. */
  lemma CompressAllSettles(images: seq<ImageFile>, target: real, decode: SourceFile -> Option<Picture>,
                           encoderFor: SourceFile -> Encoder)
    ensures var r := CompressAll(images, target, decode, encoderFor);
      forall k :: 0 <= k < |r| ==>
        && r[k].id == images[k].id
        && (r[k].status == Completed || r[k].status == Error)
        && (r[k].status == Completed <==> BatchOutcome(images[k], target, decode, encoderFor).Ok?)
        && (r[k].status == Completed ==> r[k].result.Some?)
        && (decode(images[k].file).None? ==> r[k].status == Error)
  {
    var r := CompressAll(images, target, decode, encoderFor);
    forall k | 0 <= k < |r|
      ensures decode(images[k].file).None? ==> r[k].status == Error
    {
      SearchErrors(images[k].file, decode(images[k].file), target, encoderFor(images[k].file));
    }
  }

  /** `images.some(img => img.status === 'idle')`. */
  function HasUnprocessed(images: seq<ImageFile>): (b: bool)
    ensures b <==> exists k :: 0 <= k < |images| && images[k].status == Idle
  {
    if images == [] then false
    else images[0].status == Idle || HasUnprocessed(images[1..])
  }

  /** The download-all controls are shown for more than one image when none is still idle. */
  function ShowsDownloadAll(images: seq<ImageFile>): (b: bool)
    ensures b <==> |images| > 1 && forall k :: 0 <= k < |images| ==> images[k].status != Idle
  {
    |images| > 1 && !HasUnprocessed(images)
  }

  /** After a batch of two or more images the download-all controls are shown. */
  lemma BatchShowsDownloadAll(images: seq<ImageFile>, target: real, decode: SourceFile -> Option<Picture>,
                              encoderFor: SourceFile -> Encoder)
    requires |images| > 1
    ensures ShowsDownloadAll(CompressAll(images, target, decode, encoderFor))
  {
    CompressAllSettles(images, target, decode, encoderFor);
  }

  /** Freshly dropped files hold the download-all controls back until they are compressed. */
  lemma NewFilesHideDownloadAll(images: seq<ImageFile>, files: seq<SourceFile>, ids: seq<string>)
    requires |ids| == |files| && |files| > 0
    ensures !ShowsDownloadAll(images + NewEntries(files, ids))
  {
    var all := images + NewEntries(files, ids);
    assert all[|images|].status == Idle;
  }

  /** The sum of the original sizes (the `reduce` of getRecommendation). */
  function TotalSize(images: seq<ImageFile>): (r: nat)
    ensures forall k :: 0 <= k < |images| ==> images[k].originalSize <= r
    ensures images == [] ==> r == 0
  {
    if images == [] then 0
    else
      var rest := TotalSize(images[1..]);
      assert forall k :: 1 <= k < |images| ==> images[k] == images[1..][k - 1];
      images[0].originalSize + rest
  }

  const LargeImage: nat := 2 * 1024 * 1024

  /** getRecommendation: the hint shown under the controls. */
  function Recommendation(images: seq<ImageFile>): (r: string)
    ensures images == [] ==> r == "Ideal for fast web loading"
    ensures images != [] ==>
      (r == "Scaling dimensions as needed" <==> TotalSize(images) > LargeImage * |images|)
    ensures images != [] && TotalSize(images) <= LargeImage * |images| ==> r == "Precision optimization active"
  {
    if |images| == 0 then "Ideal for fast web loading"
    else
      var avgSize := TotalSize(images) as real / |images| as real;
      MeanAbove(TotalSize(images), |images|, LargeImage);
      if avgSize > LargeImage as real then "Scaling dimensions as needed"
      else "Precision optimization active"
  }

  /** The mean of n sizes exceeds a bound exactly when their sum exceeds n times the bound. */
  lemma MeanAbove(total: nat, n: nat, bound: nat)
    requires n > 0
    ensures total as real / n as real > bound as real <==> total > bound * n
  {
    var m := total as real / n as real;
    assert m * n as real == total as real;
    if m > bound as real {
      assert m * n as real > bound as real * n as real by {
        assert (m - bound as real) * n as real > 0.0;
      }
    } else {
      assert m * n as real <= bound as real * n as real by {
        assert (bound as real - m) * n as real >= 0.0;
      }
    }
  }

  /** Images are scaled on average only when at least one of them is larger than 2 MiB. */
  lemma {:induction false} ScalingMeansSomeLargeImage(images: seq<ImageFile>)
    requires TotalSize(images) > LargeImage * |images|
    ensures exists k :: 0 <= k < |images| && images[k].originalSize > LargeImage
  {
    if images[0].originalSize <= LargeImage {
      ScalingMeansSomeLargeImage(images[1..]);
      var k :| 0 <= k < |images[1..]| && images[1..][k].originalSize > LargeImage;
      assert images[k + 1].originalSize > LargeImage;
    }
  }

  /** A gallery of images that are all larger than 2 MiB is scaled. */
  lemma {:induction false} AllLargeMeansScaling(images: seq<ImageFile>)
    requires images != []
    requires forall k :: 0 <= k < |images| ==> images[k].originalSize > LargeImage
    ensures TotalSize(images) > LargeImage * |images|
  {
    if |images| > 1 {
      AllLargeMeansScaling(images[1..]);
    }
  }

  /** handleDownload's file name: the name without its extension, "_exact.", and the extension.
      When the name has an extension, this inserts "_exact" just before its dot; otherwise the whole
      name's last segment is repeated after "_exact.". */
  function DownloadName(name: string): (r: string)
    ensures StripExtension(name) != name ==>
      r == StripExtension(name) + "_exact" + name[|StripExtension(name)|..]
    ensures StripExtension(name) == name ==> r == name + "_exact." + LastSegment(name)
  {
    var stem := StripExtension(name);
    assert stem != name ==> name[|stem|..] == "." + LastSegment(name);
    stem + "_exact." + LastSegment(name)
  }

  /** For a name with an extension, the download name puts "_exact" before the extension. */
  lemma DownloadNameOfDotted(stem: string, ext: string)
    requires ext != [] && '.' !in ext && '/' !in ext
    ensures DownloadName(stem + "." + ext) == stem + "_exact." + ext
  {
    var name := stem + "." + ext;
    LastSegmentAfterDot(stem, ext);
    var r := StripExtension(name);
    assert r != name;
    assert name == r + "." + ext;
    assert r == name[..|name| - |ext| - 1];
    assert name[..|stem|] == stem;
  }

  /** A name without a dot is kept and repeated as its own extension. */
  lemma DownloadNameUndotted(name: string)
    requires '.' !in name
    ensures DownloadName(name) == name + "_exact." + name
  {
    LastSegmentUndotted(name);
  }

  lemma DownloadNameExample()
    ensures DownloadName("photo.jpg") == "photo_exact.jpg"
  {
    var name := "photo.jpg";
    assert name == "photo" + "." + "jpg";
    DownloadNameOfDotted("photo", "jpg");
  }

  /** handleDownload: the name saved for an entry, or nothing when it has no result. */
  function DownloadFor(img: ImageFile): (r: Option<string>)
    ensures r.Some? <==> img.result.Some?
    ensures r.Some? ==> r.value == DownloadName(img.file.name)
  {
    if img.result.Some? then Some(DownloadName(img.file.name)) else None
  }

  /** An entry handleDownloadAll saves, under the name it is saved as. */
  predicate SavedAs(img: ImageFile, name: string) {
    img.status == Completed && img.result.Some? && DownloadName(img.file.name) == name
  }

  /** handleDownloadAll: the names saved, in list order, one per completed entry with a result. */
  function Downloads(images: seq<ImageFile>): (r: seq<string>)
    ensures |r| <= |images|
  {
    if images == [] then []
    else
      var rest := Downloads(images[1..]);
      if images[0].status == Completed && images[0].result.Some? then [DownloadName(images[0].file.name)] + rest
      else rest
  }

  /** Every completed entry with a result is downloaded, and only such entries are. */
  lemma {:induction false} DownloadsExactlyCompleted(images: seq<ImageFile>, name: string)
    ensures name in Downloads(images) <==> exists k :: 0 <= k < |images| && SavedAs(images[k], name)
  {
    if images != [] {
      var tail := images[1..];
      DownloadsExactlyCompleted(tail, name);
      var head := images[0];
      var saved := head.status == Completed && head.result.Some?;
      assert Downloads(images) == (if saved then [DownloadName(head.file.name)] else []) + Downloads(tail);
      if name in Downloads(images) {
        if name in Downloads(tail) {
          var k :| 0 <= k < |tail| && SavedAs(tail[k], name);
          assert images[k + 1] == tail[k];
        } else {
          assert SavedAs(images[0], name);
        }
      }
      if k :| 0 <= k < |images| && SavedAs(images[k], name) {
        if k > 0 {
          assert tail[k - 1] == images[k];
        }
      }
    }
  }

  /** The number of completed entries. */
  function CompletedCount(images: seq<ImageFile>): nat {
    if images == [] then 0 else (if images[0].status == Completed then 1 else 0) + CompletedCount(images[1..])
  }

  /** In a gallery where completed entries carry results, one file is saved per completed entry. */
  lemma {:induction false} DownloadsCount(images: seq<ImageFile>)
    requires forall k :: 0 <= k < |images| && images[k].status == Completed ==> images[k].result.Some?
    ensures |Downloads(images)| == CompletedCount(images)
  {
    if images != [] {
      DownloadsCount(images[1..]);
    }
  }

  /** The `Promise.all` of startCompression: compressImage for every entry of the snapshot, one after
      the other, each entry completed with its result or marked as an error. */
  method CompressBatch(snapshot: seq<ImageFile>, targetBytes: real, decode: SourceFile -> Option<Picture>,
                       encoderFor: SourceFile -> Encoder) returns (updated: seq<ImageFile>)
    ensures updated == CompressAll(snapshot, targetBytes, decode, encoderFor)
  {
    updated := [];
    for i := 0 to |snapshot|
      invariant |updated| == i
      invariant forall k :: 0 <= k < i ==>
        updated[k] == Compressed(snapshot[k], BatchOutcome(snapshot[k], targetBytes, decode, encoderFor))
    {
      var img := snapshot[i];
      var result, progress, attempts := CompressImage(img.file, decode(img.file), targetBytes, encoderFor(img.file));
      updated := updated + [Compressed(img, result)];
    }
  }

  /** The gallery's state. */
  class Gallery {
    var images: seq<ImageFile>
    var targetSize: real
    var unit: SizeUnit
    var isProcessingAll: bool

    /** A completed entry always carries its result. */
    ghost predicate Valid()
      reads this
    {
      forall k :: 0 <= k < |images| && images[k].status == Completed ==> images[k].result.Some?
    }

    constructor()
      ensures images == [] && targetSize == 1.0 && unit == MB && !isProcessingAll
      ensures Valid()
    {
      images := [];
      targetSize := 1.0;
      unit := MB;
      isProcessingAll := false;
    }

    /** handleFilesSelected: one idle entry per file is appended; `ids` are the random ids drawn. */
    method FilesSelected(files: seq<SourceFile>, ids: seq<string>)
      requires |ids| == |files| && Valid()
      modifies this
      ensures images == old(images) + NewEntries(files, ids)
      ensures targetSize == old(targetSize) && unit == old(unit) && isProcessingAll == old(isProcessingAll)
      ensures Valid()
    {
      images := images + NewEntries(files, ids);
    }

    /** The size input. */
    method SetTargetSize(size: real)
      requires Valid()
      modifies this
      ensures targetSize == size
      ensures images == old(images) && unit == old(unit) && isProcessingAll == old(isProcessingAll)
      ensures Valid()
    {
      targetSize := size;
    }

    /** The KB / MB toggle. */
    method SetUnit(u: SizeUnit)
      requires Valid()
      modifies this
      ensures unit == u
      ensures images == old(images) && targetSize == old(targetSize) && isProcessingAll == old(isProcessingAll)
      ensures Valid()
    {
      unit := u;
    }

    /** The synchronous start of startCompression, up to its first `await`: nothing happens for an
        empty gallery. Otherwise the processing flag is raised, the budget is converted, and every
        entry of the list at this moment (the snapshot the batch works on) is marked compressing. */
    method BeginCompression() returns (started: bool, snapshot: seq<ImageFile>, targetBytes: real)
      requires Valid()
      modifies this
      ensures started <==> old(images) != []
      ensures !started ==> images == old(images) && isProcessingAll == old(isProcessingAll)
      ensures started ==>
        && snapshot == old(images) && targetBytes == TargetBytes(targetSize, unit) && isProcessingAll
        && images == MarkEach(old(images), Ids(old(images)))
      ensures targetSize == old(targetSize) && unit == old(unit)
      ensures Valid()
    {
      snapshot := images;
      targetBytes := TargetBytes(targetSize, unit);
      if |images| == 0 {
        return false, snapshot, targetBytes;
      }
      started := true;
      isProcessingAll := true;
      MarkAll(Ids(snapshot));
      MarkEveryEntry(snapshot);
    }

    /** The `setImages` marks of startCompression's map callbacks, one id after the other. */
    method MarkAll(ids: seq<string>)
      modifies this
      ensures images == MarkEach(old(images), ids)
      ensures targetSize == old(targetSize) && unit == old(unit) && isProcessingAll == old(isProcessingAll)
    {
      for i := 0 to |ids|
        invariant targetSize == old(targetSize) && unit == old(unit) && isProcessingAll == old(isProcessingAll)
        invariant images == MarkEach(old(images), ids[..i])
      {
        assert ids[..i + 1][..i] == ids[..i];
        images := MarkCompressing(images, ids[i]);
      }
      assert ids[..|ids|] == ids;
    }

    /** The end of startCompression, once every compression of the batch has settled: the list is
        replaced by the snapshot with each entry completed or marked as an error, whatever the list
        holds at this moment, and the processing flag is lowered. */
    method SettleCompression(snapshot: seq<ImageFile>, targetBytes: real,
                             decode: SourceFile -> Option<Picture>, encoderFor: SourceFile -> Encoder)
      modifies this
      ensures images == CompressAll(snapshot, targetBytes, decode, encoderFor) && !isProcessingAll
      ensures targetSize == old(targetSize) && unit == old(unit)
      ensures Valid()
    {
      var updated := CompressBatch(snapshot, targetBytes, decode, encoderFor);
      images := updated;
      isProcessingAll := false;
    }

    /** startCompression when no other handler runs while the batch is in flight. */
    method StartCompression(decode: SourceFile -> Option<Picture>, encoderFor: SourceFile -> Encoder)
      requires Valid()
      modifies this
      ensures old(images) == [] ==> images == [] && isProcessingAll == old(isProcessingAll)
      ensures old(images) != [] ==>
        images == CompressAll(old(images), TargetBytes(targetSize, unit), decode, encoderFor) && !isProcessingAll
      ensures targetSize == old(targetSize) && unit == old(unit)
      ensures Valid()
    {
      var started, snapshot, targetBytes := BeginCompression();
      if started {
        SettleCompression(snapshot, targetBytes, decode, encoderFor);
      }
    }

    /** handleDownloadAll: the names of the files saved, in list order. */
    method DownloadAll() returns (names: seq<string>)
      requires Valid()
      ensures names == Downloads(images)
      ensures |names| == CompletedCount(images)
    {
      names := [];
      var i := |images|;
      while i > 0
        invariant 0 <= i <= |images|
        invariant names == Downloads(images[i..])
      {
        i := i - 1;
        var img := images[i];
        assert images[i..][1..] == images[i + 1..];
        if img.status == Completed {
          match DownloadFor(img)
          case Some(name) => names := [name] + names;
          case None =>
        }
      }
      DownloadsCount(images);
    }

    /** clearAll. */
    method ClearAll()
      modifies this
      ensures images == []
      ensures targetSize == old(targetSize) && unit == old(unit) && isProcessingAll == old(isProcessingAll)
      ensures Valid()
    {
      images := [];
    }
  }
}
