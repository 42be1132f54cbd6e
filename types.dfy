/** Record shapes shared by the compression service and the gallery (types.ts). */
module Types {

  datatype Option<+T> = None | Some(value: T)

  /** Why a call to the compression service throws instead of returning a result. */
  datatype Failure =
    | DecodeFailed  // loadImage rejected: the file could not be read or decoded as an image
    | EncodeFailed  // the canvas had no 2-d context, or toBlob produced no blob

  datatype Result<+T> = Ok(value: T) | Err(error: Failure)

  /** A browser File as the core uses it: its name, its MIME type and its size in bytes. */
  datatype SourceFile = SourceFile(name: string, mimeType: string, size: nat)

  /** The unit the target size is typed in. */
  datatype SizeUnit = KB | MB

  /** The life cycle of one gallery entry. */
  datatype Status = Idle | Compressing | Completed | Error

  /** What createResult returns. The blob is represented by its size; its preview URL is not modelled. */
  datatype CompressionResult = CompressionResult(
    finalSize: nat,
    reductionPercentage: real,
    format: string,
    quality: int)

  /** One gallery entry (ImageFile); the preview URL is not modelled. */
  datatype ImageFile = ImageFile(
    id: string,
    file: SourceFile,
    originalSize: nat,
    status: Status,
    result: Option<CompressionResult>)
}
