/** Values shared by every part of the multipart relay. */
module Common {

  datatype Option<+T> = None | Some(value: T)

  /** Outcome of an operation that may throw (JavaScript `throw new Error(...)`). */
  datatype Result<+T> = Ok(value: T) | Thrown(error: Error)

  /**
   * The errors the relay creates or passes along.
   * - MissingStreamer: 'No streamer found. Must pass a streamer to multipart-pipe', thrown by defaults.
   * - ByteLimitExceeded: 'Byte Limit exceeded', used when a file part arrives over the limit.
   * - S3Status: 'Error uploading to s3: ' followed by the status code of a non-2xx response.
   * - Foreign: an error object created by a collaborator (the multipart decoder, the S3 client,
   *   a user-supplied streamer), identified only by its description.
   */
  datatype Error =
    | MissingStreamer
    | ByteLimitExceeded
    | S3Status(statusCode: int)
    | Foreign(description: string)

  /**
   * A file part as the multipart decoder announces it.
   * `filename` is "" when the part carries no filename (JavaScript undefined or empty: falsy).
   * `contentType` is the value of the part's Content-Type header.
   * `byteCount` is the part's declared length, when the decoder knows it.
   */
  datatype Part = Part(filename: string, contentType: string, byteCount: Option<int>)
}
