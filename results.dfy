/**
 * Error reporting shared by the whole model. Each exception the Kotlin code
 * throws for an expected condition becomes one `Error` value, and a call that
 * can throw returns a `Result` or an `Outcome` instead.
 */
module Results {

  datatype Option<+T> = None | Some(value: T)

  datatype Error =
    | CapacityExceeded        // IllegalStateException: maximum number of sessions reached
    | PhysicalDisplayBusy     // IllegalStateException: physical display is already controlled
    | SessionDestroyed        // IllegalStateException: session has been destroyed
    | InvalidDisplaySize      // IllegalArgumentException: a non-positive width, height or density
    | DisplayCreationFailed   // RuntimeException: the platform refused to create a virtual display
    | DisplayReleaseFailed    // an exception thrown by VirtualDisplay.release()
    | NoImageAvailable        // RuntimeException: no image available from the ImageReader
    | BufferPositionInvalid   // IllegalArgumentException from ByteBuffer.position
    | OutputIndexOutOfBounds  // IndexOutOfBoundsException from ByteBuffer.get(dst, off, len)
    | BufferUnderflow         // BufferUnderflowException from ByteBuffer.get(dst, off, len)
    | PhysicalCaptureFailed   // RuntimeException: cannot capture physical display
    | NegativeSleep           // IllegalArgumentException from Thread.sleep with a negative timeout
    | UnknownNamespace        // IllegalArgumentException: unknown settings namespace
    | PackageNotFound         // IllegalArgumentException: package has no launch intent
    | ApkNotFound             // IllegalArgumentException: APK file not found
    | ShellTimeout            // RuntimeException: shell command timed out

  /** The value of a call that returns `T` or throws. */
  datatype Result<+T> = Ok(value: T) | Err(error: Error)

  /** The value of a call that returns nothing or throws. */
  datatype Outcome = Pass | Fail(error: Error)
}
