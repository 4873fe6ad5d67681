/** Optional values and the failures the carver can run into. */
module Results {

  datatype Option<+T> = None | Some(value: T)

  /** Why a decoding step produced no value. */
  datatype Error =
    /** `struct.unpack_from` raised: the buffer that was read is shorter than
        the field it is asked for (the volume ended early). */
    | ShortRead
    /** The boot sector does not end in 0x55 0xAA; the program reports this
        and exits with status 1. */
    | BadBootSignature
    /** A buffered `read` was asked for a length below -1 and raised
        ValueError: `parse_fat` reads `fat_size_byte - 8` bytes, so this
        happens for any FAT smaller than 7 bytes. */
    | BadReadLength

  datatype Result<+T> = Ok(value: T) | Err(error: Error)

  /** The outcome of a parse step that only updates fields. */
  datatype Outcome = Pass | Fail(error: Error)
}
