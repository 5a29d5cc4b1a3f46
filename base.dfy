/** Value types shared by every part of the model: optional values, results,
    the errors the program can report, and bytes. */
module Base {

  /** An unsigned 8-bit value (Rust `u8`). */
  type byte = b: int | 0 <= b < 256

  /** An unsigned 64-bit value (Rust `u64`). */
  type u64 = n: nat | n < 0x1_0000_0000_0000_0000

  datatype Option<+T> = None | Some(value: T) {
    /** `unwrap_or`: the carried value, or `default` when there is none. */
    function GetOr(default: T): T {
      match this
      case Some(v) => v
      case None => default
    }
  }

  /** The failures the core reports through `anyhow::Result`. */
  datatype Error =
    | NoAsciiArt                        // get_builtin_art: neither the name nor "default" is present
    | ArtFileUnreadable(path: string)   // fs::read_to_string failed (missing file or not UTF-8)
    | ImageFileUnreadable(path: string) // fs::read of an image failed
    | ImageLoadFailed(path: string)     // image::open failed (unreadable or undecodable)
    | ImagesUnsupported                 // built without the `images` feature
    | CommandSpawnFailed                // the shell of a custom command could not be started
    | CommandFailed(stderr: string)     // a custom command exited unsuccessfully
    | CollectorFailed(field: string)    // a built-in field getter failed

  datatype Result<+T> = Ok(value: T) | Err(error: Error)
}
