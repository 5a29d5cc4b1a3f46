/** What the logo resolver and the display read from outside the program,
    given as values: the operating system's name, environment variables, the
    readable files, the decoded images, how the program was built and
    whether `colored` styles its output. */
module Environment {
  import opened Base

  /** One pixel of a decoded image (the alpha channel is not used). */
  datatype Rgb = Rgb(r: byte, g: byte, b: byte)

  /** A decoded image as rows of pixels, each row as wide as the first. */
  type Grid = g: seq<seq<Rgb>> | forall y :: 0 <= y < |g| ==> |g[y]| == |g[0]|

  datatype Host = Host(
    osName: Option<string>,         // sysinfo::System::name()
    termProgram: Option<string>,    // env::var("TERM_PROGRAM"), when set and valid Unicode
    term: Option<string>,           // env::var("TERM")
    inTmux: bool,                   // env::var("TMUX").is_ok()
    files: map<string, seq<byte>>,  // the files fs::read can read, with their bytes
    images: map<string, Grid>,      // image::open(path) then resize(29, 15, Lanczos3), where it succeeds
    imagesFeature: bool,            // built with the cargo feature `images`
    colors: bool)                   // `colored` styles its output (a terminal, no NO_COLOR)
}
