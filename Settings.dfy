/**
 * The preferences the core reads (SharedPreferencesManager.kt), passed as an
 * immutable record instead of being looked up in the platform store.
 */
module Settings {
  import opened Options

  datatype Settings = Settings(
    leftToRight: bool,
    onePage: bool,
    coverSeparate: bool,
    verticalScroll: bool,
    pageNumber: int,
    resolution: Option<string>,
    landscape: bool,
    invert: bool,
    grayscale: bool)

  /** The defaults the getters fall back to when nothing is stored. */
  const Defaults: Settings := Settings(
    leftToRight := true,
    onePage := true,
    coverSeparate := true,
    verticalScroll := false,
    pageNumber := 0,
    resolution := Some("LOW"),
    landscape := false,
    invert := false,
    grayscale := false)
}
