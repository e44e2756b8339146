/**
 * A file-system path, reduced to what the library asks of it: its last name
 * component, which `Path.getFileName` reports as absent only for a root (the
 * empty path has one, empty, name).
 * A null `Path` argument is `None` of `Option<Path>`.
 */
module Paths {
  import opened Wrappers

  datatype Path = Path(fileName: Option<string>)
}
