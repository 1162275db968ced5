/** The optional value that stands in for Rust's `Option` (no hit, absorbed ray) and for a panic. */
module Options {

  datatype Option<+T> = None | Some(value: T)
}
