/** Option and Result values shared by every puzzle module.
    A Rust `panic!` (or an `unwrap` of `None`/`Err`) is modelled as an `Err`
    value carrying a short reason, so that every panic path is part of the model. */
module Wrappers {

  datatype Option<T> = None | Some(value: T)

  datatype Result<T> = Ok(value: T) | Err(reason: string)

  /** Rust's `Ordering`. */
  datatype Ordering = Less | Equal | Greater {
    function Reverse(): Ordering {
      match this
      case Less => Greater
      case Equal => Equal
      case Greater => Less
    }
  }

  /** The order `#[derive(PartialOrd)]` gives an `Option`: `None` is below every `Some`. */
  predicate OptionLe(a: Option<nat>, b: Option<nat>) {
    match a
    case None => true
    case Some(x) => b.Some? && x <= b.value
  }
}
