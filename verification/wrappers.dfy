/** `Option` and the pass/fail outcome of a check, shared by the ledger modules. */
module Wrappers {

  /** An optional value: the model's counterpart of Rust's `Option`. */
  datatype Option<+T> = None | Some(value: T)

  /** The result of a validation step that produces no value: it either passes
      or fails with an error. */
  datatype Outcome<+E> = Pass | Fail(error: E)
}
