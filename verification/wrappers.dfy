/** Option and Result types shared by both versions of the store.

    Python's `None` as a typed-getter result becomes `Option.None`; the
    exceptions the store raises become `Result.Err` carrying an `Error`. */
module Wrappers {

  datatype Option<+T> = None | Some(value: T)

  /** The Python exceptions the tree logic can raise. */
  datatype Error =
    | TypeError        // a key or default of the wrong type
    | KeyError         // reading a mapping entry that was just deleted
    | AttributeError   // calling a method the class does not define
    | NameError        // a module imported only inside a class body, used in a method

  datatype Result<+T> = Ok(value: T) | Err(error: Error)
}
