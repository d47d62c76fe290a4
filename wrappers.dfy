/** Optional values, used for the fields the source leaves unset (`Option<i32>`
    in Rust, `undefined` in TypeScript and JavaScript, `None` in Python). */
module Wrappers {

  datatype Option<+T> = None | Some(value: T)
}
