/** An optional value: TypeScript's `T | null` (and an absent optional property). */
module Wrappers {

  datatype Option<+T> = None | Some(value: T)
}
