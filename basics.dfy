/** Datatypes shared by every module: `Option`, where `None` stands for a JavaScript
    value that is `undefined` (or absent) where the source tests for it, and `Toast`,
    a notification the React components raise with `toast.success` or `toast.error`. */
module Basics {

  datatype Option<T> = None | Some(value: T)

  datatype Toast = SuccessToast(message: string) | ErrorToast(message: string)
}
