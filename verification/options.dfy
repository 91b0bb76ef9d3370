/** Optional values, standing for Swift's `T?`. */
module Options {

  datatype Option<T> = None | Some(value: T)

}
