/** An optional value: the model's counterpart of a Swift optional (`T?`). */
module Optional {

  datatype Option<+T> = None | Some(value: T)

}
