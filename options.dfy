/** The optional values the camera cell works with: a missing detector result,
    a nil plane base address, CoreGraphics' null rectangle. */
module Options {

  datatype Option<+T> = None | Some(value: T)
}
