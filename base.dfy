/** Small value types shared by the model: an optional value and a Go slice,
    whose nil value is distinct from an empty non-nil slice. */
module Base {

  datatype Option<T> = None | Some(value: T)

  /** A Go slice: `Nil` is the nil slice, `NonNil(items)` any allocated slice,
      possibly of length zero. */
  datatype Slice<T> = Nil | NonNil(items: seq<T>) {
    /** The elements, as Go's `len` and `range` see them (a nil slice has none). */
    function Elements(): seq<T> {
      match this
      case Nil => []
      case NonNil(items) => items
    }
  }
}
