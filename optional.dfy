/** The absent-or-present value used throughout the model: a Ruby `nil`, a
 *  JavaScript `null`/`undefined`, or a lookup that found nothing. */
module Optional {
  datatype Option<T> = None | Some(value: T)
  {
    function GetOr(default: T): (r: T)
      ensures this.Some? ==> r == this.value
      ensures this.None? ==> r == default
    {
      match this
      case None => default
      case Some(v) => v
    }
  }
}
