/** The absent-or-present value used wherever the service ends up with
    JavaScript's `undefined` or a TypeError: a missing lookup, an unparsable
    date, a promise chain whose `.catch` swallowed a TypeError, or the
    uncaught TypeError of formatting a closed ballot without choices. */
module Optional {

  datatype Option<+T> = None | Some(value: T)

}
