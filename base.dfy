/**
 * Vocabulary shared by the whole model: handles into the cell arena, observer
 * identities, and the outcomes that stand for the library's exceptions.
 */
module Base {

  /** A cell's stable handle in the arena; it plays the part of the weak reference. */
  type CellId = nat

  /** Observers are opaque callbacks; only their identity matters. */
  type ObserverId = nat

  datatype Option<T> = None | Some(value: T)

  /**
   * One kind per exception the library throws. The error messages of the
   * source become these kinds.
   */
  datatype Failure =
    | AlreadyBound          // bindTo on a peer already among the live links
    | SelfBind              // older library: bindTo(this)
    | DisabledMutation      // value setter on a disabled cell
    | LeaseActive           // disabled setter on a leased cell
    | AlreadyLeased         // beginLease inside a component that holds a lease
    | ReturnWithoutSource   // returnLease on a holder never bound to a source
    | NoActiveLease         // endLease on a cell that is not leased
    | LeaseMismatch         // endLease with a holder other than the active one
    | InstanceTypeMismatch  // bound copy of another variant than its source
    | NullUnbind            // unbindFrom(null)
    | ReturnedLease         // setter on a holder whose lease was returned
    | DeadReference         // a dead weak handle dereferenced as non-null

  /** The outcome of an operation that returns nothing. */
  datatype Outcome = Done | Fail(failure: Failure)

  /** The outcome of an operation that returns a value. */
  datatype Result<R> = Ok(value: R) | Err(failure: Failure)

  /** Concatenation is associative. */
  lemma AppendAssoc<X>(a: seq<X>, b: seq<X>, c: seq<X>)
    ensures (a + b) + c == a + (b + c)
  {
  }
}
