/** Small datatypes shared by the models. */
module Prelude {

  /** A nullable value: Python's None, SQL's NULL. */
  datatype Option<+T> = None | Some(value: T)

  /** A computed value, or the error that the program raises instead. */
  datatype Result<+T, +E> = Ok(value: T) | Err(error: E)

  /** One element of a nonempty set, the same one each time. */
  ghost function PickOne<T>(s: set<T>): (x: T)
    requires s != {}
    ensures x in s
  {
    var x :| x in s;
    x
  }

  lemma Regroup<T>(a: seq<T>, b: seq<T>, c: seq<T>)
    ensures (a + b) + c == a + (b + c)
  {
  }

  /** An arbitrary element of a nonempty set, as iteration over a Python set yields it. */
  method AnyOf<T(==)>(s: set<T>) returns (x: T)
    requires s != {}
    ensures x in s
  {
    x :| x in s;
  }
}
