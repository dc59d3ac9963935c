/** A Java reference that may be null, or a value that may be absent. */
module Optional {

  datatype Option<+T> = None | Some(value: T)

  /** Null-safe equality of two references (java.util.Objects.equals on value types). */
  predicate NullSafeEquals<T(==)>(a: Option<T>, b: Option<T>)
  {
    match (a, b)
    case (None, None) => true
    case (Some(x), Some(y)) => x == y
    case _ => false
  }

  /** Null-safe equality is plain value equality. */
  lemma NullSafeEqualsIsEquality<T>(a: Option<T>, b: Option<T>)
    ensures NullSafeEquals(a, b) <==> a == b
  {
  }
}
