/** Optional values and exception outcomes shared by every module. */
module Wrappers {
  /** `None` stands for a C# null result. */
  datatype Option<T> = None | Some(value: T)
  {
    function GetOr(default: T): T
    {
      match this
      case None => default
      case Some(v) => v
    }
  }

  /** A C# call that either returns a value or throws. */
  datatype Outcome<T> = Threw | Returned(value: T)

  /** Sequence concatenation is associative; a step for proofs that regroup appended pieces. */
  lemma AppendAssoc<T>(a: seq<T>, b: seq<T>, c: seq<T>)
    ensures (a + b) + c == a + (b + c)
  {
  }
}
