/** What several modules share. */
module Common {

  datatype Option<T> = None | Some(value: T)

  /** `s` without the element at position `k`. */
  function Without<T>(s: seq<T>, k: nat): (r: seq<T>)
    requires k < |s|
    ensures |r| == |s| - 1
  {
    s[..k] + s[k + 1..]
  }
}
