/** What several modules share: optional values, and taking one element out of a sequence. */
module Common {

  datatype Option<T> = None | Some(value: T)

  function RemoveAt<T>(s: seq<T>, i: nat): (r: seq<T>)
    requires i < |s|
    ensures |r| == |s| - 1 && forall j :: 0 <= j < |r| ==> r[j] == s[if j < i then j else j + 1]
  {
    seq(|s| - 1, j requires 0 <= j < |s| - 1 => s[if j < i then j else j + 1])
  }
}
