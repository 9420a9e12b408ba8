/** Values shared by the intake form's components. */
module Common {

  /** An optional value; None stands for Python's None. */
  datatype Option<+T> = None | Some(value: T)

  /** One octet of an uploaded file. */
  newtype byte = x: int | 0 <= x < 256

  /**
   * One file handed over by the uploader: its original file name, the size the
   * uploader reports (in bytes) and its content.
   */
  datatype UploadedFile = UploadedFile(name: string, size: nat, bytes: seq<byte>)

  /** f applied to each element of s, in order. */
  function Map<A, B>(f: A -> B, s: seq<A>): seq<B>
  {
    seq(|s|, i requires 0 <= i < |s| => f(s[i]))
  }

  lemma MapSnoc<A, B>(f: A -> B, s: seq<A>, x: A)
    ensures Map(f, s + [x]) == Map(f, s) + [f(x)]
  {
    assert forall i :: 0 <= i < |s| ==> (s + [x])[i] == s[i];
  }
}
