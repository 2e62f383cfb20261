/** Types shared by the models of the storage engine and its cluster layer. */
module Common {

  datatype Option<+T> = None | Some(value: T)

  newtype byte = x: int | 0 <= x < 256

  /** An object's logical bytes: what a client uploaded, whatever container they are stored in. */
  datatype Content = Content(bytes: seq<byte>)

  /**
   * An object's ETag. `Digest` is the content hash, taken to be free of collisions; `Blank` is the
   * empty string that a copy of an ETag-less row is stored with.
   */
  datatype Etag = Digest(of: Content) | Blank

  type Key = string

  lemma Regroup<T>(a: seq<T>, b: seq<T>, c: seq<T>)
    ensures a + (b + c) == (a + b) + c
  {
  }
}
