/** What several modules use. */
module Common {
  datatype Option<T> = None | Some(value: T)

  type byte = x: int | 0 <= x < 256

  type Bytes = seq<byte>

  /** No number twice. */
  ghost predicate Distinct(l: seq<nat>) {
    forall i, j :: 0 <= i < j < |l| ==> l[i] != l[j]
  }

  /** The bytes of a page that a page's own layout can use. */
  const PAGEUSED: nat := 4096 - 8
}
