/** What several parts of the model share. */
module Common {

  datatype Option<T> = None | Some(value: T)

  /** Words of the machine have 64 bits. */
  const WORD_MODULUS: nat := 0x1_0000_0000_0000_0000

  ghost predicate NoDuplicates<T>(s: seq<T>) {
    forall i, j | 0 <= i < j < |s| :: s[i] != s[j]
  }
}
