/** Definitions that several components share. */
module Common {
  datatype Option<T> = None | Some(value: T)

  /** How many values an unsigned 64-bit word has, and so a size_t. */
  const WORD64: nat := 0x1_0000_0000_0000_0000

  /** The life cycle of a connection. */
  datatype ConnState = Connected | HalfClosed | DisConnected

  lemma {:induction false} Regroup<T>(a: seq<T>, b: seq<T>, c: seq<T>)
    ensures (a + b) + c == a + (b + c)
  {
  }
}
