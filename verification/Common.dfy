/** What the components share. */
module Common {
  type byte = b: int | 0 <= b < 256

  const LF: byte := 10
  const TERMINALS := 3

  /** The bytes are the codes of this text. */
  predicate Spells(bytes: seq<byte>, text: string) {
    |bytes| == |text| && forall i :: 0 <= i < |text| ==> bytes[i] == text[i] as int
  }

  function Min(a: int, b: int): int { if a < b then a else b }

  /** A value that may be missing. */
  datatype Option<T> = None | Some(value: T)
}
