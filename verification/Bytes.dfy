/** Bytes, and what several modules need to say about them. */
module Bytes {
  type Byte = x: int | 0 <= x < 256
  type Bytes = seq<Byte>

  const LF: Byte := 10
  const CR: Byte := 13
  const SLASH: Byte := 47

  /** SHA-256, taken as injective: a digest is as good as what was hashed. */
  datatype Digest = Sha256(preimage: Bytes)

  ghost predicate IsPrefix<T>(a: seq<T>, b: seq<T>) {
    |a| <= |b| && a == b[..|a|]
  }

  function IndexOf(data: Bytes, b: Byte): (i: nat)
    ensures i <= |data| && b !in data[..i] && (i < |data| ==> data[i] == b)
  {
    if |data| == 0 || data[0] == b then 0 else 1 + IndexOf(data[1..], b)
  }

  function DropCR(line: Bytes): Bytes {
    if |line| > 0 && line[|line| - 1] == CR then line[..|line| - 1] else line
  }
}
