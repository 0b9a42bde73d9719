/** Small operations on sequences that several services share. */
module Sequences {

  /** The first k elements, or all of them. */
  function Take<T>(s: seq<T>, k: nat): seq<T> {
    if |s| <= k then s else s[..k]
  }

  function Repeat<T>(n: nat, x: T): (s: seq<T>)
    ensures |s| == n && forall i :: 0 <= i < n ==> s[i] == x
  {
    seq(n, _ => x)
  }

  /** The parts with the separator between them. */
  function Joined(parts: seq<string>, sep: string): string {
    if parts == [] then ""
    else if |parts| == 1 then parts[0]
    else Joined(parts[..|parts| - 1], sep) + (sep + parts[|parts| - 1])
  }
}
