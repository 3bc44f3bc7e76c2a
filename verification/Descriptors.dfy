/** The region descriptors of the cache buffer.  One descriptor stands for one region of
    the buffer: a cached entry when BUSY, a free region when FREE. */
module Descriptors {
  const NOENTRY := -1

  /** What a get asks for: the identity of a cached entry. */
  datatype Key = Key(rank: int, addr: int, size: nat)

  datatype Kind = FREE | BUSY

  datatype Entry = Entry(
    getInfo: Key,
    size: nat,
    kind: Kind,
    htindex: int,
    tnode: int,
    mprev: int,
    mnext: int,
    offset: nat,
    pending: int
  )

  /** The number of bytes in a region. */
  function Length(e: Entry): nat {
    if e.kind == BUSY then e.getInfo.size else e.size
  }

  function Compare(a: nat, b: nat): int {
    if a > b then 1 else if a < b then -1 else 0
  }
}
