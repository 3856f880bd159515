/** The payload bytes of a heap: written, overwritten by headers, copied. */
module Payload {
  import opened Tiling

  datatype Cell = Unset | Holds(value: int)

  function Peek(data: map<Addr, int>, x: Addr): Cell {
    if x in data then Holds(data[x]) else Unset
  }

  ghost predicate Agree(d: map<Addr, int>, e: map<Addr, int>, lo: Addr, hi: Addr) {
    forall x :: lo <= x < hi ==> Peek(d, x) == Peek(e, x)
  }

  /** The bytes left when a header of hs bytes is written at a. */
  function Clobber(data: map<Addr, int>, a: Addr, hs: int): map<Addr, int> {
    map x | x in data && !(a <= x < a + hs) :: data[x]
  }

  /** rt_memcpy, byte by byte; an unwritten byte stays unwritten. */
  function Copy(data: map<Addr, int>, dst: Addr, src: Addr, n: int): map<Addr, int> {
    if n <= 0 then data
    else
      var d := Copy(data, dst, src, n - 1);
      if src + n - 1 in d then d[dst + n - 1 := d[src + n - 1]] else d - {dst + n - 1}
  }

  lemma {:induction false} CopyAt(data: map<Addr, int>, dst: Addr, src: Addr, n: int, x: Addr)
    requires dst + n <= src || src + n <= dst
    ensures Peek(Copy(data, dst, src, n), x) == Peek(data, if dst <= x < dst + n then src + (x - dst) else x)
  {
    if n > 0 {
      CopyAt(data, dst, src, n - 1, x);
      CopyAt(data, dst, src, n - 1, src + n - 1);
    }
  }
}
