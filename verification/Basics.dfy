/** Small shared types: optional values, results that carry an error, and octets. */
module Basics {

  datatype Option<+T> = None | Some(value: T)

  datatype Result<+T, +E> = Ok(value: T) | Err(error: E)

  /** One octet of a wire message. */
  type byte = b: int | 0 <= b < 256

  type Bytes = seq<byte>

  predicate Within(chunk: Bytes, i: int) {
    0 <= i < |chunk|
  }

  /** The octets of `chunk` stand in `buf` from offset `off` on. */
  ghost predicate At(buf: Bytes, off: int, chunk: Bytes) {
    && 0 <= off && off + |chunk| <= |buf|
    && forall i {:trigger Within(chunk, i)} :: Within(chunk, i) ==> buf[off + i] == chunk[i]
  }

  lemma {:induction false} AtConcat(buf: Bytes, off: int, a: Bytes, b: Bytes)
    ensures At(buf, off, a + b) <==> At(buf, off, a) && At(buf, off + |a|, b)
  {
    var c := a + b;
    if At(buf, off, c) {
      forall i | Within(a, i) ensures buf[off + i] == a[i] {
        assert Within(c, i);
      }
      forall i | Within(b, i) ensures buf[off + |a| + i] == b[i] {
        assert Within(c, |a| + i);
      }
    }
    if At(buf, off, a) && At(buf, off + |a|, b) {
      forall i | Within(c, i) ensures buf[off + i] == c[i] {
        assert if i < |a| then Within(a, i) else Within(b, i - |a|);
      }
    }
  }

  lemma {:induction false} AtIndex(buf: Bytes, off: int, chunk: Bytes, i: int)
    requires At(buf, off, chunk) && 0 <= i < |chunk|
    ensures buf[off + i] == chunk[i]
  {
    assert Within(chunk, i);
  }

  lemma {:induction false} AtSlice(buf: Bytes, off: int, chunk: Bytes)
    requires At(buf, off, chunk)
    ensures buf[off..off + |chunk|] == chunk
  {
    forall i | 0 <= i < |chunk| ensures buf[off + i] == chunk[i] {
      assert Within(chunk, i);
    }
  }
}
