/** Fixed-size ring buffers against the plain definition over the whole history. */
module Ring {

  function Repeat<T>(x: T, n: nat): (s: seq<T>)
    ensures |s| == n && forall i :: 0 <= i < n ==> s[i] == x
  {
    if n == 0 then [] else [x] + Repeat(x, n - 1)
  }

  /** The last `n` values of a history, oldest first, padded in front. */
  function Window<T>(history: seq<T>, n: nat, pad: T): (w: seq<T>)
    ensures |w| == n
  {
    if |history| >= n then history[|history| - n..] else Repeat(pad, n - |history|) + history
  }

  /** The content of a ring whose oldest value is at `front`. */
  function Unrolled<T>(ring: seq<T>, front: nat): seq<T>
    requires front <= |ring|
  {
    ring[front..] + ring[..front]
  }

  /** Overwriting the oldest value and moving on appends to the unrolled ring. */
  lemma PushUnrolled<T>(ring: seq<T>, front: nat, x: T)
    requires front < |ring|
    ensures Unrolled(ring[front := x], (front + 1) % |ring|) == Unrolled(ring, front)[1..] + [x]
  {
    var next := ring[front := x];
    if front + 1 == |ring| {
      assert (front + 1) % |ring| == 0;
      assert Unrolled(next, 0) == next == ring[..front] + [x];
      assert Unrolled(ring, front)[1..] == ring[..front];
    } else {
      assert (front + 1) % |ring| == front + 1;
      assert next[front + 1..] == ring[front + 1..] && next[..front + 1] == ring[..front] + [x];
      assert Unrolled(ring, front)[1..] == ring[front + 1..] + ring[..front];
    }
  }

  lemma WindowAppend<T>(history: seq<T>, n: nat, pad: T, x: T)
    requires n > 0
    ensures Window(history + [x], n, pad) == Window(history, n, pad)[1..] + [x]
  {
    if |history| >= n {
      assert (history + [x])[|history| + 1 - n..] == history[|history| - n..][1..] + [x];
    } else if |history| + 1 < n {
      assert Repeat(pad, n - |history|)[1..] == Repeat(pad, n - |history| - 1);
    }
  }
}
