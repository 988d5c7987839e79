/** memmove of lib/string.c, in its portable form. */
module Strings {

  /** A copy of n elements from s to d, as if through a second buffer. */
  function Moved<T>(b: seq<T>, d: nat, s: nat, n: nat): (r: seq<T>)
    requires s + n <= |b| && d + n <= |b|
    ensures |r| == |b|
  {
    b[..d] + b[s..s + n] + b[d + n..]
  }

  /** The copy, element by element. */
  lemma MovedIs<T>(b: seq<T>, n: seq<T>, d: nat, s: nat, count: nat)
    requires s + count <= |b| && d + count <= |b| == |n|
    requires forall i :: d <= i < d + count ==> n[i] == b[s + (i - d)]
    requires forall i :: 0 <= i < d || d + count <= i < |b| ==> n[i] == b[i]
    ensures n == Moved(b, d, s, count)
  {
  }

  /** The regions may overlap either way: the copy runs downwards when the destination
      starts inside the source, and upwards otherwise. */
  method Memmove<T>(buf: array<T>, dst: nat, src: nat, count: nat)
    requires src + count <= buf.Length && dst + count <= buf.Length
    modifies buf
    ensures buf[..] == Moved(old(buf[..]), dst, src, count)
  {
    ghost var b := buf[..];
    var s, d, n := src, dst, count;
    if s < d && s + n > d {
      s, d := s + n, d + n;
      while n > 0
        invariant 0 <= n <= count && s == src + n && d == dst + n
        invariant forall i :: d <= i < dst + count ==> buf[i] == b[src + (i - dst)]
        invariant forall i :: 0 <= i < d || dst + count <= i < buf.Length ==> buf[i] == b[i]
      {
        n := n - 1;
        d, s := d - 1, s - 1;
        buf[d] := buf[s];
      }
    } else {
      while n > 0
        invariant 0 <= n <= count && s == src + (count - n) && d == dst + (count - n)
        invariant forall i :: dst <= i < d ==> buf[i] == b[src + (i - dst)]
        invariant forall i :: 0 <= i < dst || d <= i < buf.Length ==> buf[i] == b[i]
      {
        n := n - 1;
        buf[d] := buf[s];
        d, s := d + 1, s + 1;
      }
    }
    MovedIs(b, buf[..], dst, src, count);
  }
}
