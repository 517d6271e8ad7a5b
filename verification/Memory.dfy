/** memcpy and memmove on arrays, cell by cell. */
module Memory {

  method Memcpy<T>(dst: array<T>, at: nat, src: seq<T>)
    requires at + |src| <= dst.Length
    modifies dst
    ensures forall i :: at <= i < at + |src| ==> dst[i] == src[i - at]
    ensures forall i :: 0 <= i < dst.Length && !(at <= i < at + |src|) ==> dst[i] == old(dst[i])
  {
    forall i | at <= i < at + |src| {
      dst[i] := src[i - at];
    }
  }

  method Memmove<T>(a: array<T>, to: nat, from: nat, n: nat)
    requires to + n <= a.Length && from + n <= a.Length
    modifies a
    ensures forall i :: to <= i < to + n ==> a[i] == old(a[i - to + from])
    ensures forall i :: 0 <= i < a.Length && !(to <= i < to + n) ==> a[i] == old(a[i])
  {
    forall i | to <= i < to + n {
      a[i] := a[i - to + from];
    }
  }
}
