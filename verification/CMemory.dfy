/** The memory functions of the C library that the modelled code calls on arrays. */
module CMemory {

  /** memmove within one array; the two ranges may overlap. */
  method MemMove<T>(a: array<T>, dst: nat, src: nat, n: nat)
    requires dst + n <= a.Length && src + n <= a.Length
    modifies a
    ensures forall i :: dst <= i < dst + n ==> a[i] == old(a[i - dst + src])
    ensures forall i :: 0 <= i < a.Length && !(dst <= i < dst + n) ==> a[i] == old(a[i])
  {
    if dst <= src {
      var i := 0;
      while i < n
        invariant 0 <= i <= n
        invariant forall j :: dst <= j < dst + i ==> a[j] == old(a[j - dst + src])
        invariant forall j :: 0 <= j < a.Length && !(dst <= j < dst + i) ==> a[j] == old(a[j])
      {
        a[dst + i] := a[src + i];
        i := i + 1;
      }
    } else {
      var i := n;
      while i > 0
        invariant 0 <= i <= n
        invariant forall j :: dst + i <= j < dst + n ==> a[j] == old(a[j - dst + src])
        invariant forall j :: 0 <= j < a.Length && !(dst + i <= j < dst + n) ==> a[j] == old(a[j])
      {
        i := i - 1;
        a[dst + i] := a[src + i];
      }
    }
  }

  /** memcpy of the elements of s. */
  method MemCpy<T>(a: array<T>, dst: nat, s: seq<T>)
    requires dst + |s| <= a.Length
    modifies a
    ensures a[dst..dst + |s|] == s
    ensures forall i :: 0 <= i < a.Length && !(dst <= i < dst + |s|) ==> a[i] == old(a[i])
  {
    var i := 0;
    while i < |s|
      invariant 0 <= i <= |s|
      invariant forall j :: dst <= j < dst + i ==> a[j] == s[j - dst]
      invariant forall j :: 0 <= j < a.Length && !(dst <= j < dst + i) ==> a[j] == old(a[j])
    {
      a[dst + i] := s[i];
      i := i + 1;
    }
  }

  /** realloc: what fits is kept. */
  method Realloc<T(0)>(a: array<T>, n: nat) returns (r: array<T>)
    ensures fresh(r) && r.Length == n
    ensures forall i :: 0 <= i < n && i < a.Length ==> r[i] == a[i]
  {
    r := new T[n];
    var i := 0;
    while i < n && i < a.Length
      invariant 0 <= i <= n
      invariant forall j :: 0 <= j < i && j < a.Length ==> r[j] == a[j]
    {
      r[i] := a[i];
      i := i + 1;
    }
  }
}
