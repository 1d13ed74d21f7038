// Writing into buffers.
module Buffers {
  // a is not the same object as b; the verifier does not derive it from their types.
  predicate Apart(a: object, b: object) {
    a != b
  }

  // s with the elements from pos on replaced by b.
  function Overwrite<T>(s: seq<T>, pos: nat, b: seq<T>): (r: seq<T>)
    requires pos + |b| <= |s|
    ensures |r| == |s|
  {
    s[..pos] + b + s[pos + |b|..]
  }

  lemma Append<T>(was: seq<T>, o: nat, done: seq<T>, b: seq<T>)
    requires o + |done| + |b| <= |was|
    ensures Overwrite(Overwrite(was, o, done), o + |done|, b) == Overwrite(was, o, done + b)
  {
  }

  lemma OverwriteNothing<T>(s: seq<T>, o: nat, b: seq<T>)
    requires o <= |s| && |b| == 0
    ensures Overwrite(s, o, b) == s
  {
  }

  method StoreBytes<T>(r: array<T>, pos: nat, b: seq<T>)
    requires pos + |b| <= r.Length
    modifies r
    ensures r[..] == Overwrite(old(r[..]), pos, b)
  {
    var k := 0;
    while k < |b|
      invariant 0 <= k <= |b|
      invariant forall l :: 0 <= l < k ==> r[pos + l] == b[l]
      invariant forall l :: 0 <= l < pos || pos + k <= l < r.Length ==> r[l] == old(r[l])
    {
      r[pos + k] := b[k];
      k := k + 1;
    }
  }
}
