// Certificates as the path builder sees them, and the comparison of X.509 names
// (patches/x509_crt.c:173-245, 249-271, 306-364, 1939-1963, 2189-2218).
module X509Names {
  // An ASN.1 string and one attribute of a name; merged is next_merged.
  datatype Buf = Buf(tag: nat, val: seq<bv8>)
  datatype Attr = Attr(oid: Buf, val: Buf, merged: bool)
  type Name = seq<Attr>

  const UTF8_STRING := 12
  const PRINTABLE_STRING := 19

  predicate IsLetter(c: bv8) {
    'a' as bv8 <= c <= 'z' as bv8 || 'A' as bv8 <= c <= 'Z' as bv8
  }

  // The test x509_memcasecmp makes on one pair of characters.
  predicate SameChar(c: bv8, d: bv8) {
    c ^ d == 0 || (c ^ d == 32 && IsLetter(c))
  }

  function ToLower(c: bv8): bv8 {
    if 'A' as bv8 <= c <= 'Z' as bv8 then c + 32 else c
  }

  predicate SameIgnoringCase(x: seq<bv8>, y: seq<bv8>) {
    |x| == |y| && forall i :: 0 <= i < |x| ==> SameChar(x[i], y[i])
  }

  method MemCaseCmp(x: seq<bv8>, y: seq<bv8>) returns (same: bool)
    requires |x| == |y|
    ensures same == SameIgnoringCase(x, y)
  {
    hide SameChar;
    for i := 0 to |x|
      invariant forall j :: 0 <= j < i ==> SameChar(x[j], y[j])
    {
      if !SameChar(x[i], y[i]) {
        return false;
      }
    }
    return true;
  }

  predicate IsText(b: Buf) {
    b.tag == UTF8_STRING || b.tag == PRINTABLE_STRING
  }

  predicate SameString(a: Buf, b: Buf) {
    a == b || (IsText(a) && IsText(b) && SameIgnoringCase(a.val, b.val))
  }

  predicate SameAttr(a: Attr, b: Attr) {
    a.oid == b.oid && SameString(a.val, b.val) && a.merged == b.merged
  }

  predicate SameName(a: Name, b: Name) {
    |a| == |b| && forall i :: 0 <= i < |a| ==> SameAttr(a[i], b[i])
  }

  // x509_name_cmp
  method NameCmp(a: Name, b: Name) returns (same: bool)
    ensures same == SameName(a, b)
  {
    hide SameString, SameIgnoringCase;
    var i := 0;
    while i < |a| || i < |b|
      invariant 0 <= i <= |a| && i <= |b|
      invariant forall j :: 0 <= j < i ==> SameAttr(a[j], b[j])
      decreases |a| - i
    {
      if i == |a| || i == |b| {
        return false;
      }
      if a[i].oid.tag != b[i].oid.tag || |a[i].oid.val| != |b[i].oid.val| || a[i].oid.val != b[i].oid.val {
        return false;
      }
      var same' := StringCmp(a[i].val, b[i].val);
      if !same' {
        return false;
      }
      if a[i].merged != b[i].merged {
        return false;
      }
      i := i + 1;
    }
    return true;
  }

  method StringCmp(a: Buf, b: Buf) returns (same: bool)
    ensures same == SameString(a, b)
  {
    hide SameChar;
    if a.tag == b.tag && |a.val| == |b.val| && a.val == b.val {
      return true;
    }
    if IsText(a) && IsText(b) && |a.val| == |b.val| {
      same := MemCaseCmp(a.val, b.val);
      return;
    }
    return false;
  }

  // Two characters are the same exactly when their lower-case forms are equal.
  lemma SameCharIsCaseless(c: bv8, d: bv8)
    ensures SameChar(c, d) <==> ToLower(c) == ToLower(d)
  {
  }

  // Written out: the same attributes in the same order and grouping, with values that
  // are equal, or UTF-8 strings (tag 12) and printable strings (tag 19) that are equal
  // in lower case.
  lemma SameNameMeans(a: Name, b: Name)
    ensures SameName(a, b) <==>
            |a| == |b| && forall i :: 0 <= i < |a| ==>
              && a[i].oid == b[i].oid && a[i].merged == b[i].merged
              && (a[i].val == b[i].val ||
                  (a[i].val.tag in {12, 19} && b[i].val.tag in {12, 19} && |a[i].val.val| == |b[i].val.val|
                   && forall j :: 0 <= j < |a[i].val.val| ==> ToLower(a[i].val.val[j]) == ToLower(b[i].val.val[j])))
  {
    hide SameChar, ToLower;
    forall i, j | 0 <= i < |a| && i < |b| && 0 <= j < |a[i].val.val| && j < |b[i].val.val|
      ensures SameChar(a[i].val.val[j], b[i].val.val[j]) <==> ToLower(a[i].val.val[j]) == ToLower(b[i].val.val[j])
    {
      SameCharIsCaseless(a[i].val.val[j], b[i].val.val[j]);
    }
  }

  // The comparison is an equivalence, so links of a path can be read either way.
  lemma SameNameEquivalence(a: Name, b: Name, c: Name)
    ensures SameName(a, a)
    ensures SameName(a, b) ==> SameName(b, a)
    ensures SameName(a, b) && SameName(b, c) ==> SameName(a, c)
  {
    hide SameString;
    forall i | 0 <= i < |a|
      ensures SameAttr(a[i], a[i])
      ensures i < |b| && SameAttr(a[i], b[i]) ==> SameAttr(b[i], a[i])
      ensures i < |b| && i < |c| && SameAttr(a[i], b[i]) && SameAttr(b[i], c[i]) ==> SameAttr(a[i], c[i])
    {
      SameStringEquivalence(a[i].val, if i < |b| then b[i].val else a[i].val, if i < |c| then c[i].val else a[i].val);
    }
  }

  lemma SameStringEquivalence(a: Buf, b: Buf, c: Buf)
    ensures SameString(a, a)
    ensures SameString(a, b) ==> SameString(b, a)
    ensures SameString(a, b) && SameString(b, c) ==> SameString(a, c)
  {
    hide SameChar, ToLower;
    forall i | 0 <= i < |a.val|
      ensures i < |b.val| && SameChar(a.val[i], b.val[i]) ==> SameChar(b.val[i], a.val[i])
      ensures i < |b.val| && i < |c.val| && SameChar(a.val[i], b.val[i]) && SameChar(b.val[i], c.val[i]) ==> SameChar(a.val[i], c.val[i])
    {
      if i < |b.val| {
        SameCharIsCaseless(a.val[i], b.val[i]);
        SameCharIsCaseless(b.val[i], a.val[i]);
        if i < |c.val| {
          SameCharIsCaseless(b.val[i], c.val[i]);
          SameCharIsCaseless(a.val[i], c.val[i]);
        }
      }
    }
  }
}
