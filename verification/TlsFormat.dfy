// Printing and parsing fields in the presentation language of TLS (RFC 8446,
// section 3): big-endian numbers, byte strings of fixed length, and byte strings
// with their length in front (patches/ssl_tls.c:4178-4354).
module TlsFormat {
  import opened Wrappers
  import opened Division

  type octet = x: int | 0 <= x < 256

  // MBEDTLS_PUT_UINT16_BE and its relatives: the low w bytes of n, most significant first.
  function Put(n: nat, w: nat): (s: seq<octet>)
    ensures |s| == w
  {
    if w == 0 then [] else Put(n / 256, w - 1) + [n % 256]
  }

  // MBEDTLS_GET_UINT16_BE and its relatives.
  function Get(s: seq<octet>): (n: nat) {
    if s == [] then 0 else Get(s[..|s| - 1]) * 256 + s[|s| - 1]
  }

  function Power(w: nat): (p: nat)
    ensures p > 0
  {
    if w == 0 then 1 else 256 * Power(w - 1)
  }

  lemma {:induction false} GetPut(n: nat, w: nat)
    ensures Get(Put(n, w)) == n % Power(w)
  {
    if w > 0 {
      GetPut(n / 256, w - 1);
      var s := Put(n, w);
      assert s[..w - 1] == Put(n / 256, w - 1);
      NestedRemainder(n, Power(w - 1));
    }
  }

  lemma NestedRemainder(n: nat, p: nat)
    requires p > 0
    ensures (n / 256) % p * 256 + n % 256 == n % (256 * p)
  {
    var q, r := n / 256 / p, (n / 256) % p;
    Euclid(n / 256, p);
    assert n == q * (256 * p) + (r * 256 + n % 256);
    Quotient(n, 256 * p, q, r * 256 + n % 256);
  }

  lemma {:induction false} PutGet(s: seq<octet>)
    ensures Put(Get(s), |s|) == s && Get(s) < Power(|s|)
  {
    if s != [] {
      PutGet(s[..|s| - 1]);
    }
  }

  lemma NestedQuotient(n: nat, p: nat)
    requires p > 0
    ensures n / 256 / p == n / (256 * p)
  {
    var q, r := n / 256 / p, (n / 256) % p;
    Euclid(n / 256, p);
    assert n == q * (256 * p) + (r * 256 + n % 256);
    Quotient(n, 256 * p, q, r * 256 + n % 256);
  }

  // Most significant byte first: byte i of w is the digit of 256^(w - 1 - i).
  lemma {:induction false} PutByte(n: nat, w: nat, i: nat)
    requires i < w
    ensures Put(n, w)[i] == n / Power(w - 1 - i) % 256
  {
    if i < w - 1 {
      PutByte(n / 256, w - 1, i);
      NestedQuotient(n, Power(w - 2 - i));
    }
  }

  lemma GetByte(s: seq<octet>, i: nat)
    requires i < |s|
    ensures Get(s) / Power(|s| - 1 - i) % 256 == s[i]
  {
    hide Put, Get, Power;
    PutGet(s);
    PutByte(Get(s), |s|, i);
  }

  // ----- fields

  datatype Field = Number(width: nat) | Fixed(size: nat) | Vector(lenWidth: nat)
  datatype Value = Num(n: nat) | Bytes(b: seq<octet>)

  // The value fits the field.
  predicate Fits(f: Field, v: Value) {
    match f
    case Number(w) => v.Num? && v.n < Power(w)
    case Fixed(k) => v.Bytes? && |v.b| == k
    case Vector(w) => v.Bytes? && |v.b| < Power(w)
  }

  // The value has the shape of the field; a number or a length that is too large is
  // printed without its upper bytes.
  predicate Shaped(f: Field, v: Value) {
    match f
    case Number(_) => v.Num?
    case Fixed(k) => v.Bytes? && |v.b| == k
    case Vector(_) => v.Bytes?
  }

  function Print(f: Field, v: Value): (s: seq<octet>)
    requires Shaped(f, v)
  {
    match f
    case Number(w) => Put(v.n, w)
    case Fixed(_) => v.b
    case Vector(w) => Put(|v.b|, w) + v.b
  }

  // One field from the front of s, and the rest.
  function Parse(f: Field, s: seq<octet>): (r: Option<(Value, seq<octet>)>)
    ensures r.Some? ==> |r.value.1| <= |s|
  {
    match f
    case Number(w) => if |s| < w then None else Some((Num(Get(s[..w])), s[w..]))
    case Fixed(k) => if |s| < k then None else Some((Bytes(s[..k]), s[k..]))
    case Vector(w) =>
      if |s| < w then None else
        var n := Get(s[..w]);
        if |s| < w + n then None else Some((Bytes(s[w..w + n]), s[w + n..]))
  }

  lemma ParsePrint(f: Field, v: Value, rest: seq<octet>)
    requires Fits(f, v)
    ensures Parse(f, Print(f, v) + rest) == Some((v, rest))
  {
    hide Power, Get, Put;
    var s := Print(f, v) + rest;
    match f {
      case Number(w) =>
        GetPut(v.n, w);
        SmallRemainder(v.n, Power(w));
        assert s[..w] == Put(v.n, w) && s[w..] == rest;
      case Fixed(k) =>
        assert s[..k] == v.b && s[k..] == rest;
      case Vector(w) =>
        GetPut(|v.b|, w);
        SmallRemainder(|v.b|, Power(w));
        assert s[..w] == Put(|v.b|, w) && s[w..w + |v.b|] == v.b && s[w + |v.b|..] == rest;
    }
  }

  lemma SmallRemainder(n: nat, p: nat)
    requires n < p
    ensures n % p == n
  {
  }

  // Whatever is parsed is the print of the value found.
  lemma PrintParse(f: Field, s: seq<octet>)
    requires Parse(f, s).Some?
    ensures var (v, rest) := Parse(f, s).value; Fits(f, v) && Shaped(f, v) && s == Print(f, v) + rest
  {
    hide Power, Get, Put;
    match f {
      case Number(w) =>
        PutGet(s[..w]);
        assert s == s[..w] + s[w..];
      case Fixed(k) =>
        assert s == s[..k] + s[k..];
      case Vector(w) =>
        PutGet(s[..w]);
        var n := Get(s[..w]);
        assert s == s[..w] + s[w..w + n] + s[w + n..];
    }
  }

  // ----- records

  predicate AllFit(fs: seq<Field>, vs: seq<Value>) {
    |fs| == |vs| && forall i :: 0 <= i < |fs| ==> Fits(fs[i], vs[i])
  }

  predicate AllShaped(fs: seq<Field>, vs: seq<Value>) {
    |fs| == |vs| && forall i :: 0 <= i < |fs| ==> Shaped(fs[i], vs[i])
  }

  lemma FitIsShaped(fs: seq<Field>, vs: seq<Value>)
    requires AllFit(fs, vs)
    ensures AllShaped(fs, vs)
  {
  }

  function PrintAll(fs: seq<Field>, vs: seq<Value>): (s: seq<octet>)
    requires AllShaped(fs, vs)
  {
    if fs == [] then [] else Print(fs[0], vs[0]) + PrintAll(fs[1..], vs[1..])
  }

  function ParseAll(fs: seq<Field>, s: seq<octet>): (r: Option<(seq<Value>, seq<octet>)>) {
    if fs == [] then Some(([], s)) else
      match Parse(fs[0], s)
      case None => None
      case Some((v, rest)) =>
        match ParseAll(fs[1..], rest)
        case None => None
        case Some((vs, end)) => Some(([v] + vs, end))
  }

  lemma {:induction false} ParsePrintAll(fs: seq<Field>, vs: seq<Value>, rest: seq<octet>)
    requires AllFit(fs, vs)
    ensures AllShaped(fs, vs) && ParseAll(fs, PrintAll(fs, vs) + rest) == Some((vs, rest))
  {
    FitIsShaped(fs, vs);
    hide Parse, Print, Fits, Shaped;
    if fs == [] {
      assert PrintAll(fs, vs) + rest == rest;
    } else {
      ParsePrintAll(fs[1..], vs[1..], rest);
      ParsePrint(fs[0], vs[0], PrintAll(fs[1..], vs[1..]) + rest);
      Regroup(Print(fs[0], vs[0]), PrintAll(fs[1..], vs[1..]), rest);
      assert vs == [vs[0]] + vs[1..];
    }
  }

  lemma Regroup(a: seq<octet>, b: seq<octet>, c: seq<octet>)
    ensures a + b + c == a + (b + c)
  {
  }

  lemma {:induction false} PrintParseAll(fs: seq<Field>, s: seq<octet>)
    requires ParseAll(fs, s).Some?
    ensures var (vs, rest) := ParseAll(fs, s).value; AllFit(fs, vs) && AllShaped(fs, vs) && s == PrintAll(fs, vs) + rest
  {
    hide Parse, Print, Fits, Shaped;
    if fs == [] {
      assert s == [] + s;
    } else {
      PrintParse(fs[0], s);
      var (v, rest) := Parse(fs[0], s).value;
      PrintParseAll(fs[1..], rest);
      var (vs, end) := ParseAll(fs[1..], rest).value;
      assert ([v] + vs)[1..] == vs;
      Regroup(Print(fs[0], v), PrintAll(fs[1..], vs), end);
    }
  }

  lemma {:induction false} PrintConcat(fs: seq<Field>, vs: seq<Value>, gs: seq<Field>, us: seq<Value>)
    requires AllShaped(fs, vs) && AllShaped(gs, us)
    ensures AllShaped(fs + gs, vs + us) && PrintAll(fs + gs, vs + us) == PrintAll(fs, vs) + PrintAll(gs, us)
  {
    hide Print, Shaped;
    if fs == [] {
      assert fs + gs == gs && vs + us == us;
    } else {
      PrintConcat(fs[1..], vs[1..], gs, us);
      assert (fs + gs)[1..] == fs[1..] + gs && (vs + us)[1..] == vs[1..] + us;
    }
  }

  lemma {:induction false} ParseConcat(fs: seq<Field>, gs: seq<Field>, s: seq<octet>)
    ensures ParseAll(fs + gs, s) ==
            match ParseAll(fs, s)
            case None => None
            case Some((vs, rest)) =>
              match ParseAll(gs, rest)
              case None => None
              case Some((us, end)) => Some((vs + us, end))
  {
    hide Parse;
    if fs == [] {
      assert fs + gs == gs;
      if ParseAll(gs, s).Some? {
        assert [] + ParseAll(gs, s).value.0 == ParseAll(gs, s).value.0;
      }
    } else {
      assert (fs + gs)[1..] == fs[1..] + gs;
      if Parse(fs[0], s).Some? {
        ParseConcat(fs[1..], gs, Parse(fs[0], s).value.1);
        var rest := Parse(fs[0], s).value.1;
        if ParseAll(fs[1..], rest).Some? && ParseAll(gs, ParseAll(fs[1..], rest).value.1).Some? {
          var vs, us := ParseAll(fs[1..], rest).value.0, ParseAll(gs, ParseAll(fs[1..], rest).value.1).value.0;
          assert [Parse(fs[0], s).value.0] + (vs + us) == [Parse(fs[0], s).value.0] + vs + us;
        }
      }
    }
  }
}
