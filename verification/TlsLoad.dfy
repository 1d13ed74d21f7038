// Loading TLS sessions, and what a saved session loads as (patches/ssl_tls.c:3609-3814,
// 3949-4101, 4451-4508).
module TlsLoad {
  import opened Buffers
  import opened TlsFormat
  import opened TlsSession
  import opened Wrappers

  // ----- reading

  // The cursor of a load: p bytes of buf have been taken, which were the fields all[..n].
  class Reader {
    const buf: seq<octet>
    ghost const all: seq<Field>
    var p: nat
    ghost var n: nat
    ghost var vs: seq<Value>

    ghost predicate Valid()
      reads this
    {
      p <= |buf| && n == |vs| <= |all| && ParseAll(all[..n], buf) == Some((vs, buf[p..]))
    }

    constructor (buf: seq<octet>, ghost all: seq<Field>)
      ensures Valid() && this.buf == buf && this.all == all && p == 0 && n == 0 && vs == []
    {
      this.buf, this.all := buf, all;
      p, n, vs := 0, 0, [];
    }

    // One field, if the rest of the buffer holds it.
    method Next(f: Field) returns (v: Option<Value>)
      requires Valid() && n < |all| && f == all[n]
      modifies this
      ensures Valid()
      ensures v.None? ==> ParseAll(all, buf) == None && vs == old(vs)
      ensures v.Some? ==> n == old(n) + 1 && vs == old(vs) + [v.value] && Fits(f, v.value) && Shaped(f, v.value)
    {
      hide ParseAll, Parse, Fits, Shaped;
      var size;
      v, size := TakeField(f, buf, p);
      if v == None {
        TooShort(all, n, buf, vs, buf[p..]);
        return;
      }
      OneMore(all, n, buf, vs, buf[p..], v.value, buf[p + size..]);
      p, n, vs := p + size, n + 1, vs + [v.value];
    }
  }

  // The length checks and reads at p.
  method TakeField(f: Field, buf: seq<octet>, p: nat) returns (v: Option<Value>, size: nat)
    requires p <= |buf|
    ensures v.None? ==> Parse(f, buf[p..]) == None
    ensures v.Some? ==> p + size <= |buf| && Parse(f, buf[p..]) == Some((v.value, buf[p + size..])) && Fits(f, v.value) && Shaped(f, v.value)
  {
    hide Get, Put, Power, Fits;
    match f {
      case Number(w) =>
        if |buf| - p < w { return None, 0; }
        v, size := Some(Num(Get(buf[p..p + w]))), w;
      case Fixed(k) =>
        if |buf| - p < k { return None, 0; }
        v, size := Some(Bytes(buf[p..p + k])), k;
      case Vector(w) =>
        if |buf| - p < w { return None, 0; }
        var n := Get(buf[p..p + w]);
        assert buf[p..][..w] == buf[p..p + w];
        if |buf| - p - w < n { return None, 0; }
        v, size := Some(Bytes(buf[p + w..p + w + n])), w + n;
    }
    ParseNext(f, buf, p, size, v.value);
  }

  lemma ParseNext(f: Field, buf: seq<octet>, p: nat, size: nat, v: Value)
    requires p + size <= |buf|
    requires match f
             case Number(w) => size == w && v == Num(Get(buf[p..p + w]))
             case Fixed(k) => size == k && v == Bytes(buf[p..p + k])
             case Vector(w) => p + w <= |buf| && size == w + Get(buf[p..p + w]) && v == Bytes(buf[p + w..p + size])
    ensures Parse(f, buf[p..]) == Some((v, buf[p + size..])) && Fits(f, v) && Shaped(f, v)
  {
    hide Get, Put, Power;
    var s := buf[p..];
    match f {
      case Number(w) => assert s[..w] == buf[p..p + w] && s[w..] == buf[p + w..];
      case Fixed(k) => assert s[..k] == buf[p..p + k] && s[k..] == buf[p + k..];
      case Vector(w) =>
        assert s[..w] == buf[p..p + w];
        assert s[w..size] == buf[p + w..p + size] && s[size..] == buf[p + size..];
    }
    PrintParse(f, s);
  }

  lemma OneMore(all: seq<Field>, n: nat, buf: seq<octet>, vs: seq<Value>, s: seq<octet>, v: Value, rest: seq<octet>)
    requires n < |all| && ParseAll(all[..n], buf) == Some((vs, s)) && Parse(all[n], s) == Some((v, rest))
    ensures ParseAll(all[..n + 1], buf) == Some((vs + [v], rest))
  {
    hide Parse;
    ParseConcat(all[..n], [all[n]], buf);
    assert all[..n + 1] == all[..n] + [all[n]];
    ParseOne(all[n], s);
  }

  lemma ParseOne(f: Field, s: seq<octet>)
    ensures ParseAll([f], s) == match Parse(f, s) case None => None case Some((v, rest)) => Some(([v], rest))
  {
    hide Parse;
    assert [f][1..] == [];
    if Parse(f, s).Some? {
      assert [Parse(f, s).value.0] + [] == [Parse(f, s).value.0];
    }
  }

  // A field that is cut off makes the whole buffer unparsable.
  lemma TooShort(all: seq<Field>, n: nat, buf: seq<octet>, vs: seq<Value>, s: seq<octet>)
    requires n < |all| && ParseAll(all[..n], buf) == Some((vs, s)) && Parse(all[n], s) == None
    ensures ParseAll(all, buf) == None
  {
    hide Parse;
    ParseConcat(all[..n], all[n..], buf);
    assert all == all[..n] + all[n..];
  }

  // What has been read stays as it is in the complete parse.
  lemma ReadIsPrefix(all: seq<Field>, n: nat, buf: seq<octet>, vs: seq<Value>, s: seq<octet>)
    requires n <= |all| && ParseAll(all[..n], buf) == Some((vs, s)) && ParseAll(all, buf).Some?
    ensures vs <= ParseAll(all, buf).value.0
  {
    hide Parse;
    ParseConcat(all[..n], all[n..], buf);
    assert all == all[..n] + all[n..];
  }

  // ----- TLS 1.2

  // ssl_tls12_session_load accepts complete records without trailing bytes whose
  // certificate, if any, can be parsed.
  predicate Accepts12(endpoint: nat, buf: seq<octet>, certOk: seq<octet> -> bool) {
    match ParseAll(Fields12(endpoint), buf)
    case None => false
    case Some((vs, rest)) => rest == [] && (|vs| > 5 && vs[5].Bytes? ==> vs[5].b == [] || certOk(vs[5].b))
  }

  method Load12(s0: Session, buf: seq<octet>, certOk: seq<octet> -> bool) returns (ret: Ret, s: Session)
    ensures ret == Ok <==> Accepts12(s0.endpoint, buf, certOk)
    ensures ret == Ok ==> s.tlsVersion == s0.tlsVersion && s.endpoint == s0.endpoint && s.ciphersuite == s0.ciphersuite
    ensures ret == Ok ==> ParseAll(Fields12(s0.endpoint), buf) == Some((Values12(s), []))
    ensures ret != Ok ==> ret == BadInput || ret == CertError
  {
    hide ParseAll, Fits;
    s := s0;
    var r := new Reader(buf, Fields12(s0.endpoint));
    NothingRead(Fields12(s0.endpoint), buf);
    var ok;
    ok, s := LoadBase12(s, r);
    if !ok {
      return BadInput, s;
    }
    if s.peerCert != [] && !certOk(s.peerCert) {
      BadCertificate(r.all, r.n, buf, r.vs, buf[r.p..], certOk, s);
      return CertError, s;
    }
    ok, s := LoadSide12(s, r);
    if !ok {
      return BadInput, s;
    }
    ok, s := LoadTail12(s, r);
    if !ok {
      return BadInput, s;
    }
    assert r.all[..r.n] == r.all;
    if r.p != |buf| {
      return BadInput, s;
    }
    ret := Ok;
  }

  lemma NothingRead(all: seq<Field>, buf: seq<octet>)
    ensures ParseAll(all[..0], buf) == Some(([], buf))
  {
  }

  lemma BadCertificate(all: seq<Field>, n: nat, buf: seq<octet>, vs: seq<Value>, rest: seq<octet>, certOk: seq<octet> -> bool, s: Session)
    requires all == Fields12(s.endpoint) && n == 6 && n <= |all| && ParseAll(all[..n], buf) == Some((vs, rest)) && vs == BaseValues12(s)
    requires s.peerCert != [] && !certOk(s.peerCert)
    ensures !Accepts12(s.endpoint, buf, certOk)
  {
    if ParseAll(all, buf).Some? {
      ReadIsPrefix(all, n, buf, vs, rest);
    }
  }

  method LoadBase12(s0: Session, r: Reader) returns (ok: bool, s: Session)
    requires r.Valid() && r.n == 0 && r.vs == [] && r.all == Fields12(s0.endpoint)
    modifies r
    ensures r.Valid() && s.tlsVersion == s0.tlsVersion && s.endpoint == s0.endpoint && s.ciphersuite == s0.ciphersuite
    ensures !ok ==> ParseAll(r.all, r.buf) == None
    ensures ok ==> r.n == 6 && r.vs == BaseValues12(s)
  {
    hide ParseAll, Fits;
    s := s0;
    var v := r.Next(Number(8));
    if v == None { return false, s; }
    s := s.(start := v.value.n);
    v := r.Next(Number(1));
    if v == None { return false, s; }
    s := s.(idLen := v.value.n);
    v := r.Next(Fixed(32));
    if v == None { return false, s; }
    s := s.(id := v.value.b);
    v := r.Next(Fixed(48));
    if v == None { return false, s; }
    s := s.(master := v.value.b);
    v := r.Next(Number(4));
    if v == None { return false, s; }
    s := s.(verifyResult := v.value.n);
    v := r.Next(Vector(3));
    if v == None { return false, s; }
    s := s.(peerCert := v.value.b);
    ok := true;
  }

  method LoadSide12(s0: Session, r: Reader) returns (ok: bool, s: Session)
    requires r.Valid() && r.n == 6 && r.vs == BaseValues12(s0) && r.all == Fields12(s0.endpoint)
    modifies r
    ensures r.Valid() && s.tlsVersion == s0.tlsVersion && s.endpoint == s0.endpoint && s.ciphersuite == s0.ciphersuite
    ensures !ok ==> ParseAll(r.all, r.buf) == None
    ensures ok ==> r.n + 2 == |r.all| && r.vs == BaseValues12(s) + SideValues12(s) && s.peerCert == s0.peerCert
  {
    hide ParseAll, Fits;
    s := s0;
    if s.endpoint == CLIENT {
      var v := r.Next(Vector(3));
      if v == None { return false, s; }
      s := s.(ticket := v.value.b);
      v := r.Next(Number(4));
      if v == None { return false, s; }
      s := s.(ticketLifetime := v.value.n);
    }
    if s.endpoint == SERVER {
      var v := r.Next(Number(8));
      if v == None { return false, s; }
      s := s.(ticketCreationTime := v.value.n);
    }
    ok := true;
  }

  method LoadTail12(s0: Session, r: Reader) returns (ok: bool, s: Session)
    requires r.Valid() && r.n + 2 == |r.all| && r.vs == BaseValues12(s0) + SideValues12(s0) && r.all == Fields12(s0.endpoint)
    modifies r
    ensures r.Valid() && s.tlsVersion == s0.tlsVersion && s.endpoint == s0.endpoint && s.ciphersuite == s0.ciphersuite
    ensures !ok ==> ParseAll(r.all, r.buf) == None
    ensures ok ==> r.n == |r.all| && r.vs == Values12(s) && s.peerCert == s0.peerCert
  {
    hide ParseAll, Fits;
    s := s0;
    var v := r.Next(Number(1));
    if v == None { return false, s; }
    s := s.(mflCode := v.value.n);
    v := r.Next(Number(1));
    if v == None { return false, s; }
    s := s.(encryptThenMac := v.value.n);
    ok := true;
  }

  // ----- TLS 1.3

  // RFC 7301, section 3.1: a protocol name has at most 255 bytes.
  const MAX_ALPN_NAME := 255

  // The string at b, with its terminator.
  function StringAt(b: seq<octet>): (s: seq<octet>)
    ensures IsString(s)
  {
    if b == [] || b[0] == 0 then [0] else [b[0]] + StringAt(b[1..])
  }

  lemma {:induction false} StringAtString(b: seq<octet>, rest: seq<octet>)
    requires IsString(b)
    ensures StringAt(b + rest) == b
  {
    assert (b + rest)[1..] == b[1..] + rest;
    if |b| == 1 {
      assert b == [0];
    } else {
      StringAtString(b[1..], rest);
      assert b == [b[0]] + b[1..];
    }
  }

  // The ALPN string of a server's record: an empty one is NULL, any other is copied up
  // to its terminator, wherever that is.
  function AlpnOf(b: seq<octet>, rest: seq<octet>): (o: Option<seq<octet>>)
    ensures o.Some? ==> IsString(o.value)
  {
    if b == [] then None else Some(StringAt(b + rest))
  }

  predicate AlpnTooLong(o: Option<seq<octet>>) {
    o.Some? && |o.value| > MAX_ALPN_NAME + 1
  }

  // ssl_tls13_session_load accepts a record with a short enough key and, from a server,
  // a short enough protocol name, whatever follows it.
  predicate Accepts13(endpoint: nat, buf: seq<octet>) {
    match ParseAll(Fields13(endpoint), buf)
    case None => false
    case Some((vs, rest)) =>
      && |vs| > 2 && vs[2].Bytes? && |vs[2].b| <= MAX_RESUMPTION_KEY
      && (endpoint == SERVER ==> |vs| == 7 && vs[6].Bytes? && !AlpnTooLong(AlpnOf(vs[6].b, rest)))
  }

  // The record s was loaded from, which rest follows.
  ghost predicate Loaded13(s: Session, vs: seq<Value>, rest: seq<octet>) {
    if s.endpoint == SERVER then
      |vs| == 7 && vs[6].Bytes? && s.ticketAlpn == AlpnOf(vs[6].b, rest)
      && vs[..5] == BaseValues13(s) && vs[5] == Num(s.ticketCreationTime)
    else vs == Values13(s) && s.hostname != Some([])
  }

  // mbedtls_ssl_session_load is given a session that has been initialized only.
  predicate IsFresh(s: Session) {
    s.hostname == None && s.ticketAlpn == None && s.ticket == [] && s.peerCert == []
  }

  method LoadBase13(s0: Session, r: Reader) returns (ret: Ret, s: Session)
    requires r.Valid() && r.n == 0 && r.vs == [] && r.all == Fields13(s0.endpoint)
    modifies r
    ensures r.Valid() && s.tlsVersion == s0.tlsVersion && s.endpoint == s0.endpoint && s.ciphersuite == s0.ciphersuite
    ensures ret != Ok ==> ret == BadInput && !Accepts13(s.endpoint, r.buf)
    ensures ret == Ok ==> r.n == 5 && r.vs == BaseValues13(s) && |s.resumptionKey| <= MAX_RESUMPTION_KEY
    ensures IsFresh(s0) ==> IsFresh(s)
  {
    hide ParseAll, Fits;
    s := s0;
    var v := r.Next(Number(4));
    if v == None { return BadInput, s; }
    s := s.(ticketAgeAdd := v.value.n);
    v := r.Next(Number(1));
    if v == None { return BadInput, s; }
    s := s.(ticketFlags := v.value.n);
    v := r.Next(Vector(1));
    if v == None { return BadInput, s; }
    if |v.value.b| > MAX_RESUMPTION_KEY {
      LongKey(r.all, r.n, r.buf, r.vs, r.buf[r.p..], s.endpoint);
      return BadInput, s;
    }
    s := s.(resumptionKey := v.value.b);
    v := r.Next(Number(4));
    if v == None { return BadInput, s; }
    s := s.(maxEarlyDataSize := v.value.n);
    v := r.Next(Number(2));
    if v == None { return BadInput, s; }
    s := s.(recordSizeLimit := v.value.n);
    ret := Ok;
  }

  lemma LongKey(all: seq<Field>, n: nat, buf: seq<octet>, vs: seq<Value>, rest: seq<octet>, endpoint: nat)
    requires all == Fields13(endpoint) && n == 3 && n <= |all| && ParseAll(all[..n], buf) == Some((vs, rest))
    requires |vs| == 3 && vs[2].Bytes? && |vs[2].b| > MAX_RESUMPTION_KEY
    ensures !Accepts13(endpoint, buf)
  {
    if ParseAll(all, buf).Some? {
      ReadIsPrefix(all, n, buf, vs, rest);
    }
  }

  method LoadSide13(s0: Session, r: Reader) returns (ok: bool, s: Session)
    requires r.Valid() && r.n == 5 && r.vs == BaseValues13(s0) && r.all == Fields13(s0.endpoint)
    requires |s0.resumptionKey| <= MAX_RESUMPTION_KEY && IsFresh(s0)
    modifies r
    ensures r.Valid() && s.tlsVersion == s0.tlsVersion && s.endpoint == s0.endpoint && s.ciphersuite == s0.ciphersuite
    ensures !ok ==> !Accepts13(s.endpoint, r.buf)
    ensures ok ==> r.n == |r.all| && Loaded13(s, r.vs, r.buf[r.p..]) && r.vs[..5] == BaseValues13(s) && s.resumptionKey == s0.resumptionKey
    ensures ok && s.endpoint == SERVER ==> !AlpnTooLong(s.ticketAlpn)
  {
    hide ParseAll, Fits, StringAt;
    s := s0;
    if s.endpoint == SERVER {
      var v := r.Next(Number(8));
      if v == None { return false, s; }
      s := s.(ticketCreationTime := v.value.n);
      v := r.Next(Vector(2));
      if v == None { return false, s; }
      assert r.all[..r.n] == r.all;
      s := s.(ticketAlpn := AlpnOf(v.value.b, r.buf[r.p..]));
      if AlpnTooLong(s.ticketAlpn) { return false, s; }
    }
    if s.endpoint == CLIENT {
      var v := r.Next(Vector(2));
      if v == None { return false, s; }
      if v.value.b != [] {
        s := s.(hostname := Some(v.value.b));
      }
      v := r.Next(Number(8));
      if v == None { return false, s; }
      s := s.(ticketReceptionTime := v.value.n);
      v := r.Next(Number(4));
      if v == None { return false, s; }
      s := s.(ticketLifetime := v.value.n);
      v := r.Next(Vector(2));
      if v == None { return false, s; }
      s := s.(ticket := v.value.b);
    }
    ok := true;
  }

  method Load13(s0: Session, buf: seq<octet>) returns (ret: Ret, s: Session)
    requires IsFresh(s0)
    ensures ret == Ok <==> Accepts13(s0.endpoint, buf)
    ensures ret == Ok ==> s.tlsVersion == s0.tlsVersion && s.endpoint == s0.endpoint && s.ciphersuite == s0.ciphersuite
    ensures ret == Ok ==> var o := ParseAll(Fields13(s0.endpoint), buf); o.Some? && Loaded13(s, o.value.0, o.value.1)
    ensures ret != Ok ==> ret == BadInput
  {
    hide ParseAll, Fits, StringAt, AlpnTooLong;
    var r := new Reader(buf, Fields13(s0.endpoint));
    NothingRead(Fields13(s0.endpoint), buf);
    ret, s := LoadBase13(s0, r);
    if ret != Ok {
      return;
    }
    var ok;
    ok, s := LoadSide13(s, r);
    if !ok {
      return BadInput, s;
    }
    assert r.all[..r.n] == r.all;
    assert r.vs[2] == r.vs[..5][2];
  }

  // ----- sessions

  // ssl_session_load without its error code: what it accepts.
  predicate Accepts(header: seq<octet>, buf: seq<octet>, certOk: seq<octet> -> bool) {
    && header <= buf
    && var front := ParseAll(HEAD, buf[|header|..]);
    && front.Some? && |front.value.0| == 3 && front.value.0[0].Num? && front.value.0[1].Num?
    && var version, endpoint, body := 0x300 + front.value.0[0].n, front.value.0[1].n, front.value.1;
    if version == TLS12 then Accepts12(endpoint, body, certOk) else version == TLS13 && Accepts13(endpoint, body)
  }

  // The session is what the buffer holds.
  ghost predicate IsLoaded(header: seq<octet>, buf: seq<octet>, s: Session) {
    && header <= buf
    && var front := ParseAll(HEAD, buf[|header|..]);
    && front.Some? && s.tlsVersion - s.tlsVersion % 256 == 0x300 && front.value.0 == HeadValues(s)
    && if s.tlsVersion == TLS12 then ParseAll(Fields12(s.endpoint), front.value.1) == Some((Values12(s), []))
       else
         var o := ParseAll(Fields13(s.endpoint), front.value.1);
         s.tlsVersion == TLS13 && o.Some? && Loaded13(s, o.value.0, o.value.1)
  }

  method LoadFront(s0: Session, buf: seq<octet>) returns (ok: bool, s: Session, body: seq<octet>)
    ensures ok <==> ParseAll(HEAD, buf).Some?
    ensures ok ==> ParseAll(HEAD, buf) == Some((HeadValues(s), body)) && 0x300 <= s.tlsVersion < 0x400
    ensures ok && IsFresh(s0) ==> IsFresh(s)
  {
    hide ParseAll, Shaped, Get, Put;
    s, body := s0, [];
    var r := new Reader(buf, HEAD);
    NothingRead(HEAD, buf);
    var v := r.Next(Number(1));
    if v == None { return false, s, body; }
    SmallByte(v.value);
    s := s.(tlsVersion := 0x300 + v.value.n);
    v := r.Next(Number(1));
    if v == None { return false, s, body; }
    s := s.(endpoint := v.value.n);
    v := r.Next(Number(2));
    if v == None { return false, s, body; }
    s := s.(ciphersuite := v.value.n);
    assert HEAD[..3] == HEAD;
    assert r.vs == HeadValues(s);
    ok, body := true, buf[r.p..];
  }

  lemma SmallByte(v: Value)
    requires Fits(Number(1), v)
    ensures v.n < 256
  {
    assert Power(1) == 256 * Power(0);
  }

  method SessionLoad(s0: Session, header: seq<octet>, buf: seq<octet>, certOk: seq<octet> -> bool) returns (ret: Ret, s: Session)
    requires IsFresh(s0)
    ensures ret == Ok <==> Accepts(header, buf, certOk)
    ensures ret == Ok ==> IsLoaded(header, buf, s)
    ensures |buf| >= |header| && !(header <= buf) <==> ret == VersionMismatch
  {
    hide ParseAll, Accepts12, Accepts13, Loaded13, Fields12, Fields13;
    s := s0;
    if |buf| < |header| {
      return BadInput, s;
    }
    if buf[..|header|] != header {
      return VersionMismatch, s;
    }
    var ok, body;
    ok, s, body := LoadFront(s0, buf[|header|..]);
    if !ok {
      return BadInput, s;
    }
    if s.tlsVersion == TLS12 {
      ret, s := Load12(s, body, certOk);
    } else if s.tlsVersion == TLS13 {
      ret, s := Load13(s, body);
    } else {
      ret := BadInput;
    }
  }
}
