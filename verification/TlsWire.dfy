// The bytes of a saved session, number by number (patches/ssl_tls.c:3458-3606,
// 3825-3964, 4359-4431).
module TlsWire {
  import opened TlsFormat
  import opened TlsSession
  import opened Wrappers

  // n in w bytes, most significant first.
  function Be(n: nat, w: nat): (s: seq<octet>)
    ensures |s| == w
  {
    seq(w, i requires 0 <= i < w => n / Power(w - 1 - i) % 256)
  }

  lemma PutIsBe(n: nat, w: nat)
    ensures Put(n, w) == Be(n, w)
  {
    hide Put, Power;
    forall i | 0 <= i < w
      ensures Put(n, w)[i] == Be(n, w)[i]
    {
      PutByte(n, w, i);
    }
  }

  lemma PrintedNumber(n: nat, w: nat)
    ensures Print(Number(w), Num(n)) == Be(n, w)
  {
    hide Put, Be;
    PutIsBe(n, w);
  }

  lemma PrintedVector(b: seq<octet>, w: nat)
    ensures Print(Vector(w), Bytes(b)) == Be(|b|, w) + b
  {
    hide Put, Be;
    PutIsBe(|b|, w);
  }

  // In front: the header, then the minor version, the endpoint and the ciphersuite.
  lemma WireFront(s: Session, header: seq<octet>)
    requires IsSession(s)
    ensures Encoded(s, header) == header + Be(s.tlsVersion % 256, 1) + Be(s.endpoint, 1) + Be(s.ciphersuite, 2) + Body(s)
  {
    hide Print, PrintAll, Put, Be, Body;
    HeadPrinted(s);
    PrintedNumber(s.tlsVersion % 256, 1);
    PrintedNumber(s.endpoint, 1);
    PrintedNumber(s.ciphersuite, 2);
    var a, b, c := Be(s.tlsVersion % 256, 1), Be(s.endpoint, 1), Be(s.ciphersuite, 2);
    assert header + (a + b + c) + Body(s) == header + a + b + c + Body(s);
  }

  // A TLS 1.2 session of a client (0) or a server (1).
  lemma Wire12(s: Session)
    requires IsSession(s)
    ensures s.tlsVersion == 0x303 && (s.endpoint == 0 || s.endpoint == 1) ==>
              Body(s) ==
              Be(s.start, 8) + Be(s.idLen, 1) + s.id + s.master + Be(s.verifyResult, 4) + (Be(|s.peerCert|, 3) + s.peerCert)
              + (if s.endpoint == 0 then Be(|s.ticket|, 3) + s.ticket + Be(s.ticketLifetime, 4) else Be(s.ticketCreationTime, 8))
              + (Be(s.mflCode, 1) + Be(s.encryptThenMac, 1))
  {
    hide Print, PrintAll, Put, Be;
    if s.tlsVersion == 0x303 && (s.endpoint == 0 || s.endpoint == 1) {
      Printed12(s);
      Base12Printed(s);
      Side12Printed(s);
      Tail12Printed(s);
      PrintedNumber(s.start, 8);
      PrintedNumber(s.idLen, 1);
      PrintedNumber(s.verifyResult, 4);
      PrintedVector(s.peerCert, 3);
      PrintedVector(s.ticket, 3);
      PrintedNumber(s.ticketLifetime, 4);
      PrintedNumber(s.ticketCreationTime, 8);
      PrintedNumber(s.mflCode, 1);
      PrintedNumber(s.encryptThenMac, 1);
      Regroup(Be(s.start, 8), Be(s.idLen, 1), s.id, s.master, Be(s.verifyResult, 4));
    }
  }

  lemma Regroup(a: seq<octet>, b: seq<octet>, c: seq<octet>, d: seq<octet>, e: seq<octet>)
    ensures a + (b + c + d + e) == a + b + c + d + e
  {
  }

  // A TLS 1.3 session; a missing name is empty.
  lemma Wire13(s: Session)
    requires IsSession(s)
    ensures s.tlsVersion == 0x304 && (s.endpoint == 0 || s.endpoint == 1) ==>
              var hostname := if s.hostname.Some? then s.hostname.value else [];
              var alpn := if s.ticketAlpn.Some? then s.ticketAlpn.value else [];
              Body(s) ==
              Be(s.ticketAgeAdd, 4) + Be(s.ticketFlags, 1) + (Be(|s.resumptionKey|, 1) + s.resumptionKey)
              + Be(s.maxEarlyDataSize, 4) + Be(s.recordSizeLimit, 2)
              + (if s.endpoint == 0 then
                   (Be(|hostname|, 2) + hostname) + Be(s.ticketReceptionTime, 8) + (Be(s.ticketLifetime, 4) + (Be(|s.ticket|, 2) + s.ticket))
                 else Be(s.ticketCreationTime, 8) + (Be(|alpn|, 2) + alpn))
    ensures s.tlsVersion == 0x304 && |s.resumptionKey| > 48 ==> forall header, room :: SaveRet(s, header, room) == BadInput
  {
    hide Print, PrintAll, Put, Be;
    if s.tlsVersion == 0x304 && (s.endpoint == 0 || s.endpoint == 1) {
      Printed13(s);
      Base13Printed(s);
      Side13Printed(s);
      PrintedNumber(s.ticketAgeAdd, 4);
      PrintedNumber(s.ticketFlags, 1);
      PrintedVector(s.resumptionKey, 1);
      PrintedNumber(s.maxEarlyDataSize, 4);
      PrintedNumber(s.recordSizeLimit, 2);
      PrintedVector(StringBytes(s.hostname), 2);
      PrintedNumber(s.ticketReceptionTime, 8);
      PrintedNumber(s.ticketLifetime, 4);
      PrintedVector(s.ticket, 2);
      PrintedNumber(s.ticketCreationTime, 8);
      PrintedVector(StringBytes(s.ticketAlpn), 2);
    }
  }
}
