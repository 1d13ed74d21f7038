// What a saved session loads as, and what a loaded one saves as
// (patches/ssl_tls.c:4178-4354, 4359-4431, 4451-4508).
module TlsRoundTrip {
  import opened Buffers
  import opened TlsFormat
  import opened TlsSession
  import opened TlsLoad
  import opened Wrappers

  // Every serialized field is the same.
  predicate SameSession(s: Session, t: Session) {
    && s.tlsVersion == t.tlsVersion && s.endpoint == t.endpoint && s.ciphersuite == t.ciphersuite
    && if s.tlsVersion == TLS12 then Same12(s, t) else Same13(s, t)
  }

  predicate Same12(s: Session, t: Session) {
    && s.start == t.start && s.idLen == t.idLen && s.id == t.id && s.master == t.master
    && s.verifyResult == t.verifyResult && s.peerCert == t.peerCert
    && (s.endpoint == CLIENT ==> s.ticket == t.ticket && s.ticketLifetime == t.ticketLifetime)
    && (s.endpoint == SERVER ==> s.ticketCreationTime == t.ticketCreationTime)
    && s.mflCode == t.mflCode && s.encryptThenMac == t.encryptThenMac
  }

  predicate Same13(s: Session, t: Session) {
    && s.ticketAgeAdd == t.ticketAgeAdd && s.ticketFlags == t.ticketFlags && s.resumptionKey == t.resumptionKey
    && s.maxEarlyDataSize == t.maxEarlyDataSize && s.recordSizeLimit == t.recordSizeLimit
    && (s.endpoint == CLIENT ==>
          && s.hostname == t.hostname && s.ticketReceptionTime == t.ticketReceptionTime
          && s.ticketLifetime == t.ticketLifetime && s.ticket == t.ticket)
    && (s.endpoint == SERVER ==> s.ticketCreationTime == t.ticketCreationTime && s.ticketAlpn == t.ticketAlpn)
  }

  // Numbers and lengths fit their fields, and a certificate can be parsed again.
  predicate FitsFormat(s: Session, certOk: seq<octet> -> bool) {
    && s.endpoint < 0x100 && s.ciphersuite < 0x1_0000
    && if s.tlsVersion == TLS12 then Fits12(s) && (s.peerCert != [] ==> certOk(s.peerCert)) else Fits13(s)
  }

  predicate Fits12(s: Session) {
    && s.start < 0x1_0000_0000_0000_0000 && s.idLen < 0x100 && s.verifyResult < 0x1_0000_0000 && |s.peerCert| < 0x100_0000
    && (s.endpoint == CLIENT ==> |s.ticket| < 0x100_0000 && s.ticketLifetime < 0x1_0000_0000)
    && (s.endpoint == SERVER ==> s.ticketCreationTime < 0x1_0000_0000_0000_0000)
    && s.mflCode < 0x100 && s.encryptThenMac < 0x100
  }

  predicate Fits13(s: Session) {
    && s.ticketAgeAdd < 0x1_0000_0000 && s.ticketFlags < 0x100 && |s.resumptionKey| <= MAX_RESUMPTION_KEY
    && s.maxEarlyDataSize < 0x1_0000_0000 && s.recordSizeLimit < 0x1_0000
    && (s.endpoint == CLIENT ==>
          && |StringBytes(s.hostname)| < 0x1_0000 && s.ticketReceptionTime < 0x1_0000_0000_0000_0000
          && s.ticketLifetime < 0x1_0000_0000 && |s.ticket| < 0x1_0000)
    && (s.endpoint == SERVER ==>
          s.ticketCreationTime < 0x1_0000_0000_0000_0000 && |StringBytes(s.ticketAlpn)| <= MAX_ALPN_NAME + 1)
  }

  lemma Powers()
    ensures Power(1) == 0x100 && Power(2) == 0x1_0000 && Power(3) == 0x100_0000
    ensures Power(4) == 0x1_0000_0000 && Power(8) == 0x1_0000_0000_0000_0000
  {
    assert Power(1) == 256 * Power(0);
    assert Power(5) == 256 * Power(4) && Power(6) == 256 * Power(5) && Power(7) == 256 * Power(6);
  }

  // ----- fitting, as the values of the fields

  lemma HeadFits(s: Session)
    requires s.tlsVersion == TLS12 || s.tlsVersion == TLS13
    ensures AllFit(HEAD, HeadValues(s)) <==> s.endpoint < 0x100 && s.ciphersuite < 0x1_0000
  {
    Powers();
    hide Power;
    var fs, vs := HEAD, HeadValues(s);
    assert AllFit(fs, vs) <==> Fits(fs[0], vs[0]) && Fits(fs[1], vs[1]) && Fits(fs[2], vs[2]);
  }

  lemma FitConcat(fs: seq<Field>, vs: seq<Value>, gs: seq<Field>, us: seq<Value>)
    requires |fs| == |vs| && |gs| == |us|
    ensures AllFit(fs + gs, vs + us) <==> AllFit(fs, vs) && AllFit(gs, us)
  {
    hide Fits;
    if AllFit(fs + gs, vs + us) {
      forall i | 0 <= i < |fs| ensures Fits(fs[i], vs[i]) {
        assert Fits((fs + gs)[i], (vs + us)[i]);
      }
      forall i | 0 <= i < |gs| ensures Fits(gs[i], us[i]) {
        assert Fits((fs + gs)[|fs| + i], (vs + us)[|fs| + i]);
      }
    }
  }

  lemma BaseFits12(s: Session)
    requires |s.id| == 32 && |s.master| == 48
    ensures AllFit(BASE12, BaseValues12(s)) <==>
            s.start < 0x1_0000_0000_0000_0000 && s.idLen < 0x100 && s.verifyResult < 0x1_0000_0000 && |s.peerCert| < 0x100_0000
  {
    Powers();
    hide Power;
    var fs, vs := BASE12, BaseValues12(s);
    assert AllFit(fs, vs) <==> Fits(fs[0], vs[0]) && Fits(fs[1], vs[1]) && Fits(fs[2], vs[2]) && Fits(fs[3], vs[3]) && Fits(fs[4], vs[4]) && Fits(fs[5], vs[5]);
  }

  lemma SideFits12(s: Session)
    ensures AllFit(SideFields12(s.endpoint), SideValues12(s)) <==>
            && (s.endpoint == CLIENT ==> |s.ticket| < 0x100_0000 && s.ticketLifetime < 0x1_0000_0000)
            && (s.endpoint == SERVER ==> s.ticketCreationTime < 0x1_0000_0000_0000_0000)
  {
    Powers();
    hide Power;
    var fs, vs := SideFields12(s.endpoint), SideValues12(s);
    if s.endpoint == CLIENT {
      assert AllFit(fs, vs) <==> Fits(fs[0], vs[0]) && Fits(fs[1], vs[1]);
    } else if s.endpoint == SERVER {
      assert AllFit(fs, vs) <==> Fits(fs[0], vs[0]);
    }
  }

  lemma TailFits12(s: Session)
    ensures AllFit(TAIL12, TailValues12(s)) <==> s.mflCode < 0x100 && s.encryptThenMac < 0x100
  {
    Powers();
    hide Power;
    var fs, vs := TAIL12, TailValues12(s);
    assert AllFit(fs, vs) <==> Fits(fs[0], vs[0]) && Fits(fs[1], vs[1]);
  }

  lemma ValuesFit12(s: Session)
    requires |s.id| == 32 && |s.master| == 48
    ensures AllFit(Fields12(s.endpoint), Values12(s)) <==> Fits12(s)
  {
    BaseFits12(s);
    SideFits12(s);
    TailFits12(s);
    hide AllFit;
    FitConcat(BASE12, BaseValues12(s), SideFields12(s.endpoint), SideValues12(s));
    FitConcat(BASE12 + SideFields12(s.endpoint), BaseValues12(s) + SideValues12(s), TAIL12, TailValues12(s));
  }

  lemma BaseFits13(s: Session)
    ensures AllFit(BASE13, BaseValues13(s)) <==>
            && s.ticketAgeAdd < 0x1_0000_0000 && s.ticketFlags < 0x100 && |s.resumptionKey| < 0x100
            && s.maxEarlyDataSize < 0x1_0000_0000 && s.recordSizeLimit < 0x1_0000
  {
    Powers();
    hide Power;
    var fs, vs := BASE13, BaseValues13(s);
    assert AllFit(fs, vs) <==> Fits(fs[0], vs[0]) && Fits(fs[1], vs[1]) && Fits(fs[2], vs[2]) && Fits(fs[3], vs[3]) && Fits(fs[4], vs[4]);
  }

  lemma SideFits13(s: Session)
    ensures AllFit(SideFields13(s.endpoint), SideValues13(s)) <==>
            && (s.endpoint == CLIENT ==>
                  && |StringBytes(s.hostname)| < 0x1_0000 && s.ticketReceptionTime < 0x1_0000_0000_0000_0000
                  && s.ticketLifetime < 0x1_0000_0000 && |s.ticket| < 0x1_0000)
            && (s.endpoint == SERVER ==>
                  s.ticketCreationTime < 0x1_0000_0000_0000_0000 && |StringBytes(s.ticketAlpn)| < 0x1_0000)
  {
    Powers();
    hide Power, StringBytes;
    var fs, vs := SideFields13(s.endpoint), SideValues13(s);
    if s.endpoint == CLIENT {
      assert AllFit(fs, vs) <==> Fits(fs[0], vs[0]) && Fits(fs[1], vs[1]) && Fits(fs[2], vs[2]) && Fits(fs[3], vs[3]);
    } else if s.endpoint == SERVER {
      assert AllFit(fs, vs) <==> Fits(fs[0], vs[0]) && Fits(fs[1], vs[1]);
    }
  }

  lemma ValuesFit13(s: Session)
    ensures Fits13(s) ==> AllFit(Fields13(s.endpoint), Values13(s))
  {
    BaseFits13(s);
    SideFits13(s);
    hide AllFit;
    FitConcat(BASE13, BaseValues13(s), SideFields13(s.endpoint), SideValues13(s));
  }

  // ----- saved, then loaded

  // The buffer of a save, taken apart as a load does.
  lemma EncodedParts(s: Session, header: seq<octet>)
    requires IsSession(s) && (s.tlsVersion == TLS12 || s.tlsVersion == TLS13) && AllFit(HEAD, HeadValues(s))
    ensures var b := Encoded(s, header);
            header <= b && ParseAll(HEAD, b[|header|..]) == Some((HeadValues(s), Body(s)))
  {
    hide ParseAll, PrintAll, Body, AllFit;
    HeadPrinted(s);
    var b, h := Encoded(s, header), PrintAll(HEAD, HeadValues(s));
    assert b == header + (h + Body(s));
    assert b[|header|..] == h + Body(s);
    ParsePrintAll(HEAD, HeadValues(s), Body(s));
  }

  lemma BodyParts12(s: Session)
    requires IsSession(s) && s.tlsVersion == TLS12 && AllFit(Fields12(s.endpoint), Values12(s))
    ensures ParseAll(Fields12(s.endpoint), Body(s)) == Some((Values12(s), []))
  {
    hide ParseAll, PrintAll, AllFit, Fields12, Values12;
    ParsePrintAll(Fields12(s.endpoint), Values12(s), []);
    assert Body(s) + [] == Body(s);
  }

  lemma BodyParts13(s: Session)
    requires IsSession(s) && s.tlsVersion == TLS13 && AllFit(Fields13(s.endpoint), Values13(s))
    ensures ParseAll(Fields13(s.endpoint), Body(s)) == Some((Values13(s), []))
  {
    hide ParseAll, PrintAll, AllFit, Fields13, Values13;
    ParsePrintAll(Fields13(s.endpoint), Values13(s), []);
    assert Body(s) + [] == Body(s);
  }

  lemma AlpnRestored(s: Session)
    requires IsSession(s)
    ensures AlpnOf(StringBytes(s.ticketAlpn), []) == s.ticketAlpn
  {
    if s.ticketAlpn.Some? {
      StringAtString(s.ticketAlpn.value, []);
      assert s.ticketAlpn.value + [] == s.ticketAlpn.value;
    }
  }

  lemma SavedIsAccepted(s: Session, header: seq<octet>, certOk: seq<octet> -> bool)
    requires IsSession(s) && (s.tlsVersion == TLS12 || s.tlsVersion == TLS13) && FitsFormat(s, certOk)
    ensures Accepts(header, Encoded(s, header), certOk)
  {
    HeadFits(s);
    EncodedParts(s, header);
    hide ParseAll, AllFit, Encoded, StringAt;
    if s.tlsVersion == TLS12 {
      ValuesFit12(s);
      BodyParts12(s);
    } else {
      ValuesFit13(s);
      BodyParts13(s);
      AlpnRestored(s);
    }
  }

  lemma SameHead(s: Session, t: Session)
    requires HeadValues(s) == HeadValues(t) && t.tlsVersion - t.tlsVersion % 256 == 0x300
    requires s.tlsVersion == TLS12 || s.tlsVersion == TLS13
    ensures s.tlsVersion == t.tlsVersion && s.endpoint == t.endpoint && s.ciphersuite == t.ciphersuite
  {
    var vs, us := HeadValues(s), HeadValues(t);
    assert vs[0] == us[0] && vs[1] == us[1] && vs[2] == us[2];
  }

  lemma SameValues12(s: Session, t: Session)
    requires s.endpoint == t.endpoint && Values12(s) == Values12(t)
    ensures Same12(s, t)
  {
    var vs, us := Values12(s), Values12(t);
    assert vs[0] == us[0] && vs[1] == us[1] && vs[2] == us[2] && vs[3] == us[3] && vs[4] == us[4] && vs[5] == us[5];
    assert vs[6] == us[6] && vs[7] == us[7];
    if s.endpoint == CLIENT {
      assert vs[8] == us[8] && vs[9] == us[9];
    } else if s.endpoint == SERVER {
      assert vs[8] == us[8];
    }
  }

  lemma SameBase13(s: Session, t: Session)
    requires BaseValues13(s) == BaseValues13(t)
    ensures && s.ticketAgeAdd == t.ticketAgeAdd && s.ticketFlags == t.ticketFlags && s.resumptionKey == t.resumptionKey
            && s.maxEarlyDataSize == t.maxEarlyDataSize && s.recordSizeLimit == t.recordSizeLimit
  {
    var vs, us := BaseValues13(s), BaseValues13(t);
    assert vs[0] == us[0] && vs[1] == us[1] && vs[2] == us[2] && vs[3] == us[3] && vs[4] == us[4];
  }

  lemma SameValues13(s: Session, t: Session)
    requires IsSession(s) && s.endpoint == t.endpoint && Loaded13(t, Values13(s), [])
    ensures Same13(s, t)
  {
    AlpnRestored(s);
    hide StringAt;
    var vs, us := Values13(s), Values13(t);
    assert vs[..5] == BaseValues13(s) && us[..5] == BaseValues13(t);
    SameBase13(s, t);
    if s.endpoint == CLIENT {
      assert vs[5] == us[5] && vs[6] == us[6] && vs[7] == us[7] && vs[8] == us[8];
    }
  }

  lemma SavedIsLoaded(s: Session, header: seq<octet>, certOk: seq<octet> -> bool, t: Session)
    requires IsSession(s) && (s.tlsVersion == TLS12 || s.tlsVersion == TLS13) && FitsFormat(s, certOk)
    requires IsLoaded(header, Encoded(s, header), t)
    ensures SameSession(s, t)
  {
    HeadFits(s);
    EncodedParts(s, header);
    hide ParseAll, AllFit, Encoded, HeadValues, Values12, Values13, Loaded13;
    SameHead(s, t);
    if s.tlsVersion == TLS12 {
      ValuesFit12(s);
      BodyParts12(s);
      SameValues12(s, t);
    } else {
      ValuesFit13(s);
      BodyParts13(s);
      SameValues13(s, t);
    }
  }

  // ----- what a load returns fits the format

  lemma LoadedFits(header: seq<octet>, buf: seq<octet>, certOk: seq<octet> -> bool, t: Session)
    requires Accepts(header, buf, certOk) && IsLoaded(header, buf, t)
    ensures (t.tlsVersion == TLS12 || t.tlsVersion == TLS13) && FitsFormat(t, certOk)
  {
    hide ParseAll, AllFit, AllShaped, Fields12, Fields13, Loaded13, Fits12, Fits13, PrintAll;
    var rest := buf[|header|..];
    PrintParseAll(HEAD, rest);
    HeadFits(t);
    var body := ParseAll(HEAD, rest).value.1;
    if t.tlsVersion == TLS12 {
      PrintParseAll(Fields12(t.endpoint), body);
      FixedSizes(t);
      ValuesFit12(t);
    } else {
      PrintParseAll(Fields13(t.endpoint), body);
      var (vs, end) := ParseAll(Fields13(t.endpoint), body).value;
      LoadedFits13(t, vs, end);
    }
  }

  lemma FixedSizes(t: Session)
    requires AllFit(Fields12(t.endpoint), Values12(t))
    ensures |t.id| == 32 && |t.master| == 48
  {
    var fs, vs := Fields12(t.endpoint), Values12(t);
    assert Fits(fs[2], vs[2]) && Fits(fs[3], vs[3]);
  }

  lemma LoadedFits13(t: Session, vs: seq<Value>, rest: seq<octet>)
    requires AllFit(Fields13(t.endpoint), vs) && Loaded13(t, vs, rest)
    requires |vs| > 2 && vs[2].Bytes? && |vs[2].b| <= MAX_RESUMPTION_KEY
    requires t.endpoint == SERVER ==> |vs| == 7 && vs[6].Bytes? && !AlpnTooLong(AlpnOf(vs[6].b, rest))
    ensures Fits13(t)
  {
    hide StringAt;
    var fs := Fields13(t.endpoint);
    assert vs[..5] == BaseValues13(t);
    assert |t.resumptionKey| <= MAX_RESUMPTION_KEY by {
      assert vs[..5][2] == vs[2];
    }
    FitConcat(BASE13, vs[..5], SideFields13(t.endpoint), vs[5..]);
    assert vs == vs[..5] + vs[5..];
    BaseFits13(t);
    if t.endpoint == SERVER {
      Powers();
      assert Fits(fs[5], vs[5]);
    } else {
      assert vs[5..] == SideValues13(t);
      SideFits13(t);
    }
  }

  lemma SameFits(s: Session, t: Session, certOk: seq<octet> -> bool)
    requires SameSession(s, t)
    ensures FitsFormat(s, certOk) <==> FitsFormat(t, certOk)
  {
  }

  // Loading what was saved gives the same session exactly when the session fits the
  // format; ok and t are what the load returns.
  lemma RoundTrip(s: Session, header: seq<octet>, certOk: seq<octet> -> bool, ok: bool, t: Session)
    requires IsSession(s) && (s.tlsVersion == TLS12 || s.tlsVersion == TLS13)
    requires ok <==> Accepts(header, Encoded(s, header), certOk)
    requires ok ==> IsLoaded(header, Encoded(s, header), t)
    ensures ok && SameSession(s, t) <==> FitsFormat(s, certOk)
  {
    hide Accepts, IsLoaded, Encoded, FitsFormat, SameSession;
    if FitsFormat(s, certOk) {
      SavedIsAccepted(s, header, certOk);
      SavedIsLoaded(s, header, certOk, t);
    }
    if ok && SameSession(s, t) {
      LoadedFits(header, Encoded(s, header), certOk, t);
      SameFits(s, t, certOk);
    }
  }

  // A save into room bytes, and a load of what it wrote: the session comes back if
  // and only if it fits the format and the room.
  method SaveThenLoad(s: Session, s0: Session, header: seq<octet>, certOk: seq<octet> -> bool, buf: array<octet>, start: nat, room: nat)
    returns (ok: bool, t: Session)
    requires IsSession(s) && (s.endpoint == CLIENT || s.endpoint == SERVER) && IsFresh(s0) && start + room <= buf.Length
    modifies buf
    ensures ok && SameSession(s, t) <==>
            (s.tlsVersion == TLS12 || s.tlsVersion == TLS13) && FitsFormat(s, certOk) && |Encoded(s, header)| <= room
    ensures buf[..start] == old(buf[..start]) && buf[start + room..] == old(buf[start + room..])
  {
    hide Accepts, IsLoaded, Encoded, SameSession, Overwrite, IsSession;
    ghost var was := buf[..];
    var ret, olen := SessionSave(s, header, buf, start, room);
    if ret != Ok {
      return false, s0;
    }
    WrittenBytes(was, start, Encoded(s, header));
    assert buf[start..start + olen] == buf[..][start..start + olen];
    var loaded;
    loaded, t := SessionLoad(s0, header, buf[start..start + olen], certOk);
    ok := loaded == Ok;
    RoundTrip(s, header, certOk, ok, t);
  }

  lemma WrittenBytes(was: seq<octet>, start: nat, b: seq<octet>)
    requires start + |b| <= |was|
    ensures Overwrite(was, start, b)[start..start + |b|] == b
  {
  }

  // A TLS 1.2 record that loads is the one its session is saved as.
  lemma SavedAgain(header: seq<octet>, buf: seq<octet>, t: Session)
    requires IsLoaded(header, buf, t) && t.tlsVersion == TLS12 && t.hostname == None && t.ticketAlpn == None
    ensures IsSession(t) && Encoded(t, header) == buf
  {
    hide ParseAll, AllFit, AllShaped, Fields12, Values12, PrintAll;
    var rest := buf[|header|..];
    PrintParseAll(HEAD, rest);
    var body := ParseAll(HEAD, rest).value.1;
    PrintParseAll(Fields12(t.endpoint), body);
    FixedSizes(t);
    var h := PrintAll(HEAD, HeadValues(t));
    assert body == Body(t) + [];
    assert buf == header + rest;
    assert buf == header + (h + body);
  }
}
