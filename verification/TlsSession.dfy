// Saving and loading TLS sessions (patches/ssl_tls.c:3458-3606, 3609-3814, 3825-4101,
// 4359-4431, 4451-4508), with every optional field compiled in and both endpoints.
module TlsSession {
  import opened Buffers
  import opened TlsFormat
  import opened Wrappers

  const CLIENT := 0
  const SERVER := 1
  const TLS12 := 0x303
  const TLS13 := 0x304
  const MAX_RESUMPTION_KEY := 48

  // A NULL certificate or ticket is an empty sequence; a string is the memory block
  // that holds it, terminator included.
  datatype Session = Session(
    tlsVersion: nat, endpoint: nat, ciphersuite: nat,
    start: nat, idLen: nat, id: seq<octet>, master: seq<octet>, verifyResult: nat, peerCert: seq<octet>,
    ticket: seq<octet>, ticketLifetime: nat, ticketCreationTime: nat, mflCode: nat, encryptThenMac: nat,
    ticketAgeAdd: nat, ticketFlags: nat, resumptionKey: seq<octet>, maxEarlyDataSize: nat, recordSizeLimit: nat,
    ticketAlpn: Option<seq<octet>>, hostname: Option<seq<octet>>, ticketReceptionTime: nat)

  // ----- the layout

  const HEAD: seq<Field> := [Number(1), Number(1), Number(2)]

  function HeadValues(s: Session): seq<Value> {
    [Num(s.tlsVersion % 256), Num(s.endpoint), Num(s.ciphersuite)]
  }

  const BASE12: seq<Field> := [Number(8), Number(1), Fixed(32), Fixed(48), Number(4), Vector(3)]

  function BaseValues12(s: Session): seq<Value> {
    [Num(s.start), Num(s.idLen), Bytes(s.id), Bytes(s.master), Num(s.verifyResult), Bytes(s.peerCert)]
  }

  function SideFields12(endpoint: nat): seq<Field> {
    if endpoint == CLIENT then [Vector(3), Number(4)] else if endpoint == SERVER then [Number(8)] else []
  }

  function SideValues12(s: Session): seq<Value> {
    if s.endpoint == CLIENT then [Bytes(s.ticket), Num(s.ticketLifetime)]
    else if s.endpoint == SERVER then [Num(s.ticketCreationTime)] else []
  }

  const TAIL12: seq<Field> := [Number(1), Number(1)]

  function TailValues12(s: Session): seq<Value> {
    [Num(s.mflCode), Num(s.encryptThenMac)]
  }

  function Fields12(endpoint: nat): seq<Field> {
    BASE12 + SideFields12(endpoint) + TAIL12
  }

  function Values12(s: Session): seq<Value> {
    BaseValues12(s) + SideValues12(s) + TailValues12(s)
  }

  const BASE13: seq<Field> := [Number(4), Number(1), Vector(1), Number(4), Number(2)]

  function BaseValues13(s: Session): seq<Value> {
    [Num(s.ticketAgeAdd), Num(s.ticketFlags), Bytes(s.resumptionKey), Num(s.maxEarlyDataSize), Num(s.recordSizeLimit)]
  }

  function StringBytes(o: Option<seq<octet>>): seq<octet> {
    match o case None => [] case Some(b) => b
  }

  function SideFields13(endpoint: nat): seq<Field> {
    if endpoint == CLIENT then [Vector(2), Number(8), Number(4), Vector(2)]
    else if endpoint == SERVER then [Number(8), Vector(2)] else []
  }

  function SideValues13(s: Session): seq<Value> {
    if s.endpoint == CLIENT then
      [Bytes(StringBytes(s.hostname)), Num(s.ticketReceptionTime), Num(s.ticketLifetime), Bytes(s.ticket)]
    else if s.endpoint == SERVER then [Num(s.ticketCreationTime), Bytes(StringBytes(s.ticketAlpn))] else []
  }

  function Fields13(endpoint: nat): seq<Field> {
    BASE13 + SideFields13(endpoint)
  }

  function Values13(s: Session): seq<Value> {
    BaseValues13(s) + SideValues13(s)
  }

  // A C string: one terminator, at the end of its block.
  predicate IsString(b: seq<octet>) {
    |b| > 0 && b[|b| - 1] == 0 && forall i :: 0 <= i < |b| - 1 ==> b[i] != 0
  }

  predicate IsSession(s: Session) {
    |s.id| == 32 && |s.master| == 48
    && (s.hostname.Some? ==> IsString(s.hostname.value)) && (s.ticketAlpn.Some? ==> IsString(s.ticketAlpn.value))
  }

  lemma ValuesShaped(s: Session)
    requires IsSession(s)
    ensures AllShaped(HEAD, HeadValues(s)) && AllShaped(Fields12(s.endpoint), Values12(s)) && AllShaped(Fields13(s.endpoint), Values13(s))
  {
  }

  function Body(s: Session): (b: seq<octet>)
    requires IsSession(s)
  {
    ValuesShaped(s);
    if s.tlsVersion == TLS12 then PrintAll(Fields12(s.endpoint), Values12(s)) else PrintAll(Fields13(s.endpoint), Values13(s))
  }

  function Encoded(s: Session, header: seq<octet>): (b: seq<octet>)
    requires IsSession(s)
  {
    Front(s, header) + Body(s)
  }

  // ----- writing

  // The cursor of a save: room bytes of buf from start on, of which used would be
  // needed so far; nothing more is written once used exceeds room.
  class Writer {
    const buf: array<octet>
    const start: nat
    const room: nat
    var used: nat
    ghost const was: seq<octet>
    ghost var done: seq<octet>

    ghost predicate Valid()
      reads this, buf
    {
      && start + room <= buf.Length == |was| && used == |done|
      && (if used <= room then buf[..] == Overwrite(was, start, done)
          else buf[..start] == was[..start] && buf[start + room..] == was[start + room..])
    }

    constructor (buf: array<octet>, start: nat, room: nat)
      requires start + room <= buf.Length
      ensures Valid() && this.buf == buf && this.start == start && this.room == room && was == buf[..] && done == [] && used == 0
    {
      this.buf, this.start, this.room := buf, start, room;
      used, done, was := 0, [], buf[..];
      new;
      OverwriteNothing(was, start, []);
    }

    // used += |b|; if (used <= buf_len) copy b and advance.
    method Write(b: seq<octet>)
      requires Valid()
      modifies this, buf
      ensures Valid() && done == old(done) + b
    {
      hide Overwrite;
      if used <= room {
        OutsideOnly(was, start, done, room);
      }
      used := used + |b|;
      if used <= room {
        Append(was, start, done, b);
        StoreBytes(buf, start + used - |b|, b);
      }
      done := done + b;
    }
  }

  lemma OutsideOnly(was: seq<octet>, start: nat, done: seq<octet>, room: nat)
    requires start + room <= |was| && |done| <= room
    ensures var now := Overwrite(was, start, done); now[..start] == was[..start] && now[start + room..] == was[start + room..]
  {
  }

  // ----- TLS 1.2

  // ssl_tls12_session_save
  method Save12(s: Session, w: Writer)
    requires IsSession(s) && w.Valid()
    modifies w, w.buf
    ensures w.Valid() && AllShaped(Fields12(s.endpoint), Values12(s))
    ensures w.done == old(w.done) + PrintAll(Fields12(s.endpoint), Values12(s))
  {
    hide Print, PrintAll, Overwrite, AllShaped, BaseValues12, SideValues12, TailValues12, SideFields12;
    Printed12(s);
    WriteBase12(s, w);
    WriteSide12(s, w);
    WriteTail12(s, w);
  }

  method WriteBase12(s: Session, w: Writer)
    requires IsSession(s) && w.Valid()
    modifies w, w.buf
    ensures w.Valid() && AllShaped(BASE12, BaseValues12(s))
    ensures w.done == old(w.done) + PrintAll(BASE12, BaseValues12(s))
  {
    hide Print, PrintAll, Overwrite;
    w.Write(Print(Number(8), Num(s.start)));
    w.Write(Print(Number(1), Num(s.idLen)) + s.id + s.master + Print(Number(4), Num(s.verifyResult)));
    w.Write(Print(Vector(3), Bytes(s.peerCert)));
    Base12Printed(s);
  }

  method WriteSide12(s: Session, w: Writer)
    requires IsSession(s) && w.Valid()
    modifies w, w.buf
    ensures w.Valid() && AllShaped(SideFields12(s.endpoint), SideValues12(s))
    ensures w.done == old(w.done) + PrintAll(SideFields12(s.endpoint), SideValues12(s))
  {
    hide Print, PrintAll, Overwrite;
    if s.endpoint == CLIENT {
      w.Write(Print(Vector(3), Bytes(s.ticket)) + Print(Number(4), Num(s.ticketLifetime)));
    }
    if s.endpoint == SERVER {
      w.Write(Print(Number(8), Num(s.ticketCreationTime)));
    }
    Side12Printed(s);
  }

  method WriteTail12(s: Session, w: Writer)
    requires w.Valid()
    modifies w, w.buf
    ensures w.Valid() && AllShaped(TAIL12, TailValues12(s))
    ensures w.done == old(w.done) + PrintAll(TAIL12, TailValues12(s))
  {
    hide Print, PrintAll, Overwrite;
    w.Write(Print(Number(1), Num(s.mflCode)));
    w.Write(Print(Number(1), Num(s.encryptThenMac)));
    Tail12Printed(s);
  }

  lemma Base12Printed(s: Session)
    requires IsSession(s)
    ensures AllShaped(BASE12, BaseValues12(s))
    ensures PrintAll(BASE12, BaseValues12(s)) ==
      Print(Number(8), Num(s.start)) + (Print(Number(1), Num(s.idLen)) + s.id + s.master + Print(Number(4), Num(s.verifyResult)))
      + Print(Vector(3), Bytes(s.peerCert))
  {
    hide Put;
    var fs, vs := BASE12, BaseValues12(s);
    PrintOne(fs[5], vs[5]);
    assert fs[1..][1..][1..][1..][1..] == [fs[5]] && vs[1..][1..][1..][1..][1..] == [vs[5]];
    Unfold(fs, vs);
    Unfold(fs[1..], vs[1..]);
    Unfold(fs[2..], vs[2..]);
    Unfold(fs[3..], vs[3..]);
    Unfold(fs[4..], vs[4..]);
  }

  lemma Unfold(fs: seq<Field>, vs: seq<Value>)
    requires AllShaped(fs, vs) && |fs| > 0
    ensures AllShaped(fs[1..], vs[1..]) && PrintAll(fs, vs) == Print(fs[0], vs[0]) + PrintAll(fs[1..], vs[1..])
  {
    hide Print;
  }

  lemma PrintOne(f: Field, v: Value)
    requires Shaped(f, v)
    ensures AllShaped([f], [v]) && PrintAll([f], [v]) == Print(f, v)
  {
    hide Print;
    assert [f][1..] == [] && [v][1..] == [];
  }

  lemma PrintTwo(f: Field, v: Value, g: Field, u: Value)
    requires Shaped(f, v) && Shaped(g, u)
    ensures AllShaped([f, g], [v, u]) && PrintAll([f, g], [v, u]) == Print(f, v) + Print(g, u)
  {
    hide Print;
    PrintOne(f, v);
    PrintOne(g, u);
    PrintConcat([f], [v], [g], [u]);
  }

  lemma Side12Printed(s: Session)
    requires IsSession(s)
    ensures AllShaped(SideFields12(s.endpoint), SideValues12(s))
    ensures PrintAll(SideFields12(s.endpoint), SideValues12(s)) ==
            if s.endpoint == CLIENT then Print(Vector(3), Bytes(s.ticket)) + Print(Number(4), Num(s.ticketLifetime))
            else if s.endpoint == SERVER then Print(Number(8), Num(s.ticketCreationTime)) else []
  {
    PrintTwo(Vector(3), Bytes(s.ticket), Number(4), Num(s.ticketLifetime));
    PrintOne(Number(8), Num(s.ticketCreationTime));
    hide Print;
  }

  lemma Tail12Printed(s: Session)
    ensures AllShaped(TAIL12, TailValues12(s))
    ensures PrintAll(TAIL12, TailValues12(s)) == Print(Number(1), Num(s.mflCode)) + Print(Number(1), Num(s.encryptThenMac))
  {
    PrintTwo(Number(1), Num(s.mflCode), Number(1), Num(s.encryptThenMac));
    hide Print;
  }

  lemma Printed12(s: Session)
    requires IsSession(s)
    ensures AllShaped(BASE12, BaseValues12(s)) && AllShaped(SideFields12(s.endpoint), SideValues12(s)) && AllShaped(TAIL12, TailValues12(s))
    ensures AllShaped(Fields12(s.endpoint), Values12(s))
    ensures PrintAll(Fields12(s.endpoint), Values12(s)) ==
            PrintAll(BASE12, BaseValues12(s)) + PrintAll(SideFields12(s.endpoint), SideValues12(s)) + PrintAll(TAIL12, TailValues12(s))
  {
    Base12Printed(s);
    Side12Printed(s);
    Tail12Printed(s);
    hide Print, PrintAll;
    PrintConcat(BASE12, BaseValues12(s), SideFields12(s.endpoint), SideValues12(s));
    PrintConcat(BASE12 + SideFields12(s.endpoint), BaseValues12(s) + SideValues12(s), TAIL12, TailValues12(s));
  }

  // ----- TLS 1.3

  datatype Ret = Ok | BadInput | TooSmall | Unavailable | VersionMismatch | CertError

  // The size computed before anything is written.
  function Needed13(s: Session): nat {
    4 + 1 + 1 + |s.resumptionKey| + 4 + 2 + 8
    + (if s.endpoint == SERVER then 2 + |StringBytes(s.ticketAlpn)| else 0)
    + (if s.endpoint == CLIENT then 2 + |StringBytes(s.hostname)| + 4 + 2 + |s.ticket| else 0)
  }

  lemma Base13Printed(s: Session)
    requires IsSession(s)
    ensures AllShaped(BASE13, BaseValues13(s))
    ensures PrintAll(BASE13, BaseValues13(s)) ==
      Print(Number(4), Num(s.ticketAgeAdd)) + Print(Number(1), Num(s.ticketFlags)) + Print(Vector(1), Bytes(s.resumptionKey))
      + Print(Number(4), Num(s.maxEarlyDataSize)) + Print(Number(2), Num(s.recordSizeLimit))
  {
    hide Print;
    var fs, vs := BASE13, BaseValues13(s);
    PrintOne(fs[4], vs[4]);
    assert fs[1..][1..][1..][1..] == [fs[4]] && vs[1..][1..][1..][1..] == [vs[4]];
    Unfold(fs, vs);
    Unfold(fs[1..], vs[1..]);
    Unfold(fs[2..], vs[2..]);
    Unfold(fs[3..], vs[3..]);
  }

  lemma Side13Printed(s: Session)
    requires IsSession(s)
    ensures AllShaped(SideFields13(s.endpoint), SideValues13(s))
    ensures PrintAll(SideFields13(s.endpoint), SideValues13(s)) ==
            if s.endpoint == CLIENT then
              Print(Vector(2), Bytes(StringBytes(s.hostname))) + Print(Number(8), Num(s.ticketReceptionTime))
              + (Print(Number(4), Num(s.ticketLifetime)) + Print(Vector(2), Bytes(s.ticket)))
            else if s.endpoint == SERVER then Print(Number(8), Num(s.ticketCreationTime)) + Print(Vector(2), Bytes(StringBytes(s.ticketAlpn)))
            else []
  {
    PrintTwo(Vector(2), Bytes(StringBytes(s.hostname)), Number(8), Num(s.ticketReceptionTime));
    PrintTwo(Number(4), Num(s.ticketLifetime), Vector(2), Bytes(s.ticket));
    PrintTwo(Number(8), Num(s.ticketCreationTime), Vector(2), Bytes(StringBytes(s.ticketAlpn)));
    hide Print;
    PrintConcat([Vector(2), Number(8)], [Bytes(StringBytes(s.hostname)), Num(s.ticketReceptionTime)],
                [Number(4), Vector(2)], [Num(s.ticketLifetime), Bytes(s.ticket)]);
  }

  lemma Printed13(s: Session)
    requires IsSession(s)
    ensures AllShaped(BASE13, BaseValues13(s)) && AllShaped(SideFields13(s.endpoint), SideValues13(s))
    ensures AllShaped(Fields13(s.endpoint), Values13(s))
    ensures PrintAll(Fields13(s.endpoint), Values13(s)) == PrintAll(BASE13, BaseValues13(s)) + PrintAll(SideFields13(s.endpoint), SideValues13(s))
  {
    Base13Printed(s);
    Side13Printed(s);
    hide Print, PrintAll;
    PrintConcat(BASE13, BaseValues13(s), SideFields13(s.endpoint), SideValues13(s));
  }

  // The size that is announced is the size that is written, exactly for the two
  // endpoints there are: any other value would announce 8 bytes too many.
  lemma NeededIsPrinted(s: Session)
    requires IsSession(s)
    ensures AllShaped(Fields13(s.endpoint), Values13(s))
    ensures Needed13(s) == |PrintAll(Fields13(s.endpoint), Values13(s))| <==> s.endpoint == CLIENT || s.endpoint == SERVER
    ensures Needed13(s) >= |PrintAll(Fields13(s.endpoint), Values13(s))|
  {
    Base13Printed(s);
    Side13Printed(s);
    Printed13(s);
    hide PrintAll, Put;
  }

  // ssl_tls13_session_save
  method Save13(s: Session, buf: array<octet>, start: nat, room: nat) returns (ret: Ret, olen: nat)
    requires IsSession(s) && start + room <= buf.Length
    modifies buf
    ensures AllShaped(Fields13(s.endpoint), Values13(s))
    ensures ret == if |s.resumptionKey| > MAX_RESUMPTION_KEY then BadInput else if Needed13(s) > room then TooSmall else Ok
    ensures ret != BadInput ==> olen == Needed13(s)
    ensures ret == Ok ==> |PrintAll(Fields13(s.endpoint), Values13(s))| <= room
    ensures buf[..] == if ret == Ok then Overwrite(old(buf[..]), start, PrintAll(Fields13(s.endpoint), Values13(s))) else old(buf[..])
  {
    hide Print, PrintAll, Fields13, Values13, Needed13, Overwrite, IsSession;
    NeededIsPrinted(s);
    olen := 0;
    if |s.resumptionKey| > MAX_RESUMPTION_KEY {
      return BadInput, olen;
    }
    olen := Needed13(s);
    if olen > room {
      return TooSmall, olen;
    }
    var w := new Writer(buf, start, room);
    Write13(s, w);
    assert w.done == PrintAll(Fields13(s.endpoint), Values13(s));
    ret := Ok;
  }

  // The fields in order, once they are known to fit.
  method Write13(s: Session, w: Writer)
    requires IsSession(s) && w.Valid()
    modifies w, w.buf
    ensures w.Valid() && AllShaped(Fields13(s.endpoint), Values13(s))
    ensures w.done == old(w.done) + PrintAll(Fields13(s.endpoint), Values13(s))
  {
    hide Print, PrintAll, Overwrite, AllShaped, BaseValues13, SideValues13, SideFields13;
    Printed13(s);
    WriteBase13(s, w);
    WriteSide13(s, w);
  }

  method WriteBase13(s: Session, w: Writer)
    requires IsSession(s) && w.Valid()
    modifies w, w.buf
    ensures w.Valid() && AllShaped(BASE13, BaseValues13(s))
    ensures w.done == old(w.done) + PrintAll(BASE13, BaseValues13(s))
  {
    hide Print, PrintAll, Overwrite;
    w.Write(Print(Number(4), Num(s.ticketAgeAdd)) + Print(Number(1), Num(s.ticketFlags)) + Print(Vector(1), Bytes(s.resumptionKey)));
    w.Write(Print(Number(4), Num(s.maxEarlyDataSize)));
    w.Write(Print(Number(2), Num(s.recordSizeLimit)));
    Base13Printed(s);
  }

  method WriteSide13(s: Session, w: Writer)
    requires IsSession(s) && w.Valid()
    modifies w, w.buf
    ensures w.Valid() && AllShaped(SideFields13(s.endpoint), SideValues13(s))
    ensures w.done == old(w.done) + PrintAll(SideFields13(s.endpoint), SideValues13(s))
  {
    hide Print, PrintAll, Overwrite, StringBytes, AllShaped, SideFields13, SideValues13, IsSession;
    Side13Printed(s);
    if s.endpoint == CLIENT {
      WriteClient13(s, w);
    }
    if s.endpoint == SERVER {
      w.Write(Print(Number(8), Num(s.ticketCreationTime)));
      w.Write(Print(Vector(2), Bytes(StringBytes(s.ticketAlpn))));
    }
  }

  method WriteClient13(s: Session, w: Writer)
    requires w.Valid()
    modifies w, w.buf
    ensures w.Valid()
    ensures w.done == old(w.done) + (Print(Vector(2), Bytes(StringBytes(s.hostname))) + Print(Number(8), Num(s.ticketReceptionTime))
                      + (Print(Number(4), Num(s.ticketLifetime)) + Print(Vector(2), Bytes(s.ticket))))
  {
    hide Print, Overwrite, StringBytes;
    w.Write(Print(Vector(2), Bytes(StringBytes(s.hostname))));
    w.Write(Print(Number(8), Num(s.ticketReceptionTime)));
    w.Write(Print(Number(4), Num(s.ticketLifetime)) + Print(Vector(2), Bytes(s.ticket)));
  }

  // ----- both versions

  // What ssl_session_save returns and announces.
  function SaveRet(s: Session, header: seq<octet>, room: nat): Ret
    requires IsSession(s)
  {
    if s.tlsVersion != TLS12 && s.tlsVersion != TLS13 then Unavailable
    else if s.tlsVersion == TLS13 && |s.resumptionKey| > MAX_RESUMPTION_KEY then BadInput
    else if |Encoded(s, header)| > room then TooSmall else Ok
  }

  // What a save into remaining bytes at p may have done to the buffer.
  ghost predicate BodySaved(mid: seq<octet>, now: seq<octet>, p: nat, remaining: nat, body: seq<octet>) {
    && |now| == |mid| && p + remaining <= |mid|
    && (|body| <= remaining ==> now == Overwrite(mid, p, body))
    && now[..p] == mid[..p] && now[p + remaining..] == mid[p + remaining..]
  }

  lemma SavedFrame(mid: seq<octet>, p: nat, remaining: nat, body: seq<octet>)
    requires p + remaining <= |mid| && |body| <= remaining
    ensures BodySaved(mid, Overwrite(mid, p, body), p, remaining, body)
  {
    OutsideOnly(mid, p, body, remaining);
  }

  method SaveBody(s: Session, buf: array<octet>, p: nat, remaining: nat) returns (ret: Ret, out: nat)
    requires IsSession(s) && (s.endpoint == CLIENT || s.endpoint == SERVER) && p + remaining <= buf.Length
    modifies buf
    ensures ret == if s.tlsVersion != TLS12 && s.tlsVersion != TLS13 then Unavailable
                   else if s.tlsVersion == TLS13 && |s.resumptionKey| > MAX_RESUMPTION_KEY then BadInput
                   else if |Body(s)| > remaining then TooSmall else Ok
    ensures ret == Ok || ret == TooSmall ==> out == |Body(s)| && BodySaved(old(buf[..]), buf[..], p, remaining, Body(s))
    ensures ret != Ok && ret != TooSmall ==> buf[..] == old(buf[..])
  {
    hide PrintAll, Overwrite, Fields12, Values12, Fields13, Values13, Needed13, IsSession;
    ghost var was := buf[..];
    out := 0;
    if s.tlsVersion == TLS12 {
      var w := new Writer(buf, p, remaining);
      Save12(s, w);
      assert w.done == Body(s);
      out := w.used;
      ret := if out > remaining then TooSmall else Ok;
      if out <= remaining {
        SavedFrame(was, p, remaining, Body(s));
      }
    } else if s.tlsVersion == TLS13 {
      NeededIsPrinted(s);
      ret, out := Save13(s, buf, p, remaining);
      if ret == Ok {
        SavedFrame(was, p, remaining, Body(s));
      }
    } else {
      ret := Unavailable;
    }
  }

  // ssl_session_save
  method SessionSave(s: Session, header: seq<octet>, buf: array<octet>, start: nat, room: nat) returns (ret: Ret, olen: nat)
    requires IsSession(s) && (s.endpoint == CLIENT || s.endpoint == SERVER) && start + room <= buf.Length
    modifies buf
    ensures ret == SaveRet(s, header, room)
    ensures ret == Ok || ret == TooSmall ==> olen == |Encoded(s, header)|
    ensures ret == Ok ==> |Encoded(s, header)| <= room && buf[..] == Overwrite(old(buf[..]), start, Encoded(s, header))
    ensures buf[..start] == old(buf[..start]) && buf[start + room..] == old(buf[start + room..])
  {
    hide PrintAll, Overwrite, Print, Body, IsSession, HeadValues;
    ghost var was := buf[..];
    olen := 0;
    var used := SaveFront(s, header, buf, start, room);
    ghost var front, mid := Front(s, header), buf[..];
    FrontFrame(was, mid, start, room, front);
    var p, remaining := if used <= room then start + used else start, if used <= room then room - used else 0;
    var out;
    ret, out := SaveBody(s, buf, p, remaining);
    JoinParts(was, mid, buf[..], start, room, front, Body(s), p, remaining);
    if ret != Ok && ret != TooSmall {
      return;
    }
    olen := used + out;
    ret := if olen > room then TooSmall else Ok;
  }

  // The header, if any, and the fields both versions share.
  function Front(s: Session, header: seq<octet>): (b: seq<octet>) {
    HeadPrinted(s);
    header + PrintAll(HEAD, HeadValues(s))
  }

  method SaveFront(s: Session, header: seq<octet>, buf: array<octet>, start: nat, room: nat) returns (used: nat)
    requires start + room <= buf.Length
    modifies buf
    ensures used == |Front(s, header)|
    ensures if used <= room then buf[..] == Overwrite(old(buf[..]), start, Front(s, header))
            else buf[..start] == old(buf[..start]) && buf[start + room..] == old(buf[start + room..])
  {
    hide PrintAll, Overwrite, Print;
    var w := new Writer(buf, start, room);
    w.Write(header);
    w.Write(Print(Number(1), Num(s.tlsVersion % 256)) + Print(Number(1), Num(s.endpoint)) + Print(Number(2), Num(s.ciphersuite)));
    HeadPrinted(s);
    assert w.done == Front(s, header);
    used := w.used;
  }

  lemma HeadPrinted(s: Session)
    ensures AllShaped(HEAD, HeadValues(s))
    ensures PrintAll(HEAD, HeadValues(s)) ==
            Print(Number(1), Num(s.tlsVersion % 256)) + Print(Number(1), Num(s.endpoint)) + Print(Number(2), Num(s.ciphersuite))
  {
    hide Print;
    PrintOne(Number(1), Num(s.tlsVersion % 256));
    PrintTwo(Number(1), Num(s.endpoint), Number(2), Num(s.ciphersuite));
    PrintConcat([Number(1)], [Num(s.tlsVersion % 256)], [Number(1), Number(2)], [Num(s.endpoint), Num(s.ciphersuite)]);
  }

  lemma FrontFrame(was: seq<octet>, mid: seq<octet>, start: nat, room: nat, front: seq<octet>)
    requires start + room <= |was| == |mid|
    requires if |front| <= room then mid == Overwrite(was, start, front) else mid[..start] == was[..start] && mid[start + room..] == was[start + room..]
    ensures mid[..start] == was[..start] && mid[start + room..] == was[start + room..]
  {
    if |front| <= room {
      OutsideOnly(was, start, front, room);
    }
  }

  lemma JoinParts(was: seq<octet>, mid: seq<octet>, now: seq<octet>, start: nat, room: nat, front: seq<octet>, body: seq<octet>, p: nat, remaining: nat)
    requires start + room <= |was| == |mid| == |now|
    requires mid[..start] == was[..start] && mid[start + room..] == was[start + room..]
    requires |front| <= room ==> mid == Overwrite(was, start, front)
    requires p == (if |front| <= room then start + |front| else start) && remaining == if |front| <= room then room - |front| else 0
    requires now == mid || BodySaved(mid, now, p, remaining, body)
    ensures now[..start] == was[..start] && now[start + room..] == was[start + room..]
    ensures BodySaved(mid, now, p, remaining, body) && |front| + |body| <= room ==> now == Overwrite(was, start, front + body)
  {
    hide Overwrite;
    assert now[..p] == mid[..p];
    assert now[p + remaining..] == mid[p + remaining..];
    assert now[..start] == now[..p][..start];
    assert now[start + room..] == now[p + remaining..][start + room - (p + remaining)..];
    assert mid[start + room..] == mid[p + remaining..][start + room - (p + remaining)..];
    if |front| <= room && |body| <= remaining {
      Append(was, start, front, body);
    }
  }
}
