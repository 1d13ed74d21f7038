// The verdict on a certificate list (patches/x509_crt.c:3020-3045, 3064-3154),
// without a verification callback and with a profile.
module X509Verify {
  import opened X509Names
  import opened X509Parent
  import opened X509Chain
  import opened Wrappers

  // The flags of the end-entity certificate that do not depend on the path.
  function EeFlags(w: World, ee: Cert, nameOk: bool): (f: set<Flag>)
    ensures f == {} <==> nameOk && PkAllowed(w.profile, ee.pk) && KeyAllowed(w.profile, ee.key)
  {
    var n := if nameOk then {} else {CnMismatch};
    var p := if PkAllowed(w.profile, ee.pk) then {} else {BadPk};
    var k := if KeyAllowed(w.profile, ee.key) then {} else {BadKey};
    assert CnMismatch in n <==> !nameOk;
    assert BadPk in p <==> !PkAllowed(w.profile, ee.pk);
    assert BadKey in k <==> !KeyAllowed(w.profile, ee.key);
    assert n <= n + p + k && p <= n + p + k && k <= n + p + k;
    n + p + k
  }

  function AllFlags(items: seq<Item>): (f: set<Flag>) {
    if items == [] then {} else items[0].flags + AllFlags(items[1..])
  }

  lemma {:induction false} NoFlags(items: seq<Item>)
    ensures AllFlags(items) == {} <==> forall j :: 0 <= j < |items| ==> items[j].flags == {}
  {
    if items != [] {
      NoFlags(items[1..]);
      assert items == [items[0]] + items[1..];
      assert items[0].flags <= AllFlags(items) && AllFlags(items[1..]) <= AllFlags(items);
    }
  }

  // flags is None for (uint32_t) -1.
  datatype Verdict = Verdict(code: Code, flags: Option<set<Flag>>)

  function Judge(w: World, peer: seq<Cert>, nameOk: bool): Verdict
    requires |peer| > 0
  {
    match Grow(w, peer, [], 0, 0)
    case TooLong => Verdict(Fatal, None)
    case Built(items) =>
      var f := EeFlags(w, peer[0], nameOk) + AllFlags(items);
      if f == {} then Verdict(Success, Some({})) else Verdict(VerifyFailed, Some(f))
  }

  // x509_crt_merge_flags_with_cb
  method MergeFlags(items: seq<Item>) returns (flags: set<Flag>)
    ensures flags == AllFlags(items)
  {
    flags := {};
    for i := |items| downto 0
      invariant flags == AllFlags(items[i..])
    {
      assert items[i..][0] == items[i] && items[i..][1..] == items[i + 1..];
      flags := flags + items[i].flags;
    }
    assert items[0..] == items;
  }

  lemma MergeFirst(items: seq<Item>, f: set<Flag>)
    requires |items| > 0
    ensures AllFlags(items[0 := items[0].(flags := items[0].flags + f)]) == f + AllFlags(items)
  {
    var items' := items[0 := items[0].(flags := items[0].flags + f)];
    assert items'[1..] == items[1..];
  }

  // x509_crt_verify_restartable_ca_cb: a call that is not stopped answers the same
  // whatever interruptions came before it.
  method VerifyRestartable(w: World, peer: seq<Cert>, nameOk: bool, rs: RestartContext?, b: Budget) returns (v: Verdict)
    requires |peer| > 0 && ContextFor(w, peer, rs)
    modifies b, if rs == null then {} else {rs}
    ensures v.code == Stopped ==> rs != null && ContextFor(w, peer, rs) && v.flags == None && b.RanOut()
    ensures v.code != Stopped ==> v == Judge(w, peer, nameOk)
    ensures v.code != Stopped && rs != null ==> rs.Idle() && !rs.inProgress
  {
    hide Grow, IsPath, AllFlags, EeFlags, Resumable, MdAllowed;
    var eeFlags := EndEntityFlags(w, peer[0], nameOk);
    var code, items := VerifyChain(w, peer, rs, b);
    if code == Stopped {
      return Verdict(Stopped, None);
    }
    if rs != null {
      rs.Free();
    }
    if code != Success {
      return Verdict(code, None);
    }
    BuildsPath(w, peer);
    PathHasItems(w, peer, items);
    MergeFirst(items, eeFlags);
    items := items[0 := items[0].(flags := items[0].flags + eeFlags)];
    var flags := MergeFlags(items);
    v := if flags != {} then Verdict(VerifyFailed, Some(flags)) else Verdict(Success, Some({}));
  }

  lemma PathHasItems(w: World, peer: seq<Cert>, items: seq<Item>)
    requires IsPath(w, peer, items)
    ensures |items| > 0
  {
  }

  method EndEntityFlags(w: World, ee: Cert, nameOk: bool) returns (f: set<Flag>)
    ensures f == EeFlags(w, ee, nameOk)
  {
    f := {};
    if !nameOk {
      f := f + {CnMismatch};
    }
    if !PkAllowed(w.profile, ee.pk) {
      f := f + {BadPk};
    }
    if !KeyAllowed(w.profile, ee.key) {
      f := f + {BadKey};
    }
  }

  // ----- what a good verdict means

  // In date, and signed with an allowed hash and an allowed kind of key; 0 stands for
  // none.
  predicate Acceptable(w: World, c: Cert) {
    && c.validFrom <= w.now <= c.validTo
    && c.sigMd != 0 && c.sigMd in w.profile.mds
    && c.sigPk != 0 && c.sigPk in w.profile.pks
  }

  predicate WeakKey(p: Profile, k: Key) {
    || k.OtherKey?
    || (k.Rsa? && k.bits < p.rsaMinBits)
    || (k.Ec? && (k.group == 0 || k.group !in p.curves))
  }

  // Item j + 1 signed item j and was allowed to, with an allowed key, and item j is
  // not revoked.
  predicate SoundLink(w: World, peer: seq<Cert>, items: seq<Item>, j: nat)
    requires j + 1 < |items| && ValidRefs(w, peer, items)
  {
    var child, parent := CertOf(w, peer, items[j].ref), CertOf(w, peer, items[j + 1].ref);
    && MayIssue(child, parent, items[j + 1].ref.Root?, j, SelfCount(w, peer, items, j))
    && w.good(child, parent)
    && !WeakKey(w.profile, parent.key)
    && w.crl(child, parent) == {}
  }

  predicate SoundPath(w: World, peer: seq<Cert>, items: seq<Item>) {
    && 1 < |items| <= MAX_CHAIN && ValidRefs(w, peer, items)
    && items[0].ref == Peer(0) && items[|items| - 1].ref.Root?
    && (forall j :: 0 <= j < |items| - 1 ==> Acceptable(w, CertOf(w, peer, items[j].ref)) && SoundLink(w, peer, items, j))
    && var root := CertOf(w, peer, items[|items| - 1].ref); root.validFrom <= w.now <= root.validTo
  }

  predicate Trustworthy(w: World, peer: seq<Cert>, items: seq<Item>) {
    || (|items| == 1 && |peer| > 0 && LocallyTrusted(w, peer[0]) && Acceptable(w, peer[0]))
    || SoundPath(w, peer, items)
  }

  lemma FlagsOfLink(w: World, peer: seq<Cert>, items: seq<Item>, j: nat)
    requires j + 1 < |items| && ValidRefs(w, peer, items) && Link(w, peer, items, j) && InnerFlags(w, peer, items, j)
    ensures items[j].flags == {} <==> Acceptable(w, CertOf(w, peer, items[j].ref)) && SoundLink(w, peer, items, j)
  {
    hide MayIssue, Link, OwnFlags, LinkFlags, SelfCount;
    var child, parent := CertOf(w, peer, items[j].ref), CertOf(w, peer, items[j + 1].ref);
    LinkIsCandidate(w, peer, items, j);
    SetUnionEmpty(OwnFlags(w, child), LinkFlags(w, child, parent));
  }

  lemma SetUnionEmpty(a: set<Flag>, b: set<Flag>)
    ensures a + b == {} <==> a == {} && b == {}
  {
    assert a <= a + b && b <= a + b;
  }

  lemma RootPathFlags(w: World, peer: seq<Cert>, items: seq<Item>)
    requires EndsInRoot(w, peer, items)
    ensures AllFlags(items) == {} <==> SoundPath(w, peer, items)
  {
    hide Link, InnerFlags, SoundLink, Acceptable, TimeFlags;
    NoFlags(items);
    forall j | 0 <= j < |items| - 1
      ensures items[j].flags == {} <==> Acceptable(w, CertOf(w, peer, items[j].ref)) && SoundLink(w, peer, items, j)
    {
      FlagsOfLink(w, peer, items, j);
    }
  }

  // Verification succeeds exactly when the path that was built is trustworthy and
  // the name and key of the end-entity certificate are acceptable.
  lemma SuccessExactly(w: World, peer: seq<Cert>, nameOk: bool)
    requires |peer| > 0
    ensures Judge(w, peer, nameOk).code == Success <==>
            var o := Grow(w, peer, [], 0, 0);
            && nameOk && peer[0].pk != 0 && peer[0].pk in w.profile.pks && !WeakKey(w.profile, peer[0].key)
            && o.Built? && Trustworthy(w, peer, o.items)
  {
    BuildsPath(w, peer);
    hide Grow, LocallyTrusted, EeFlags, PathSoFar, Acceptable, SoundPath, EndsInRoot;
    match Grow(w, peer, [], 0, 0) {
      case TooLong =>
      case Built(items) =>
        SetUnionEmpty(EeFlags(w, peer[0], nameOk), AllFlags(items));
        NoFlags(items);
        PathFlags(w, peer, items);
    }
  }

  lemma PathFlags(w: World, peer: seq<Cert>, items: seq<Item>)
    requires |peer| > 0 && IsPath(w, peer, items)
    ensures AllFlags(items) == {} <==> Trustworthy(w, peer, items)
  {
    hide SoundLink, Link, InnerFlags, LocallyTrusted, OwnFlags, AllFlags, SelfCount, TimeFlags;
    NoFlags(items);
    if EndsInRoot(w, peer, items) {
      RootPathFlags(w, peer, items);
    } else if EndsTrusted(w, peer, items) {
      assert items[0].flags == OwnFlags(w, peer[0]);
    } else {
      assert NotTrusted in items[|items| - 1].flags;
    }
  }

  // ----- path length

  // RFC 5280, section 6.1.4: at most maxPathlen - 1 intermediate certificates that
  // are not self-issued may come between the parent of item j and the end entity.
  predicate Rfc5280PathlenOk(w: World, peer: seq<Cert>, items: seq<Item>, j: nat)
    requires j + 1 < |items| && ValidRefs(w, peer, items)
  {
    var parent := CertOf(w, peer, items[j + 1].ref);
    parent.maxPathlen > 0 ==> j - SelfCount(w, peer, items, j + 1) <= parent.maxPathlen - 1
  }

  // The check is at least as strict, and stricter exactly when the child is itself a
  // self-issued intermediate, which is counted although it should not be, and the
  // limit has no room for it.
  lemma PathlenIsStricter(w: World, peer: seq<Cert>, items: seq<Item>, j: nat)
    requires j + 1 < |items| && ValidRefs(w, peer, items)
    ensures var child, parent := CertOf(w, peer, items[j].ref), CertOf(w, peer, items[j + 1].ref);
            var n := SelfCount(w, peer, items, j);
            && (PathlenOk(parent, j, n) ==> Rfc5280PathlenOk(w, peer, items, j))
            && (Rfc5280PathlenOk(w, peer, items, j) && !PathlenOk(parent, j, n) <==>
                j > 0 && SelfIssued(child) && parent.maxPathlen > 0 && parent.maxPathlen == j - n)
  {
    hide SelfIssued;
  }

  // A list of an end-entity certificate and a self-issued CA certificate under one
  // trusted root, in which all but the path length is in order: the root did not sign
  // the end entity itself, and nothing else limits the length.
  predicate OneSelfIssued(w: World, ee: Cert, ca: Cert, root: Cert) {
    && w.trust == [root]
    && SameName(ee.issuer, ca.subject) && SelfIssued(ca) && SameName(ca.issuer, root.subject) && !SelfIssued(ee)
    && ca.caIsTrue && AllowsCertSign(ca) && ca.maxPathlen <= 0 && root.caIsTrue && AllowsCertSign(root)
    && w.good(ee, ca) && w.good(ca, root) && !w.good(ee, root) && w.crl(ee, ca) == {} && w.crl(ca, root) == {}
    && Acceptable(w, ee) && Acceptable(w, ca) && TimeValid(w, root)
    && KeyAllowed(w.profile, ee.key) && KeyAllowed(w.profile, ca.key) && KeyAllowed(w.profile, root.key) && PkAllowed(w.profile, ee.pk)
  }

  // The path the list is meant for, before any flag is set.
  const SELF_ISSUED_PATH := [Item(Peer(0), {}), Item(Peer(1), {}), Item(Root(0), {})]

  // The search for the issuer of the end entity finds the CA certificate behind it.
  lemma FindsCa(w: World, ee: Cert, ca: Cert, root: Cert)
    requires OneSelfIssued(w, ee, ca, root)
    ensures Find(w, ee, [ca], 0, 0) == Some(Found(false, 0))
  {
    hide SameName, AllowsCertSign, KeyAllowed;
    SearchOne(w, TrustQuery(w, ee, 0, 0));
    SearchOne(w, PeerQuery(ee, [ca], 0, 0));
    assert TimeValid(w, ca);
  }

  // The search for the issuer of the CA certificate finds the root, unless its limit
  // is 0, stored as 1.
  lemma FindsRoot(w: World, ee: Cert, ca: Cert, root: Cert)
    requires OneSelfIssued(w, ee, ca, root)
    ensures Find(w, ca, [], 1, 0) == if root.maxPathlen == 1 then None else Some(Found(true, 0))
  {
    hide SameName, AllowsCertSign, TimeValid, KeyAllowed, MdAllowed, PkAllowed;
    SearchOne(w, TrustQuery(w, ca, 1, 0));
  }

  lemma SearchOne(w: World, q: Query)
    requires |q.list| == 1
    ensures Search(w, q, 0, None) == if SuitableAt(w, q, 0) then Some(0) else None
  {
    hide SuitableAt, TimeValid;
    NextSearch(w, q, 0, None);
    SearchDone(w, q, None);
    SearchDone(w, q, Some(0));
  }

  lemma NoOwnFlags(w: World, c: Cert)
    requires Acceptable(w, c)
    ensures OwnFlags(w, c) == {}
  {
  }

  lemma SelfIssuedChain(w: World, ee: Cert, ca: Cert, root: Cert)
    requires OneSelfIssued(w, ee, ca, root)
    ensures Grow(w, [ee, ca], [], 0, 0) ==
            Built(if root.maxPathlen == 1 then [Item(Peer(0), {}), Item(Peer(1), {NotTrusted})] else SELF_ISSUED_PATH)
  {
    hide SameName, AllowsCertSign, KeyAllowed, Find, Grow, Extend, OwnFlags, LinkFlags, TimeFlags, Acceptable;
    NoOwnFlags(w, ee);
    NoOwnFlags(w, ca);
    var peer := [ee, ca];
    FindsCa(w, ee, ca, root);
    FindsRoot(w, ee, ca, root);
    assert peer[1..] == [ca] && peer[2..] == [];
    GrowIs(w, peer, [], 0, 0);
    assert [] + [Item(Peer(0), OwnFlags(w, ee))] == [Item(Peer(0), {})];
    ExtendIs(w, peer, [Item(Peer(0), {})], 0, 0);
    assert LinkFlags(w, ee, ca) == {} && LinkFlags(w, ca, root) == {} && TimeFlags(w, root) == {};
    NoUnion({NotTrusted});
    NoUnion({});
    var items := WithFlags([Item(Peer(0), {})], LinkFlags(w, ee, ca));
    assert items == [Item(Peer(0), {})];
    GrowIs(w, peer, items, 1, 0);
    assert items + [Item(Peer(1), OwnFlags(w, ca))] == [Item(Peer(0), {}), Item(Peer(1), {})];
    ExtendIs(w, peer, [Item(Peer(0), {}), Item(Peer(1), {})], 1, 0);
    var done := [Item(Peer(0), {}), Item(Peer(1), {})];
    assert WithFlags(done, {}) == done && WithFlags(done, {NotTrusted}) == [Item(Peer(0), {}), Item(Peer(1), {NotTrusted})];
    assert done + [Item(Root(0), {})] == SELF_ISSUED_PATH;
  }

  lemma NoUnion(f: set<Flag>)
    ensures {} + f == f && f + {} == f
  {
  }

  // RFC 5280 accepts the path whatever the limit of the root is; the verdict is good
  // if and only if that limit is not 0, stored as 1.
  lemma SelfIssuedRefused(w: World, ee: Cert, ca: Cert, root: Cert)
    requires OneSelfIssued(w, ee, ca, root)
    ensures var peer := [ee, ca];
            && ValidRefs(w, peer, SELF_ISSUED_PATH)
            && Rfc5280PathlenOk(w, peer, SELF_ISSUED_PATH, 0) && Rfc5280PathlenOk(w, peer, SELF_ISSUED_PATH, 1)
            && Judge(w, peer, true) == if root.maxPathlen == 1 then Verdict(VerifyFailed, Some({NotTrusted})) else Verdict(Success, Some({}))
  {
    hide SameName, AllowsCertSign, TimeValid, KeyAllowed, MdAllowed, PkAllowed, Grow;
    var peer := [ee, ca];
    SelfIssuedChain(w, ee, ca, root);
    assert SelfCount(w, peer, SELF_ISSUED_PATH, 1) == 0;
    assert SelfCount(w, peer, SELF_ISSUED_PATH, 2) == 1;
    FlagsOfThree();
  }

  lemma FlagsOfThree()
    ensures AllFlags(SELF_ISSUED_PATH) == {} && AllFlags([Item(Peer(0), {}), Item(Peer(1), {NotTrusted})]) == {NotTrusted}
  {
    NoFlags(SELF_ISSUED_PATH);
    var items := [Item(Peer(0), {}), Item(Peer(1), {NotTrusted})];
    assert items[1..] == [Item(Peer(1), {NotTrusted})] && items[1..][1..] == [];
  }

  // ----- such a list exists

  // A common name of one letter.
  function Named(n: bv8): Name {
    [Attr(Buf(6, [0x55, 4, 3]), Buf(PRINTABLE_STRING, [n]), false)]
  }

  lemma OtherName()
    ensures !SameName(Named(65), Named(66)) && SameName(Named(65), Named(65))
  {
    assert !SameChar(65, 66);
    assert Named(65)[0].val.val[0] == 65 && Named(66)[0].val.val[0] == 66;
  }

  function ExampleCert(raw: bv8, issuer: bv8, subject: bv8, maxPathlen: int): Cert {
    Cert([raw], 3, Named(issuer), Named(subject), 0, 9, true, None, maxPathlen, 1, 1, 1, Rsa(2048))
  }

  function ExampleWorld(): World {
    World([ExampleCert(3, 65, 65, 1)], Profile({1}, {1}, {}, 2048), 5,
          (child: Cert, parent: Cert) => !(child.raw == [1] && parent.raw == [3]), (child: Cert, parent: Cert) => {})
  }

  // A root A whose limit is 0, a CA certificate that A issued to itself, and an
  // end-entity certificate B: refused as not trusted, although RFC 5280 accepts it.
  lemma SelfIssuedRefusedExample()
    ensures var w, peer := ExampleWorld(), [ExampleCert(1, 65, 66, 0), ExampleCert(2, 65, 65, 0)];
            && ValidRefs(w, peer, SELF_ISSUED_PATH)
            && Rfc5280PathlenOk(w, peer, SELF_ISSUED_PATH, 0) && Rfc5280PathlenOk(w, peer, SELF_ISSUED_PATH, 1)
            && Judge(w, peer, true) == Verdict(VerifyFailed, Some({NotTrusted}))
  {
    hide SelfCount, Judge;
    OtherName();
    SelfIssuedRefused(ExampleWorld(), ExampleCert(1, 65, 66, 0), ExampleCert(2, 65, 65, 0), ExampleCert(3, 65, 65, 1));
  }
}
