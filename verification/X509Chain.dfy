// Building and judging a certificate path (patches/x509_crt.c:2455-2473, 2515-2695,
// 3020-3045, 3064-3154), restartable at every signature check.
module X509Chain {
  import opened X509Names
  import opened X509Parent
  import opened Wrappers

  const MAX_INTERMEDIATE_CA := 8
  const MAX_CHAIN := MAX_INTERMEDIATE_CA + 2

  // ----- the profile (lines 173-245)

  const MD_NONE := 0
  const PK_NONE := 0
  const GROUP_NONE := 0

  predicate MdAllowed(p: Profile, md: nat) {
    md != MD_NONE && md in p.mds
  }

  predicate PkAllowed(p: Profile, pk: nat) {
    pk != PK_NONE && pk in p.pks
  }

  predicate KeyAllowed(p: Profile, k: Key) {
    match k
    case Rsa(bits) => bits >= p.rsaMinBits
    case Ec(group) => group != GROUP_NONE && group in p.curves
    case OtherKey => false
  }

  // ----- the flags of one certificate and of one link

  function TimeFlags(w: World, c: Cert): (f: set<Flag>)
    ensures f == {} <==> TimeValid(w, c)
  {
    (if c.validTo < w.now then {Expired} else {}) + (if c.validFrom > w.now then {Future} else {})
  }

  function OwnFlags(w: World, c: Cert): (f: set<Flag>)
    ensures f == {} <==> TimeValid(w, c) && MdAllowed(w.profile, c.sigMd) && PkAllowed(w.profile, c.sigPk)
  {
    var t := TimeFlags(w, c);
    var m := if MdAllowed(w.profile, c.sigMd) then {} else {BadMd};
    var p := if PkAllowed(w.profile, c.sigPk) then {} else {BadPk};
    assert BadMd in t + m + p <==> !MdAllowed(w.profile, c.sigMd);
    assert BadPk in t + m + p <==> !PkAllowed(w.profile, c.sigPk);
    assert t <= t + m + p;
    t + m + p
  }

  function LinkFlags(w: World, child: Cert, parent: Cert): (f: set<Flag>)
    ensures f == {} <==> w.good(child, parent) && KeyAllowed(w.profile, parent.key) && w.crl(child, parent) == {}
  {
    var g := if w.good(child, parent) then {} else {NotTrusted};
    var k := if KeyAllowed(w.profile, parent.key) then {} else {BadKey};
    assert NotTrusted in g <==> !w.good(child, parent);
    assert BadKey in k <==> !KeyAllowed(w.profile, parent.key);
    assert g <= g + k + w.crl(child, parent) && k <= g + k + w.crl(child, parent) && w.crl(child, parent) <= g + k + w.crl(child, parent);
    g + k + w.crl(child, parent)
  }

  predicate SelfIssued(c: Cert) {
    SameName(c.issuer, c.subject)
  }

  // x509_crt_check_ee_locally_trusted
  predicate LocallyTrusted(w: World, c: Cert) {
    SelfIssued(c) && exists j :: 0 <= j < |w.trust| && w.trust[j].raw == c.raw
  }

  method CheckLocallyTrusted(w: World, c: Cert) returns (ok: bool)
    ensures ok == LocallyTrusted(w, c)
  {
    hide SameName;
    ok := NameCmp(c.issuer, c.subject);
    if !ok {
      return;
    }
    for j := 0 to |w.trust|
      invariant forall i :: 0 <= i < j ==> w.trust[i].raw != c.raw
    {
      if |c.raw| == |w.trust[j].raw| && c.raw == w.trust[j].raw {
        return true;
      }
    }
    return false;
  }

  // ----- what the builder computes

  datatype Outcome = TooLong | Built(items: seq<Item>)

  // What the chain so far says next: stop at a trusted end-entity certificate, or
  // look for a parent of peer[i].
  function Grow(w: World, peer: seq<Cert>, chain: seq<Item>, i: nat, selfCount: nat): Outcome
    requires i < |peer|
    decreases |peer| - i, 1
  {
    var items := chain + [Item(Peer(i), OwnFlags(w, peer[i]))];
    if |items| == 1 && LocallyTrusted(w, peer[i]) then Built(items) else Extend(w, peer, items, i, selfCount)
  }

  function Extend(w: World, peer: seq<Cert>, items: seq<Item>, i: nat, selfCount: nat): Outcome
    requires i < |peer| && |items| > 0
    decreases |peer| - i, 0
  {
    var child, n := peer[i], |items| - 1;
    match Find(w, child, peer[i + 1..], n, selfCount)
    case None => Built(WithFlags(items, {NotTrusted}))
    case Some(f) =>
      var parent := CertAt(w, peer[i + 1..], f);
      if !f.trusted && |items| > MAX_INTERMEDIATE_CA then TooLong else
        var items' := WithFlags(items, LinkFlags(w, child, parent));
        if f.trusted then Built(items' + [Item(Root(f.index), TimeFlags(w, parent))])
        else Grow(w, peer, items', i + 1 + f.index, SelfAfter(child, items, selfCount))
  }

  function SelfAfter(child: Cert, items: seq<Item>, selfCount: nat): nat {
    if |items| != 1 && SelfIssued(child) then selfCount + 1 else selfCount
  }

  // *flags |= f on the last item.
  function WithFlags(items: seq<Item>, f: set<Flag>): (r: seq<Item>)
    requires |items| > 0
    ensures |r| == |items|
  {
    items[|items| - 1 := items[|items| - 1].(flags := items[|items| - 1].flags + f)]
  }

  // ----- the loop of x509_crt_verify_chain

  datatype Code = Success | Stopped | Fatal | BadInput | VerifyFailed

  ghost predicate Answers(code: Code, items: seq<Item>, o: Outcome) {
    match code
    case Success => o == Built(items)
    case Fatal => o == TooLong
    case _ => false
  }

  ghost predicate Resumable(w: World, peer: seq<Cert>, rs: RestartContext)
    reads rs
  {
    && rs.inProgress && |rs.chain| > 0
    && var last := rs.chain[|rs.chain| - 1].ref;
    && last.Peer? && last.index < |peer|
    && FindStopped(w, peer[last.index], peer[last.index + 1..], |rs.chain| - 1, rs.selfCount, rs)
    && Extend(w, peer, rs.chain, last.index, rs.selfCount) == Grow(w, peer, [], 0, 0)
    && rs.selfCount <= Counted(|rs.chain|)
  }

  // The intermediate certificates before the last of n items: no more of them than
  // that can be self-issued.
  function Counted(n: nat): nat {
    if n <= 1 then 0 else n - 2
  }

  // A context that is new, or left by an interrupted verification of the same path.
  ghost predicate ContextFor(w: World, peer: seq<Cert>, rs: RestartContext?)
    requires |peer| > 0
    reads if rs == null then {} else {rs}
  {
    rs != null ==> (rs.Idle() && !rs.inProgress) || Resumable(w, peer, rs)
  }

  // The number of self-issued certificates never exceeds the number of intermediates,
  // which FindParent requires, so that its unsigned difference does not wrap.
  method VerifyChain(w: World, peer: seq<Cert>, rs: RestartContext?, b: Budget) returns (code: Code, items: seq<Item>)
    requires |peer| > 0 && ContextFor(w, peer, rs)
    modifies b, if rs == null then {} else {rs}
    ensures code == Stopped ==> rs != null && Resumable(w, peer, rs) && b.RanOut()
    ensures code != Stopped ==> Answers(code, items, Grow(w, peer, [], 0, 0))
  {
    hide Find, FindStopped, LocallyTrusted, OwnFlags, LinkFlags, TimeFlags, SelfAfter, WithFlags, Grow, Extend, CertAt;
    hide Budget.RanOut;
    var i: nat, selfCount: nat, adding := 0, 0, true;
    items := [];
    if rs != null && rs.inProgress {
      items, selfCount, adding := rs.chain, rs.selfCount, false;
      i := items[|items| - 1].ref.index;
    }
    while true
      invariant i < |peer|
      invariant !adding ==> |items| > 0 && items[|items| - 1].ref == Peer(i)
      invariant rs != null && adding ==> rs.Idle()
      invariant rs != null && !adding ==> FindStopped(w, peer[i], peer[i + 1..], |items| - 1, selfCount, rs)
      invariant adding ==> Grow(w, peer, items, i, selfCount) == Grow(w, peer, [], 0, 0)
      invariant !adding ==> Extend(w, peer, items, i, selfCount) == Grow(w, peer, [], 0, 0)
      invariant selfCount <= Counted(if adding then |items| + 1 else |items|)
      decreases |peer| - i
    {
      var child := peer[i];
      if adding {
        GrowIs(w, peer, items, i, selfCount);
        items := items + [Item(Peer(i), OwnFlags(w, child))];
        if |items| == 1 {
          var trusted := CheckLocallyTrusted(w, child);
          if trusted {
            return Success, items;
          }
        }
      }
      adding := true;
      ExtendIs(w, peer, items, i, selfCount);
      var stopped, found, good := FindParent(w, child, peer[i + 1..], |items| - 1, selfCount, rs, b);
      if rs != null && stopped {
        rs.inProgress, rs.selfCount, rs.chain := true, selfCount, items;
        return Stopped, [];
      }
      if found == None {
        return Success, WithFlags(items, {NotTrusted});
      }
      var parent := CertAt(w, peer[i + 1..], found.value);
      selfCount := CountSelfIssued(child, items, selfCount);
      if !found.value.trusted && |items| > MAX_INTERMEDIATE_CA {
        return Fatal, [];
      }
      items := WithFlags(items, ParentFlags(w, child, parent, good));
      if found.value.trusted {
        return Success, items + [Item(Root(found.value.index), TimeFlags(w, parent))];
      }
      i := i + 1 + found.value.index;
    }
  }

  method CountSelfIssued(child: Cert, items: seq<Item>, selfCount: nat) returns (n: nat)
    ensures n == SelfAfter(child, items, selfCount)
    ensures selfCount <= n <= if |items| == 1 then selfCount else selfCount + 1
  {
    hide SameName;
    n := selfCount;
    if |items| != 1 {
      var self := NameCmp(child.issuer, child.subject);
      if self {
        n := n + 1;
      }
    }
  }

  lemma GrowIs(w: World, peer: seq<Cert>, chain: seq<Item>, i: nat, selfCount: nat)
    requires i < |peer|
    ensures var items := chain + [Item(Peer(i), OwnFlags(w, peer[i]))];
            Grow(w, peer, chain, i, selfCount) ==
            if |items| == 1 && LocallyTrusted(w, peer[i]) then Built(items) else Extend(w, peer, items, i, selfCount)
  {
    hide LocallyTrusted, OwnFlags, Extend;
  }

  lemma ExtendIs(w: World, peer: seq<Cert>, items: seq<Item>, i: nat, selfCount: nat)
    requires i < |peer| && |items| > 0
    ensures Extend(w, peer, items, i, selfCount) ==
            match Find(w, peer[i], peer[i + 1..], |items| - 1, selfCount)
            case None => Built(WithFlags(items, {NotTrusted}))
            case Some(f) =>
              var parent := CertAt(w, peer[i + 1..], f);
              if !f.trusted && |items| > MAX_INTERMEDIATE_CA then TooLong else
                var items' := WithFlags(items, LinkFlags(w, peer[i], parent));
                if f.trusted then Built(items' + [Item(Root(f.index), TimeFlags(w, parent))])
                else Grow(w, peer, items', i + 1 + f.index, SelfAfter(peer[i], items, selfCount))
  {
    hide Find, LinkFlags, TimeFlags, Grow, SelfAfter, WithFlags, CertAt;
  }

  // The flags set once the parent is known.
  function ParentFlags(w: World, child: Cert, parent: Cert, good: bool): (f: set<Flag>)
    requires good == w.good(child, parent)
    ensures f == LinkFlags(w, child, parent)
  {
    (if good then {} else {NotTrusted}) + (if KeyAllowed(w.profile, parent.key) then {} else {BadKey}) + w.crl(child, parent)
  }

  // ----- the paths that are built

  function CertOf(w: World, peer: seq<Cert>, r: Ref): Cert
    requires ValidRef(w, peer, r)
  {
    match r case Peer(i) => peer[i] case Root(j) => w.trust[j]
  }

  predicate ValidRef(w: World, peer: seq<Cert>, r: Ref) {
    match r case Peer(i) => i < |peer| case Root(j) => j < |w.trust|
  }

  predicate ValidRefs(w: World, peer: seq<Cert>, items: seq<Item>) {
    forall j :: 0 <= j < |items| ==> ValidRef(w, peer, items[j].ref)
  }

  // Self-issued certificates among items 1 .. n-1: those between the end-entity
  // certificate and item n.
  function SelfCount(w: World, peer: seq<Cert>, items: seq<Item>, n: nat): (c: nat)
    requires n <= |items| && ValidRefs(w, peer, items)
    ensures c <= if n == 0 then 0 else n - 1
  {
    if n <= 1 then 0 else
      SelfCount(w, peer, items, n - 1) + if SelfIssued(CertOf(w, peer, items[n - 1].ref)) then 1 else 0
  }

  // The answer f of a search behind position i, as a reference.
  function RefOf(i: nat, f: Found): Ref {
    if f.trusted then Root(f.index) else Peer(i + 1 + f.index)
  }

  // What the search finds as the issuer of item j.
  function IssuerOf(w: World, peer: seq<Cert>, items: seq<Item>, j: nat): Option<Found>
    requires j < |items| && ValidRefs(w, peer, items) && items[j].ref.Peer?
  {
    var i := items[j].ref.index;
    Find(w, peer[i], peer[i + 1..], j, SelfCount(w, peer, items, j))
  }

  // Item j + 1 is what the search finds as the issuer of item j.
  predicate Link(w: World, peer: seq<Cert>, items: seq<Item>, j: nat)
    requires j + 1 < |items| && ValidRefs(w, peer, items)
  {
    && items[j].ref.Peer?
    && IssuerOf(w, peer, items, j).Some?
    && items[j + 1].ref == RefOf(items[j].ref.index, IssuerOf(w, peer, items, j).value)
  }

  // So it may issue item j, and a trusted one did sign it.
  lemma LinkIsCandidate(w: World, peer: seq<Cert>, items: seq<Item>, j: nat)
    requires j + 1 < |items| && ValidRefs(w, peer, items) && Link(w, peer, items, j)
    ensures var child, parent, top := CertOf(w, peer, items[j].ref), CertOf(w, peer, items[j + 1].ref), items[j + 1].ref.Root?;
            MayIssue(child, parent, top, j, SelfCount(w, peer, items, j)) && (top ==> w.good(child, parent))
  {
    hide Candidate, Find, SelfCount, MayIssue;
    var i, n := items[j].ref.index, SelfCount(w, peer, items, j);
    FoundParent(w, peer[i], peer[i + 1..], j, n);
    CandidateMeans(peer[i], CertOf(w, peer, items[j + 1].ref), items[j + 1].ref.Root?, j, n);
  }

  // The flags of an item that has a parent in the path.
  predicate InnerFlags(w: World, peer: seq<Cert>, items: seq<Item>, j: nat)
    requires j + 1 < |items| && ValidRefs(w, peer, items)
  {
    var child := CertOf(w, peer, items[j].ref);
    items[j].flags == OwnFlags(w, child) + LinkFlags(w, child, CertOf(w, peer, items[j + 1].ref))
  }

  // A path of peer certificates in the order they were sent, starting with the
  // end-entity certificate; the parent of the last one is not known yet.
  predicate PathSoFar(w: World, peer: seq<Cert>, items: seq<Item>) {
    && 0 < |items| <= MAX_INTERMEDIATE_CA + 1 && ValidRefs(w, peer, items)
    && (forall j :: 0 <= j < |items| ==> items[j].ref.Peer?)
    && items[0].ref == Peer(0)
    && (forall j :: 0 < j < |items| ==> items[j - 1].ref.index < items[j].ref.index)
    && (forall j :: 0 <= j < |items| - 1 ==> Link(w, peer, items, j) && InnerFlags(w, peer, items, j))
    && var last := items[|items| - 1]; last.flags == OwnFlags(w, CertOf(w, peer, last.ref))
  }

  // The three ways a path can end.
  predicate EndsTrusted(w: World, peer: seq<Cert>, items: seq<Item>) {
    PathSoFar(w, peer, items) && |items| == 1 && LocallyTrusted(w, peer[0])
  }

  // No parent was found for the last certificate, neither among the trusted ones nor
  // behind it in the list.
  predicate EndsNowhere(w: World, peer: seq<Cert>, items: seq<Item>) {
    && |items| > 0 && ValidRefs(w, peer, items) && items[|items| - 1].ref.Peer?
    && var n := |items| - 1;
    var i, child := items[n].ref.index, CertOf(w, peer, items[n].ref);
    && items[n].flags == OwnFlags(w, child) + {NotTrusted}
    && PathSoFar(w, peer, items[n := Item(Peer(i), OwnFlags(w, child))])
    && IssuerOf(w, peer, items, n) == None
    && !LocallyTrusted(w, peer[0])
  }

  predicate EndsInRoot(w: World, peer: seq<Cert>, items: seq<Item>) {
    && 1 < |items| <= MAX_CHAIN && ValidRefs(w, peer, items)
    && (forall j :: 0 <= j < |items| - 1 ==> items[j].ref.Peer?)
    && items[0].ref == Peer(0)
    && (forall j :: 0 < j < |items| - 1 ==> items[j - 1].ref.index < items[j].ref.index)
    && items[|items| - 1].ref.Root?
    && (forall j :: 0 <= j < |items| - 1 ==> Link(w, peer, items, j) && InnerFlags(w, peer, items, j))
    && w.good(CertOf(w, peer, items[|items| - 2].ref), CertOf(w, peer, items[|items| - 1].ref))
    && items[|items| - 1].flags == TimeFlags(w, CertOf(w, peer, items[|items| - 1].ref))
    && !LocallyTrusted(w, peer[0])
  }

  // A path of nine certificates whose issuer would be a tenth that is not trusted.
  predicate OverLong(w: World, peer: seq<Cert>, items: seq<Item>) {
    && PathSoFar(w, peer, items) && |items| == 9 && !LocallyTrusted(w, peer[0])
    && IssuerOf(w, peer, items, 8).Some? && !IssuerOf(w, peer, items, 8).value.trusted
  }

  predicate IsPath(w: World, peer: seq<Cert>, items: seq<Item>) {
    EndsTrusted(w, peer, items) || EndsNowhere(w, peer, items) || EndsInRoot(w, peer, items)
  }

  // Appending an item changes nothing before it.
  lemma {:induction false} SelfCountPrefix(w: World, peer: seq<Cert>, items: seq<Item>, items': seq<Item>, n: nat)
    requires n <= |items| <= |items'| && ValidRefs(w, peer, items) && ValidRefs(w, peer, items')
    requires forall j :: 0 <= j < |items| ==> items'[j].ref == items[j].ref
    ensures SelfCount(w, peer, items', n) == SelfCount(w, peer, items, n)
  {
    hide SelfIssued;
    if n > 1 {
      SelfCountPrefix(w, peer, items, items', n - 1);
    }
  }

  // What a found parent satisfies.
  lemma FoundParent(w: World, child: Cert, next: seq<Cert>, path: nat, selfCount: nat)
    requires Find(w, child, next, path, selfCount).Some?
    ensures var f := Find(w, child, next, path, selfCount).value;
            Suitable(w, child, CertAt(w, next, f), f.trusted, path, selfCount)
  {
    hide Suitable, TimeValid;
    SearchIsBest(w, TrustQuery(w, child, path, selfCount));
    SearchIsBest(w, PeerQuery(child, next, path, selfCount));
  }

  // items' is items with one more certificate, peer or root, at the end.
  predicate Extends(w: World, peer: seq<Cert>, items: seq<Item>, items': seq<Item>, last: Item) {
    && PathSoFar(w, peer, items) && ValidRef(w, peer, last.ref)
    && var n := |items| - 1;
    var child, parent := CertOf(w, peer, items[n].ref), CertOf(w, peer, last.ref);
    && IssuerOf(w, peer, items, n).Some? && last.ref == RefOf(items[n].ref.index, IssuerOf(w, peer, items, n).value)
    && items' == WithFlags(items, LinkFlags(w, child, parent)) + [last]
  }

  lemma ExtendsRefs(w: World, peer: seq<Cert>, items: seq<Item>, items': seq<Item>, last: Item)
    requires Extends(w, peer, items, items', last)
    ensures |items'| == |items| + 1 && ValidRefs(w, peer, items) && ValidRefs(w, peer, items')
    ensures forall k :: 0 <= k < |items| ==> items'[k].ref == items[k].ref
    ensures forall k :: 0 <= k < |items| - 1 ==> items'[k] == items[k]
  {
    hide Find, OwnFlags, LinkFlags, Link, InnerFlags, SelfCount;
  }

  lemma PathExtends(w: World, peer: seq<Cert>, items: seq<Item>, items': seq<Item>, last: Item)
    requires Extends(w, peer, items, items', last)
    ensures ValidRefs(w, peer, items') && forall j :: 0 <= j < |items| ==> Link(w, peer, items', j) && InnerFlags(w, peer, items', j)
  {
    hide Find, OwnFlags, LinkFlags, SelfIssued, Link, InnerFlags, SelfCount;
    ExtendsRefs(w, peer, items, items', last);
    forall j | 0 <= j < |items|
      ensures Link(w, peer, items', j) && InnerFlags(w, peer, items', j)
    {
      if j < |items| - 1 {
        LinkStays(w, peer, items, items', j);
      } else {
        LinkAdded(w, peer, items, items', last);
      }
    }
  }

  lemma PathCounts(w: World, peer: seq<Cert>, items: seq<Item>, items': seq<Item>, last: Item)
    requires Extends(w, peer, items, items', last)
    ensures ValidRefs(w, peer, items')
    ensures SelfCount(w, peer, items', |items|) == SelfAfter(CertOf(w, peer, items[|items| - 1].ref), items, SelfCount(w, peer, items, |items| - 1))
  {
    hide Find, OwnFlags, LinkFlags, SelfIssued, Link, InnerFlags, SelfCount;
    ExtendsRefs(w, peer, items, items', last);
    SelfCountPrefix(w, peer, items, items', |items| - 1);
    SelfCountNext(w, peer, items', |items| - 1);
  }

  lemma SelfCountNext(w: World, peer: seq<Cert>, items: seq<Item>, n: nat)
    requires n < |items| && ValidRefs(w, peer, items)
    ensures SelfCount(w, peer, items, n + 1) ==
            if n > 0 && SelfIssued(CertOf(w, peer, items[n].ref)) then SelfCount(w, peer, items, n) + 1 else SelfCount(w, peer, items, n)
  {
    hide SelfIssued;
  }

  lemma LinkStays(w: World, peer: seq<Cert>, items: seq<Item>, items': seq<Item>, j: nat)
    requires |items'| == |items| + 1 && ValidRefs(w, peer, items) && ValidRefs(w, peer, items') && j < |items| - 1
    requires forall k :: 0 <= k < |items| ==> items'[k].ref == items[k].ref
    requires items'[j] == items[j] && Link(w, peer, items, j) && InnerFlags(w, peer, items, j)
    ensures Link(w, peer, items', j) && InnerFlags(w, peer, items', j)
  {
    hide Find, OwnFlags, LinkFlags, SelfCount;
    SelfCountPrefix(w, peer, items, items', j);
  }

  lemma LinkAdded(w: World, peer: seq<Cert>, items: seq<Item>, items': seq<Item>, last: Item)
    requires Extends(w, peer, items, items', last)
    ensures ValidRefs(w, peer, items') && Link(w, peer, items', |items| - 1) && InnerFlags(w, peer, items', |items| - 1)
  {
    hide Find, OwnFlags, LinkFlags, SelfCount;
    ExtendsRefs(w, peer, items, items', last);
    SelfCountPrefix(w, peer, items, items', |items| - 1);
  }

  lemma {:induction false} ExtendBuilds(w: World, peer: seq<Cert>, items: seq<Item>, i: nat, selfCount: nat)
    requires i < |peer| && PathSoFar(w, peer, items) && items[|items| - 1].ref == Peer(i)
    requires selfCount == SelfCount(w, peer, items, |items| - 1)
    requires !LocallyTrusted(w, peer[0])
    ensures var o := Extend(w, peer, items, i, selfCount);
            if o.Built? then IsPath(w, peer, o.items) else exists path :: OverLong(w, peer, path)
    decreases |peer| - i
  {
    hide MayIssue, OwnFlags, LinkFlags, SelfIssued, TimeFlags, Find, Extend, Grow, LocallyTrusted, SelfAfter;
    hide Link, InnerFlags, IsPath, OverLong, SelfCount;
    var child, n := peer[i], |items| - 1;
    ExtendIs(w, peer, items, i, selfCount);
    var found := Find(w, child, peer[i + 1..], n, selfCount);
    if found.None? {
      NowhereEnds(w, peer, items, i);
      EndIsPath(w, peer, WithFlags(items, {NotTrusted}));
    } else {
      var f := found.value;
      FoundParent(w, child, peer[i + 1..], n, selfCount);
      var parent := CertAt(w, peer[i + 1..], f);
      var items' := WithFlags(items, LinkFlags(w, child, parent));
      if f.trusted {
        var last := Item(Root(f.index), TimeFlags(w, parent));
        PathExtends(w, peer, items, items' + [last], last);
        RootEnds(w, peer, items, items' + [last]);
        EndIsPath(w, peer, items' + [last]);
      } else if |items| <= MAX_INTERMEDIATE_CA {
        var k := i + 1 + f.index;
        var last := Item(Peer(k), OwnFlags(w, parent));
        PathExtends(w, peer, items, items' + [last], last);
        PathCounts(w, peer, items, items' + [last], last);
        PathGoesOn(w, peer, items, items' + [last]);
        GrowIs(w, peer, items', k, SelfAfter(child, items, selfCount));
        ExtendBuilds(w, peer, items' + [last], k, SelfAfter(child, items, selfCount));
      } else {
        NineIsOverLong(w, peer, items);
      }
    }
  }

  lemma EndIsPath(w: World, peer: seq<Cert>, items: seq<Item>)
    requires EndsNowhere(w, peer, items) || EndsInRoot(w, peer, items)
    ensures IsPath(w, peer, items)
  {
  }

  lemma NineIsOverLong(w: World, peer: seq<Cert>, items: seq<Item>)
    requires PathSoFar(w, peer, items) && |items| > MAX_INTERMEDIATE_CA && !LocallyTrusted(w, peer[0])
    requires IssuerOf(w, peer, items, |items| - 1).Some? && !IssuerOf(w, peer, items, |items| - 1).value.trusted
    ensures OverLong(w, peer, items)
  {
    hide Find, SelfCount, Link, InnerFlags, LocallyTrusted, OwnFlags, IssuerOf;
  }

  lemma NowhereEnds(w: World, peer: seq<Cert>, items: seq<Item>, i: nat)
    requires PathSoFar(w, peer, items) && items[|items| - 1].ref == Peer(i)
    requires Find(w, peer[i], peer[i + 1..], |items| - 1, SelfCount(w, peer, items, |items| - 1)) == None
    requires !LocallyTrusted(w, peer[0])
    ensures EndsNowhere(w, peer, WithFlags(items, {NotTrusted}))
  {
    hide OwnFlags, SelfIssued, Find, LocallyTrusted, Link, InnerFlags, SelfCount;
    var n, items' := |items| - 1, WithFlags(items, {NotTrusted});
    SelfCountPrefix(w, peer, items, items', n);
    assert items'[n := Item(Peer(i), OwnFlags(w, peer[i]))] == items;
  }

  lemma RootEnds(w: World, peer: seq<Cert>, items: seq<Item>, items': seq<Item>)
    requires PathSoFar(w, peer, items) && |items'| == |items| + 1 && ValidRefs(w, peer, items')
    requires forall j :: 0 <= j < |items| ==> items'[j].ref == items[j].ref
    requires forall j :: 0 <= j < |items| ==> Link(w, peer, items', j) && InnerFlags(w, peer, items', j)
    requires items'[|items|].ref.Root? && items'[|items|].flags == TimeFlags(w, CertOf(w, peer, items'[|items|].ref))
    requires w.good(CertOf(w, peer, items'[|items| - 1].ref), CertOf(w, peer, items'[|items|].ref))
    requires !LocallyTrusted(w, peer[0])
    ensures EndsInRoot(w, peer, items')
  {
    hide Link, InnerFlags, OwnFlags, TimeFlags, LocallyTrusted;
  }

  lemma PathGoesOn(w: World, peer: seq<Cert>, items: seq<Item>, items': seq<Item>)
    requires PathSoFar(w, peer, items) && |items'| == |items| + 1 <= MAX_INTERMEDIATE_CA + 1 && ValidRefs(w, peer, items')
    requires forall j :: 0 <= j < |items| ==> items'[j].ref == items[j].ref
    requires forall j :: 0 <= j < |items| ==> Link(w, peer, items', j) && InnerFlags(w, peer, items', j)
    requires var last := items'[|items|];
             && last.ref.Peer? && last.ref.index > items[|items| - 1].ref.index
             && last.flags == OwnFlags(w, CertOf(w, peer, last.ref))
    ensures PathSoFar(w, peer, items')
  {
    hide Link, InnerFlags, OwnFlags;
  }

  // Whatever is built is a path, never longer than the array that holds it, and
  // nothing is built only when there is a path that is too long.
  lemma BuildsPath(w: World, peer: seq<Cert>)
    requires |peer| > 0
    ensures var o := Grow(w, peer, [], 0, 0);
            if o.Built? then IsPath(w, peer, o.items) && |o.items| <= MAX_CHAIN else exists path :: OverLong(w, peer, path)
  {
    hide Grow, Extend, OwnFlags, LocallyTrusted;
    GrowIs(w, peer, [], 0, 0);
    var items := [Item(Peer(0), OwnFlags(w, peer[0]))];
    assert [] + items == items;
    assert PathSoFar(w, peer, items);
    if !LocallyTrusted(w, peer[0]) {
      ExtendBuilds(w, peer, items, 0, 0);
    }
  }

  // ----- there is only one such path

  predicate Linked(w: World, peer: seq<Cert>, items: seq<Item>) {
    && |items| > 0 && ValidRefs(w, peer, items) && items[0].ref == Peer(0)
    && forall j :: 0 <= j < |items| - 1 ==> Link(w, peer, items, j) && InnerFlags(w, peer, items, j)
  }

  lemma {:induction false} SameRefs(w: World, peer: seq<Cert>, a: seq<Item>, b: seq<Item>, n: nat)
    requires Linked(w, peer, a) && Linked(w, peer, b) && 0 < n <= |a| && n <= |b|
    ensures forall j :: 0 <= j < n ==> a[j].ref == b[j].ref
  {
    hide InnerFlags, Find, SelfCount;
    if n > 1 {
      SameRefs(w, peer, a, b, n - 1);
      assert a[n - 2].ref == b[n - 2].ref;
      SelfCountPrefix(w, peer, a[..n - 1], a, n - 2);
      SelfCountPrefix(w, peer, a[..n - 1], b, n - 2);
      assert Link(w, peer, a, n - 2) && Link(w, peer, b, n - 2);
    }
  }

  lemma SameIssuer(w: World, peer: seq<Cert>, a: seq<Item>, b: seq<Item>, j: nat)
    requires ValidRefs(w, peer, a) && ValidRefs(w, peer, b) && j < |a| && j < |b| && a[j].ref.Peer?
    requires forall i :: 0 <= i <= j ==> a[i].ref == b[i].ref
    ensures IssuerOf(w, peer, a, j) == IssuerOf(w, peer, b, j)
  {
    hide Find, SelfCount;
    SelfCountPrefix(w, peer, a[..j + 1], a, j);
    SelfCountPrefix(w, peer, a[..j + 1], b, j);
  }

  lemma PathIsLinked(w: World, peer: seq<Cert>, a: seq<Item>)
    requires IsPath(w, peer, a) || OverLong(w, peer, a)
    ensures Linked(w, peer, a)
  {
    hide Find, SelfCount, Link, LocallyTrusted, OwnFlags, TimeFlags, IssuerOf;
    if EndsNowhere(w, peer, a) {
      var n := |a| - 1;
      var a' := a[n := Item(Peer(a[n].ref.index), OwnFlags(w, CertOf(w, peer, a[n].ref)))];
      forall j | 0 <= j < n
        ensures Link(w, peer, a, j) && InnerFlags(w, peer, a, j)
      {
        assert Link(w, peer, a', j) && InnerFlags(w, peer, a', j);
        LinkByRefs(w, peer, a', a, j);
      }
    }
  }

  lemma LinkByRefs(w: World, peer: seq<Cert>, a: seq<Item>, b: seq<Item>, j: nat)
    requires |a| == |b| && ValidRefs(w, peer, a) && ValidRefs(w, peer, b) && j + 1 < |a|
    requires forall i :: 0 <= i < |a| ==> a[i].ref == b[i].ref
    requires Link(w, peer, a, j)
    ensures Link(w, peer, b, j)
  {
    hide Find, SelfCount, IssuerOf;
    SameIssuer(w, peer, a, b, j);
  }

  // A path does not end before another one goes on.
  lemma NotShorter(w: World, peer: seq<Cert>, a: seq<Item>, b: seq<Item>)
    requires IsPath(w, peer, a) && (IsPath(w, peer, b) || OverLong(w, peer, b))
    ensures |a| >= |b|
  {
    hide InnerFlags, Find, SelfCount, LocallyTrusted, OwnFlags, TimeFlags, IssuerOf;
    PathIsLinked(w, peer, a);
    PathIsLinked(w, peer, b);
    if |a| < |b| {
      SameRefs(w, peer, a, b, |a|);
      var n := |a| - 1;
      assert Link(w, peer, b, n);
      SameIssuer(w, peer, b, a, n);
    }
  }

  lemma SamePath(w: World, peer: seq<Cert>, a: seq<Item>, b: seq<Item>)
    requires IsPath(w, peer, a) && IsPath(w, peer, b)
    ensures a == b
  {
    hide Link, Find, SelfCount, LocallyTrusted, OwnFlags, TimeFlags, IssuerOf;
    NotShorter(w, peer, a, b);
    NotShorter(w, peer, b, a);
    PathIsLinked(w, peer, a);
    PathIsLinked(w, peer, b);
    SameRefs(w, peer, a, b, |a|);
    forall j | 0 <= j < |a|
      ensures a[j] == b[j]
    {
      if j < |a| - 1 {
        assert InnerFlags(w, peer, a, j) && InnerFlags(w, peer, b, j);
      }
    }
  }

  // A path that reaches a ninth peer certificate ends there or in its trusted issuer.
  lemma AtNinth(w: World, peer: seq<Cert>, a: seq<Item>)
    requires IsPath(w, peer, a) && |a| >= 9 && ValidRefs(w, peer, a) && a[8].ref.Peer?
    ensures IssuerOf(w, peer, a, 8).Some? ==> IssuerOf(w, peer, a, 8).value.trusted
  {
    hide InnerFlags, Find, SelfCount, LocallyTrusted, OwnFlags, TimeFlags, IssuerOf;
    PathIsLinked(w, peer, a);
    if |a| > 9 {
      assert Link(w, peer, a, 8);
    }
  }

  lemma NotBoth(w: World, peer: seq<Cert>, a: seq<Item>, b: seq<Item>)
    requires IsPath(w, peer, a)
    ensures !OverLong(w, peer, b)
  {
    if OverLong(w, peer, b) {
      hide InnerFlags, Find, SelfCount, LocallyTrusted, OwnFlags, TimeFlags, IssuerOf;
      NotShorter(w, peer, a, b);
      PathIsLinked(w, peer, a);
      PathIsLinked(w, peer, b);
      SameRefs(w, peer, a, b, 9);
      SameIssuer(w, peer, b, a, 8);
      AtNinth(w, peer, a);
      assert false;
    }
  }

  // The builder answers with the path there is, and with an error exactly when that
  // path is too long.
  lemma BuildsExactly(w: World, peer: seq<Cert>, items: seq<Item>)
    requires |peer| > 0
    ensures Grow(w, peer, [], 0, 0) == Built(items) <==> IsPath(w, peer, items)
    ensures Grow(w, peer, [], 0, 0) == TooLong <==> exists path :: OverLong(w, peer, path)
  {
    hide IsPath, OverLong, Grow;
    BuildsPath(w, peer);
    var o := Grow(w, peer, [], 0, 0);
    if o.Built? {
      if IsPath(w, peer, items) {
        SamePath(w, peer, o.items, items);
      }
      forall path
        ensures !OverLong(w, peer, path)
      {
        NotBoth(w, peer, o.items, path);
      }
    } else if IsPath(w, peer, items) {
      var path :| OverLong(w, peer, path);
      NotBoth(w, peer, items, path);
    }
  }
}
