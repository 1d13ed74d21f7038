// Looking for the issuer of a certificate, with any number of interruptions
// (patches/x509_crt.c:2189-2218, 2263-2362, 2386-2444).
module X509Parent {
  import opened X509Names
  import opened Wrappers

  datatype Usage = KeyCertSign | CrlSign | EncipherOnly | DecipherOnly | OtherUsage

  datatype Key = Rsa(bits: nat) | Ec(group: nat) | OtherKey

  datatype Cert = Cert(
    raw: seq<bv8>, version: int, issuer: Name, subject: Name, validFrom: int, validTo: int,
    caIsTrue: bool, keyUsage: Option<set<Usage>>, maxPathlen: int, sigMd: nat, sigPk: nat, pk: nat, key: Key)

  datatype Flag = Expired | Future | NotTrusted | BadMd | BadPk | BadKey | CnMismatch | CrlProblem

  datatype Profile = Profile(mds: set<nat>, pks: set<nat>, curves: set<nat>, rsaMinBits: nat)

  // What does not change during a verification: the trusted list, the profile, the
  // clock, and what signature and CRL checking say about a pair of certificates.
  datatype World = World(
    trust: seq<Cert>, profile: Profile, now: int,
    good: (Cert, Cert) -> bool, crl: (Cert, Cert) -> set<Flag>)

  // mbedtls_x509_crt_check_key_usage for KEY_CERT_SIGN: bits that are not asked for
  // are allowed except the two that restrict key agreement.
  predicate AllowsCertSign(c: Cert) {
    c.keyUsage.Some? ==>
      KeyCertSign in c.keyUsage.value && EncipherOnly !in c.keyUsage.value && DecipherOnly !in c.keyUsage.value
  }

  predicate NeedsCaBit(parent: Cert, top: bool) {
    !(top && parent.version < 3)
  }

  // x509_crt_check_parent returns 0.
  predicate CanSign(child: Cert, parent: Cert, top: bool) {
    && SameName(child.issuer, parent.subject)
    && (NeedsCaBit(parent, top) ==> parent.caIsTrue && AllowsCertSign(parent))
  }

  method CheckParent(child: Cert, parent: Cert, top: bool) returns (ok: bool)
    ensures ok == CanSign(child, parent, top)
  {
    hide SameName;
    ok := NameCmp(child.issuer, parent.subject);
    if !ok {
      return;
    }
    var needCaBit := true;
    if top && parent.version < 3 {
      needCaBit := false;
    }
    if needCaBit && !parent.caIsTrue {
      return false;
    }
    if needCaBit && !AllowsCertSign(parent) {
      return false;
    }
  }

  // max_pathlen is stored one higher than the value in the certificate; 0 is "none".
  predicate PathlenOk(parent: Cert, path: nat, selfCount: nat) {
    parent.maxPathlen > 0 ==> parent.maxPathlen >= 1 + path - selfCount
  }

  predicate Candidate(child: Cert, parent: Cert, top: bool, path: nat, selfCount: nat) {
    CanSign(child, parent, top) && PathlenOk(parent, path, selfCount)
  }

  // Matching names; CA bit and key usage, which are not asked of a trusted v1 or v2
  // certificate; and room in the path length.
  predicate MayIssue(child: Cert, parent: Cert, top: bool, path: nat, selfCount: nat) {
    && SameName(child.issuer, parent.subject)
    && ((top && parent.version < 3) ||
        (parent.caIsTrue &&
         (parent.keyUsage == None ||
          (KeyCertSign in parent.keyUsage.value && !(EncipherOnly in parent.keyUsage.value || DecipherOnly in parent.keyUsage.value)))))
    && (parent.maxPathlen <= 0 || path - selfCount <= parent.maxPathlen - 1)
  }

  lemma CandidateMeans(child: Cert, parent: Cert, top: bool, path: nat, selfCount: nat)
    ensures Candidate(child, parent, top, path, selfCount) == MayIssue(child, parent, top, path, selfCount)
  {
    hide SameName;
  }

  predicate Suitable(w: World, child: Cert, parent: Cert, top: bool, path: nat, selfCount: nat) {
    Candidate(child, parent, top, path, selfCount) && (top ==> w.good(child, parent))
  }

  predicate TimeValid(w: World, c: Cert) {
    c.validFrom <= w.now <= c.validTo
  }

  // The question being asked; list is what is searched.
  datatype Query = Query(child: Cert, list: seq<Cert>, top: bool, path: nat, selfCount: nat)

  predicate SuitableAt(w: World, q: Query, k: nat)
    requires k < |q.list|
  {
    Suitable(w, q.child, q.list[k], q.top, q.path, q.selfCount)
  }

  // The search from candidate k on, when fallback is the best so far.
  function Search(w: World, q: Query, k: nat, fallback: Option<nat>): (r: Option<nat>)
    requires k <= |q.list| && (fallback.Some? ==> fallback.value < |q.list|)
    ensures r.Some? ==> r.value < |q.list|
    decreases |q.list| - k
  {
    if k == |q.list| then fallback
    else if !SuitableAt(w, q, k) then Search(w, q, k + 1, fallback)
    else if TimeValid(w, q.list[k]) then Some(k)
    else Search(w, q, k + 1, if fallback.None? then Some(k) else fallback)
  }

  predicate BestAt(w: World, q: Query, k: nat)
    requires k < |q.list|
  {
    SuitableAt(w, q, k) && TimeValid(w, q.list[k])
  }

  // What find_parent_in promises: the first suitable candidate that is time-valid,
  // else the first suitable one, else none.
  ghost predicate IsBest(w: World, q: Query, r: Option<nat>) {
    if exists k :: 0 <= k < |q.list| && BestAt(w, q, k) then
      r.Some? && r.value < |q.list| && BestAt(w, q, r.value) && forall j :: 0 <= j < r.value ==> !BestAt(w, q, j)
    else if exists k :: 0 <= k < |q.list| && SuitableAt(w, q, k) then
      r.Some? && r.value < |q.list| && SuitableAt(w, q, r.value) && forall j :: 0 <= j < r.value ==> !SuitableAt(w, q, j)
    else
      r == None
  }

  // What is known of the candidates before k.
  ghost predicate Passed(w: World, q: Query, k: nat, fallback: Option<nat>) {
    && k <= |q.list|
    && (forall j :: 0 <= j < k ==> !BestAt(w, q, j))
    && (match fallback
        case None => forall j :: 0 <= j < k ==> !SuitableAt(w, q, j)
        case Some(f) => f < k && SuitableAt(w, q, f) && forall j :: 0 <= j < f ==> !SuitableAt(w, q, j))
  }

  lemma {:induction false} SearchFrom(w: World, q: Query, k: nat, fallback: Option<nat>)
    requires Passed(w, q, k, fallback)
    ensures IsBest(w, q, Search(w, q, k, fallback))
    decreases |q.list| - k
  {
    hide Suitable, TimeValid;
    if k == |q.list| {
    } else if !SuitableAt(w, q, k) {
      SearchFrom(w, q, k + 1, fallback);
    } else if TimeValid(w, q.list[k]) {
      assert BestAt(w, q, k);
    } else {
      SearchFrom(w, q, k + 1, if fallback.None? then Some(k) else fallback);
    }
  }

  lemma SearchIsBest(w: World, q: Query)
    ensures IsBest(w, q, Search(w, q, 0, None))
  {
    SearchFrom(w, q, 0, None);
  }

  // ----- interruptions

  // When a signature check runs out of its budget: an arbitrary schedule.
  class Budget {
    const exhausted: nat -> bool
    var steps: nat

    constructor (exhausted: nat -> bool)
      ensures this.exhausted == exhausted && steps == 0
    {
      this.exhausted := exhausted;
      steps := 0;
    }

    // The last check did.
    ghost predicate RanOut()
      reads this
    {
      steps > 0 && exhausted(steps - 1)
    }
  }

  datatype Signature = InProgress | Checked(good: bool)

  method CheckSignature(w: World, child: Cert, parent: Cert, rs: RestartContext?, b: Budget) returns (r: Signature)
    modifies b
    ensures r == InProgress ==> rs != null && b.RanOut()
    ensures r.Checked? ==> r.good == w.good(child, parent)
  {
    var interrupted := rs != null && b.exhausted(b.steps);
    b.steps := b.steps + 1;
    r := if interrupted then InProgress else Checked(w.good(child, parent));
  }

  datatype Ref = Peer(index: nat) | Root(index: nat)
  datatype Item = Item(ref: Ref, flags: set<Flag>)

  // mbedtls_x509_crt_restart_ctx; parentIsTrusted is None for -1.
  class RestartContext {
    var parent: Option<nat>
    var fallback: Option<nat>
    var fallbackGood: bool
    var parentIsTrusted: Option<bool>
    var inProgress: bool
    var selfCount: nat
    var chain: seq<Item>

    ghost predicate SearchIdle()
      reads this
    {
      parent == None && fallback == None && !fallbackGood
    }

    ghost predicate Idle()
      reads this
    {
      SearchIdle() && parentIsTrusted == None
    }

    constructor ()
      ensures Idle() && !inProgress
    {
      parent, fallback, fallbackGood, parentIsTrusted := None, None, false, None;
      inProgress, selfCount, chain := false, 0, [];
    }

    // mbedtls_x509_crt_restart_free
    method Free()
      modifies this
      ensures Idle() && !inProgress
    {
      parent, fallback, fallbackGood, parentIsTrusted := None, None, false, None;
      inProgress, selfCount, chain := false, 0, [];
    }
  }

  // A search stopped at candidate k: resuming there completes the same search.
  ghost predicate StoppedAt(w: World, q: Query, k: nat, fallback: Option<nat>, fallbackGood: bool) {
    && k < |q.list|
    && (fallback.Some? ==> fallback.value < |q.list| && fallbackGood == w.good(q.child, q.list[fallback.value]))
    && (fallback.None? ==> !fallbackGood)
    && Candidate(q.child, q.list[k], q.top, q.path, q.selfCount)
    && Search(w, q, k, fallback) == Search(w, q, 0, None)
  }

  ghost predicate InSearch(w: World, q: Query, rs: RestartContext)
    reads rs`parent, rs`fallback, rs`fallbackGood
  {
    rs.parent.Some? && StoppedAt(w, q, rs.parent.value, rs.fallback, rs.fallbackGood)
  }

  // Name, CA bit, key usage and path length.  The counters are unsigned in C, so the
  // difference has to stay natural.
  method BasicChecks(q: Query, p: Cert) returns (ok: bool)
    requires q.selfCount <= q.path
    ensures ok == Candidate(q.child, p, q.top, q.path, q.selfCount)
  {
    hide CanSign;
    ok := CheckParent(q.child, p, q.top);
    if ok && p.maxPathlen > 0 {
      var needed: nat := 1 + q.path - q.selfCount;
      if p.maxPathlen < needed {
        ok := false;
      }
    }
  }

  // The part of the context that belongs to the chain is left alone.
  twostate predicate SameChain(rs: RestartContext)
    reads rs
  {
    rs.inProgress == old(rs.inProgress) && rs.selfCount == old(rs.selfCount) && rs.chain == old(rs.chain)
  }

  // x509_crt_find_parent_in
  method FindParentIn(w: World, q: Query, rs: RestartContext?, b: Budget) returns (stopped: bool, parent: Option<nat>, good: bool)
    requires q.selfCount <= q.path
    requires rs != null ==> rs.SearchIdle() || InSearch(w, q, rs)
    modifies b, if rs == null then {} else {rs}
    ensures stopped ==> rs != null && InSearch(w, q, rs) && b.RanOut()
    ensures !stopped ==> parent == Search(w, q, 0, None)
    ensures !stopped && parent.Some? ==> good == w.good(q.child, q.list[parent.value])
    ensures !stopped && rs != null ==> rs.SearchIdle()
    ensures rs != null ==> rs.parentIsTrusted == old(rs.parentIsTrusted) && SameChain(rs)
  {
    hide Candidate, CanSign, PathlenOk, TimeValid, SuitableAt, Search, Budget.RanOut;
    var k, fallback, fallbackGood, resuming := 0, None, false, false;
    if rs != null && rs.parent != None {
      k, fallback, fallbackGood, resuming := rs.parent.value, rs.fallback, rs.fallbackGood, true;
      rs.parent, rs.fallback, rs.fallbackGood := None, None, false;
    }
    while k < |q.list|
      invariant k <= |q.list|
      invariant fallback.Some? ==> fallback.value < |q.list| && fallbackGood == w.good(q.child, q.list[fallback.value])
      invariant fallback.None? ==> !fallbackGood
      invariant Search(w, q, k, fallback) == Search(w, q, 0, None)
      invariant resuming ==> k < |q.list| && Candidate(q.child, q.list[k], q.top, q.path, q.selfCount)
      invariant rs != null ==> rs.SearchIdle()
      invariant rs != null ==> rs.parentIsTrusted == old(rs.parentIsTrusted) && SameChain(rs)
    {
      var p := q.list[k];
      NextSearch(w, q, k, fallback);
      if !resuming {
        var ok := BasicChecks(q, p);
        if !ok {
          NotSuitable(w, q, k);
          k := k + 1;
          continue;
        }
      }
      resuming := false;
      var sig := CheckSignature(w, q.child, p, rs, b);
      if rs != null && sig == InProgress {
        rs.parent, rs.fallback, rs.fallbackGood := Some(k), fallback, fallbackGood;
        return true, None, false;
      }
      good := sig.good;
      IsSuitable(w, q, k);
      if q.top && !good {
        k := k + 1;
        continue;
      }
      if p.validTo < w.now || p.validFrom > w.now {
        NotValid(w, p);
        if fallback == None {
          fallback, fallbackGood := Some(k), good;
        }
        k := k + 1;
        continue;
      }
      IsValid(w, p);
      return false, Some(k), good;
    }
    SearchDone(w, q, fallback);
    return false, fallback, fallbackGood;
  }

  lemma NextSearch(w: World, q: Query, k: nat, fallback: Option<nat>)
    requires k < |q.list| && (fallback.Some? ==> fallback.value < |q.list|)
    ensures Search(w, q, k, fallback) ==
            if !SuitableAt(w, q, k) then Search(w, q, k + 1, fallback)
            else if TimeValid(w, q.list[k]) then Some(k)
            else Search(w, q, k + 1, if fallback.None? then Some(k) else fallback)
  {
    hide SuitableAt, TimeValid;
  }

  lemma SearchDone(w: World, q: Query, fallback: Option<nat>)
    requires fallback.Some? ==> fallback.value < |q.list|
    ensures Search(w, q, |q.list|, fallback) == fallback
  {
  }

  lemma NotSuitable(w: World, q: Query, k: nat)
    requires k < |q.list| && !Candidate(q.child, q.list[k], q.top, q.path, q.selfCount)
    ensures !SuitableAt(w, q, k)
  {
  }

  lemma IsSuitable(w: World, q: Query, k: nat)
    requires k < |q.list| && Candidate(q.child, q.list[k], q.top, q.path, q.selfCount)
    ensures SuitableAt(w, q, k) == (q.top ==> w.good(q.child, q.list[k]))
  {
  }

  lemma NotValid(w: World, c: Cert)
    requires c.validTo < w.now || c.validFrom > w.now
    ensures !TimeValid(w, c)
  {
  }

  lemma IsValid(w: World, c: Cert)
    requires !(c.validTo < w.now || c.validFrom > w.now)
    ensures TimeValid(w, c)
  {
  }

  // ----- trusted certificates first

  datatype Found = Found(trusted: bool, index: nat)

  function TrustQuery(w: World, child: Cert, path: nat, selfCount: nat): Query {
    Query(child, w.trust, true, path, selfCount)
  }

  function PeerQuery(child: Cert, next: seq<Cert>, path: nat, selfCount: nat): Query {
    Query(child, next, false, path, selfCount)
  }

  function FindQuery(w: World, child: Cert, next: seq<Cert>, path: nat, selfCount: nat, trusted: bool): Query {
    if trusted then TrustQuery(w, child, path, selfCount) else PeerQuery(child, next, path, selfCount)
  }

  function Find(w: World, child: Cert, next: seq<Cert>, path: nat, selfCount: nat): (r: Option<Found>)
    ensures r.Some? ==> r.value.index < if r.value.trusted then |w.trust| else |next|
  {
    var t := Search(w, TrustQuery(w, child, path, selfCount), 0, None);
    if t.Some? then Some(Found(true, t.value)) else
      var p := Search(w, PeerQuery(child, next, path, selfCount), 0, None);
      if p.Some? then Some(Found(false, p.value)) else None
  }

  // Written out: a trusted certificate that may issue the child and did sign it comes
  // first, and one in date before one that is not; only without any of them a
  // certificate behind the child that may issue it, again one in date first; none
  // only if there is neither.
  lemma FindMeans(w: World, child: Cert, next: seq<Cert>, path: nat, selfCount: nat)
    ensures var r := Find(w, child, next, path, selfCount);
            var issues := (p: Cert) => MayIssue(child, p, true, path, selfCount) && w.good(child, p);
            var mayIssue := (p: Cert) => MayIssue(child, p, false, path, selfCount);
            var inDate := (p: Cert) => p.validFrom <= w.now && w.now <= p.validTo;
            match r
            case Some(Found(true, k)) =>
              && issues(w.trust[k])
              && (forall j :: 0 <= j < k && issues(w.trust[j]) ==> inDate(w.trust[k]) && !inDate(w.trust[j]))
              && (!inDate(w.trust[k]) ==> forall j :: 0 <= j < |w.trust| && issues(w.trust[j]) ==> !inDate(w.trust[j]))
            case Some(Found(false, k)) =>
              && (forall j :: 0 <= j < |w.trust| ==> !issues(w.trust[j]))
              && mayIssue(next[k])
              && (forall j :: 0 <= j < k && mayIssue(next[j]) ==> inDate(next[k]) && !inDate(next[j]))
              && (!inDate(next[k]) ==> forall j :: 0 <= j < |next| && mayIssue(next[j]) ==> !inDate(next[j]))
            case None =>
              && (forall j :: 0 <= j < |w.trust| ==> !issues(w.trust[j]))
              && (forall j :: 0 <= j < |next| ==> !mayIssue(next[j]))
  {
    hide MayIssue, Candidate;
    BestOf(w, TrustQuery(w, child, path, selfCount));
    BestOf(w, PeerQuery(child, next, path, selfCount));
  }

  lemma BestOf(w: World, q: Query)
    ensures var r := Search(w, q, 0, None);
            var fits := (p: Cert) => MayIssue(q.child, p, q.top, q.path, q.selfCount) && (q.top ==> w.good(q.child, p));
            var inDate := (p: Cert) => p.validFrom <= w.now && w.now <= p.validTo;
            match r
            case Some(k) =>
              && fits(q.list[k])
              && (forall j :: 0 <= j < k && fits(q.list[j]) ==> inDate(q.list[k]) && !inDate(q.list[j]))
              && (!inDate(q.list[k]) ==> forall j :: 0 <= j < |q.list| && fits(q.list[j]) ==> !inDate(q.list[j]))
            case None => forall j :: 0 <= j < |q.list| ==> !fits(q.list[j])
  {
    hide MayIssue, Candidate, Search;
    SearchIsBest(w, q);
    forall j | 0 <= j < |q.list|
      ensures SuitableAt(w, q, j) == (MayIssue(q.child, q.list[j], q.top, q.path, q.selfCount) && (q.top ==> w.good(q.child, q.list[j])))
      ensures BestAt(w, q, j) == (SuitableAt(w, q, j) && q.list[j].validFrom <= w.now && w.now <= q.list[j].validTo)
    {
      CandidateMeans(q.child, q.list[j], q.top, q.path, q.selfCount);
    }
  }

  ghost predicate FindStopped(w: World, child: Cert, next: seq<Cert>, path: nat, selfCount: nat, rs: RestartContext)
    reads rs`parent, rs`fallback, rs`fallbackGood, rs`parentIsTrusted
  {
    match rs.parentIsTrusted
    case None => false
    case Some(true) => InSearch(w, TrustQuery(w, child, path, selfCount), rs)
    case Some(false) =>
      && Search(w, TrustQuery(w, child, path, selfCount), 0, None) == None
      && InSearch(w, PeerQuery(child, next, path, selfCount), rs)
  }

  function CertAt(w: World, next: seq<Cert>, f: Found): Cert
    requires f.index < if f.trusted then |w.trust| else |next|
  {
    if f.trusted then w.trust[f.index] else next[f.index]
  }

  // x509_crt_find_parent
  method FindParent(w: World, child: Cert, next: seq<Cert>, path: nat, selfCount: nat, rs: RestartContext?, b: Budget)
    returns (stopped: bool, parent: Option<Found>, good: bool)
    requires selfCount <= path
    requires rs != null ==> rs.Idle() || FindStopped(w, child, next, path, selfCount, rs)
    modifies b, if rs == null then {} else {rs}
    ensures stopped ==> rs != null && FindStopped(w, child, next, path, selfCount, rs) && b.RanOut()
    ensures !stopped ==> parent == Find(w, child, next, path, selfCount)
    ensures !stopped && rs != null ==> rs.Idle()
    ensures !stopped && parent.Some? ==> good == w.good(child, CertAt(w, next, parent.value))
    ensures !stopped && parent.None? ==> !good
    ensures rs != null ==> SameChain(rs)
  {
    hide StoppedAt, Search, Budget.RanOut;
    var trusted := true;
    if rs != null && rs.parentIsTrusted != None {
      trusted := rs.parentIsTrusted.value;
      rs.parentIsTrusted := None;
    }
    while true
      invariant !trusted ==> Search(w, TrustQuery(w, child, path, selfCount), 0, None) == None
      invariant rs != null ==> rs.parentIsTrusted == None
      invariant rs != null ==> rs.SearchIdle() || InSearch(w, FindQuery(w, child, next, path, selfCount, trusted), rs)
      invariant rs != null ==> SameChain(rs)
      decreases trusted
    {
      var q := FindQuery(w, child, next, path, selfCount, trusted);
      var stop, p, g := FindParentIn(w, q, rs, b);
      if rs != null && stop {
        rs.parentIsTrusted := Some(trusted);
        return true, None, false;
      }
      if p != None {
        return false, Some(Found(trusted, p.value)), g;
      }
      if !trusted {
        return false, None, false;
      }
      trusted := false;
    }
  }
}
