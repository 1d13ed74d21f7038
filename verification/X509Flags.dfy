// What each flag of a verdict means (patches/x509_crt.c:2574-2597, 2651-2684,
// 3064-3154).
module X509Flags {
  import opened X509Names
  import opened X509Parent
  import opened X509Chain
  import opened X509Verify
  import opened Wrappers

  function At(w: World, peer: seq<Cert>, items: seq<Item>, j: nat): Cert
    requires j < |items| && ValidRefs(w, peer, items)
  {
    CertOf(w, peer, items[j].ref)
  }

  // Why item j carries flag x, revocation lists aside. Every certificate is asked
  // for its dates, all but the trusted root for their signature algorithms, and every
  // issuer on the path for its key; NOT_TRUSTED stands for a signature that does not
  // fit the next certificate, or for a last certificate without an issuer.
  predicate Cause(w: World, peer: seq<Cert>, items: seq<Item>, j: nat, x: Flag)
    requires j < |items| && ValidRefs(w, peer, items)
  {
    var c, p := At(w, peer, items, j), w.profile;
    match x
    case Expired => c.validTo < w.now
    case Future => c.validFrom > w.now
    case BadMd => items[j].ref.Peer? && (c.sigMd == 0 || c.sigMd !in p.mds)
    case BadPk => items[j].ref.Peer? && (c.sigPk == 0 || c.sigPk !in p.pks)
    case BadKey => j + 1 < |items| && WeakKey(p, At(w, peer, items, j + 1).key)
    case NotTrusted =>
      if j + 1 < |items| then !w.good(c, At(w, peer, items, j + 1)) else
        items[j].ref.Peer? &&
        !(j == 0 && SameName(c.issuer, c.subject) && exists i :: 0 <= i < |w.trust| && w.trust[i].raw == c.raw)
    case CnMismatch => false
    case CrlProblem => false
  }

  // The revocation lists of the issuer of item j say so.
  predicate FromCrl(w: World, peer: seq<Cert>, items: seq<Item>, j: nat, x: Flag)
    requires j < |items| && ValidRefs(w, peer, items)
  {
    j + 1 < |items| && x in w.crl(At(w, peer, items, j), At(w, peer, items, j + 1))
  }

  // What is asked of the end-entity certificate alone: the host name and its own key.
  predicate EeCause(w: World, ee: Cert, nameOk: bool, x: Flag) {
    match x
    case CnMismatch => !nameOk
    case BadPk => ee.pk == 0 || ee.pk !in w.profile.pks
    case BadKey => WeakKey(w.profile, ee.key)
    case _ => false
  }

  lemma {:induction false} FlagIn(items: seq<Item>, x: Flag)
    ensures x in AllFlags(items) <==> exists j :: 0 <= j < |items| && x in items[j].flags
  {
    if items != [] {
      FlagIn(items[1..], x);
      assert items == [items[0]] + items[1..];
    }
  }

  lemma InnerCauses(w: World, peer: seq<Cert>, items: seq<Item>, j: nat, x: Flag)
    requires j + 1 < |items| && ValidRefs(w, peer, items) && items[j].ref.Peer? && InnerFlags(w, peer, items, j)
    ensures x in items[j].flags <==> Cause(w, peer, items, j, x) || FromCrl(w, peer, items, j, x)
  {
    hide SameName;
  }

  lemma LastCauses(w: World, peer: seq<Cert>, items: seq<Item>, x: Flag)
    requires IsPath(w, peer, items)
    ensures |items| > 0 && ValidRefs(w, peer, items)
    ensures x in items[|items| - 1].flags <==> Cause(w, peer, items, |items| - 1, x) || FromCrl(w, peer, items, |items| - 1, x)
  {
    hide SameName, Link, InnerFlags, Find, SelfCount;
  }

  lemma ItemCauses(w: World, peer: seq<Cert>, items: seq<Item>, j: nat, x: Flag)
    requires IsPath(w, peer, items) && j < |items|
    ensures ValidRefs(w, peer, items)
    ensures x in items[j].flags <==> Cause(w, peer, items, j, x) || FromCrl(w, peer, items, j, x)
  {
    hide IsPath, Link, InnerFlags, Cause, FromCrl;
    PathIsLinked(w, peer, items);
    LastCauses(w, peer, items, x);
    if j + 1 < |items| {
      assert Link(w, peer, items, j) && InnerFlags(w, peer, items, j);
      LinkFromPeer(w, peer, items, j);
      InnerCauses(w, peer, items, j, x);
    }
  }

  lemma LinkFromPeer(w: World, peer: seq<Cert>, items: seq<Item>, j: nat)
    requires j + 1 < |items| && ValidRefs(w, peer, items) && Link(w, peer, items, j)
    ensures items[j].ref.Peer?
  {
  }

  // The verdict in full: an error without flags exactly for a path that is too long,
  // otherwise the flags with a cause and no others, and success when there is none.
  lemma FlagsExactly(w: World, peer: seq<Cert>, nameOk: bool, items: seq<Item>, x: Flag)
    requires |peer| > 0
    ensures var r := Judge(w, peer, nameOk);
            && (r.flags == None <==> exists path :: OverLong(w, peer, path))
            && (r.flags == None ==> r.code == Fatal)
            && (r.flags.Some? ==> r.code == if r.flags.value == {} then Success else VerifyFailed)
            && (IsPath(w, peer, items) ==>
                  && ValidRefs(w, peer, items) && r.flags.Some?
                  && (x in r.flags.value <==>
                      EeCause(w, peer[0], nameOk, x) ||
                      exists j :: 0 <= j < |items| && (Cause(w, peer, items, j, x) || FromCrl(w, peer, items, j, x))))
  {
    hide IsPath, OverLong, Grow, Cause, FromCrl, EeCause, AllFlags;
    BuildsExactly(w, peer, items);
    if IsPath(w, peer, items) {
      FlagIn(items, x);
      LastCauses(w, peer, items, x);
      forall j | 0 <= j < |items|
        ensures x in items[j].flags <==> Cause(w, peer, items, j, x) || FromCrl(w, peer, items, j, x)
      {
        ItemCauses(w, peer, items, j, x);
      }
      EeFlagsMean(w, peer[0], nameOk, x);
    }
  }

  lemma EeFlagsMean(w: World, ee: Cert, nameOk: bool, x: Flag)
    ensures x in EeFlags(w, ee, nameOk) <==> EeCause(w, ee, nameOk, x)
  {
  }
}
