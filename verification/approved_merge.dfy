/** The merge that an owner approves for the claims of one review item. */
module ApprovedMerging {
  import opened Options
  import opened ClaimTables
  import opened ClaimMerge
  import opened DedupeSweep
  import opened DedupeBuckets
  import opened DedupeHandler

  function LiveRefs(t: Tables, owner: nat, refs: seq<nat>): set<nat> {
    set id | id in refs && id in LiveIds(t, owner)
  }

  function ApprovedMerge(owner: nat, moment: int, live: set<nat>, survivor: nat): Merge {
    Merge(owner, moment, OwnerApproved, map id | id in live :: survivor)
  }

  predicate Older(claims: map<nat, Claim>, a: nat, b: nat)
    requires a in claims && b in claims
  {
    claims[a].createdAt < claims[b].createdAt || (claims[a].createdAt == claims[b].createdAt && a < b)
  }

  /** The proposed survivor when it is still live, and otherwise the oldest live claim. */
  ghost predicate ApprovedSurvivor(claims: map<nat, Claim>, live: set<nat>, proposed: Option<nat>, survivor: nat)
    requires live <= claims.Keys
  {
    && survivor in live
    && if proposed.Some? && proposed.value in live then survivor == proposed.value
       else forall id | id in live :: id == survivor || Older(claims, survivor, id)
  }

  method Oldest(claims: map<nat, Claim>, live: set<nat>) returns (best: nat)
    requires live != {} && live <= claims.Keys
    ensures best in live && forall id | id in live :: id == best || Older(claims, best, id)
    ensures forall id | id in live :: claims[best].createdAt < claims[id].createdAt || (claims[best].createdAt == claims[id].createdAt && best <= id)
  {
    best :| best in live;
    var rest := live - {best};
    while rest != {}
      invariant best in live && rest <= live
      invariant forall id | id in live && id !in rest :: id == best || Older(claims, best, id)
      decreases |rest|
    {
      var id :| id in rest;
      if Older(claims, id, best) {
        best := id;
      }
      rest := rest - {id};
    }
  }

  lemma StillPending(t: Tables, m: Merge, done: set<nat>, id: nat)
    requires id in t.claims && id !in done
    ensures ClaimsAfter(t, m, done)[id] == t.claims[id]
  {
  }

  /** Retires the claims of `merged` one after the other. */
  method SupersedeRefs(session: Session, merged: set<nat>, kept: nat, ghost t: Tables, ghost m: Merge)
    requires session.Ours(t, m, OwnerApproved) && session.Handled(t, m, {}) && Keyed(t)
    requires forall id | id in merged :: id in m.sigma && m.sigma[id] == kept && id != kept
    modifies session`claims, session`evidence, session`cards
    ensures session.Handled(t, m, merged)
  {
    hide ClaimsAfter, EvidenceAfter, CardsAfter, Losers;
    var pending, done: set<nat> := merged, {};
    while pending != {}
      invariant pending <= merged && done == merged - pending
      invariant session.Handled(t, m, done)
      decreases |pending|
    {
      var id :| id in pending;
      StillPending(t, m, done, id);
      InTable(t, m, done, id);
      session.Supersede(session.claims[id], kept, OwnerApproved, t, m, done);
      pending, done := pending - {id}, done + {id};
    }
    assert done == merged;
  }

  lemma InTable(t: Tables, m: Merge, done: set<nat>, id: nat)
    requires id in t.claims
    ensures id in ClaimsAfter(t, m, done)
  {
  }

  /** Fewer than two refs are invalid; fewer than two refs that are still live merge nothing. */
  method MergeApproved(session: Session, refs: seq<nat>, proposed: Option<nat>)
    returns (outcome: Option<set<nat>>, survivor: nat)
    requires Keyed(session.Snapshot())
    modifies session`claims, session`evidence, session`cards
    ensures outcome.None? <==> |refs| < 2
    ensures outcome.None? ==> session.Snapshot() == old(session.Snapshot())
    ensures var live := LiveRefs(old(session.Snapshot()), session.owner, refs);
            outcome.Some? ==>
              if |live| < 2 then outcome.value == {} && session.Snapshot() == old(session.Snapshot())
              else
                && ApprovedSurvivor(old(session.claims), live, proposed, survivor)
                && outcome.value == live - {survivor}
                && session.Snapshot() == MergeAll(old(session.Snapshot()), ApprovedMerge(session.owner, session.moment, live, survivor), session.items)
    ensures outcome.Some? ==>
              forall id | id in old(session.claims) ::
                if id in refs && old(session.claims)[id].owner == session.owner && old(session.claims)[id].lifecycle in {Candidate, Active, Historical}
                then outcome.value != {} ==> id == survivor || (id in session.claims && session.claims[id].lifecycle == Superseded)
                else id in session.claims && session.claims[id] == old(session.claims)[id]
  {
    hide Live;
    survivor := 0;
    if |refs| < 2 {
      return None, 0;
    }
    ghost var t := session.Snapshot();
    var live := LiveRefs(session.Snapshot(), session.owner, refs);
    if |live| < 2 {
      return Some({}), 0;
    }
    if proposed.Some? && proposed.value in live {
      survivor := proposed.value;
    } else {
      survivor := Oldest(session.claims, live);
    }
    var merged := live - {survivor};
    ghost var m := ApprovedMerge(session.owner, session.moment, live, survivor);
    NothingHandled(t, m, [], []);
    SupersedeRefs(session, merged, survivor, t, m);
    ApprovedClass(session.owner, session.moment, live, survivor);
    StillPending(t, m, merged, survivor);
    session.Absorb(session.claims[survivor], merged, session.claims[survivor].summary, OwnerApproved, t, m, merged);
    forall id | id in t.claims
      ensures if id in refs && t.claims[id].owner == session.owner && t.claims[id].lifecycle in {Candidate, Active, Historical}
              then id == survivor || (id in session.claims && session.claims[id].lifecycle == Superseded)
              else id in session.claims && session.claims[id] == t.claims[id]
    {
      OnlyLiveRefsChange(t, session.owner, session.moment, refs, survivor, session.items, id);
    }
    return Some(merged), survivor;
  }

  lemma OnlyLiveRefsChange(t: Tables, owner: nat, moment: int, refs: seq<nat>, survivor: nat, items: seq<Item>, id: nat)
    requires id in t.claims && survivor in LiveRefs(t, owner, refs)
    ensures var after := MergeAll(t, ApprovedMerge(owner, moment, LiveRefs(t, owner, refs), survivor), items).claims;
            && id in after
            && if id in refs && t.claims[id].owner == owner && t.claims[id].lifecycle in {Candidate, Active, Historical}
               then id == survivor || after[id].lifecycle == Superseded
               else after[id] == t.claims[id]
  {
  }

  lemma ApprovedClass(owner: nat, moment: int, live: set<nat>, survivor: nat)
    requires survivor in live && |live| >= 2
    ensures var m := ApprovedMerge(owner, moment, live, survivor);
            && live - {survivor} == Absorbed(m, survivor) != {}
            && live - {survivor} + {survivor} == m.sigma.Keys
  {
    assert live == live - {survivor} + {survivor};
  }

  /** What an approved merge conserves: no row is lost, all evidence of the live claims ends on the
      survivor and nothing else changes its target, every other live claim is superseded and loses its
      card, and the survivor keeps its lifecycle. */
  lemma ApprovedMergeConserves(t: Tables, owner: nat, moment: int, live: set<nat>, survivor: nat, items: seq<Item>, id: nat)
    requires live <= t.claims.Keys && survivor in live && id in live
    ensures var after := MergeAll(t, ApprovedMerge(owner, moment, live, survivor), items);
            && after.claims.Keys == t.claims.Keys && after.evidence.Keys == t.evidence.Keys
            && EvidenceOf(after, owner, survivor) == (set e | e in t.evidence && exists x :: x in live && OnClaim(t.evidence[e], owner, x))
            && (forall e | e in t.evidence && !(exists x :: x in live && x != survivor && OnClaim(t.evidence[e], owner, x)) ::
                  after.evidence[e] == t.evidence[e])
            && (id != survivor ==> after.claims[id].lifecycle == Superseded && id !in after.cards && EvidenceOf(after, owner, id) == {})
            && (id == survivor ==> after.claims[id].lifecycle == t.claims[id].lifecycle)
  {
    hide MergedClaim, MergeAll;
    var m := ApprovedMerge(owner, moment, live, survivor);
    MergeKeepsEveryRow(t, m, items);
    EvidenceLandsOnSurvivor(t, m, items, survivor);
    LosersRetireSurvivorsStay(t, m, items, id);
    assert forall x :: Loses(m, m.sigma.Keys, x) <==> x in live && x != survivor;
  }
}
