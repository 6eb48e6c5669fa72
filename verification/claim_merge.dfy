/** What merging duplicate claims does to the tables, as functions of the tables before it, and
    what every such merge conserves. A merge is given by `sigma`, the map from each claim it
    considers to the claim that survives for it; `done` are the claims already handled. */
module ClaimMerge {
  import opened Options
  import opened ClaimTables

  datatype Merge = Merge(owner: nat, moment: int, rule: Rule, sigma: map<nat, nat>)

  predicate Loses(m: Merge, done: set<nat>, id: nat) {
    id in done && id in m.sigma && m.sigma[id] != id
  }

  function Losers(m: Merge, done: set<nat>): set<nat> {
    set id | id in done && Loses(m, done, id)
  }

  function Absorbed(m: Merge, id: nat): set<nat> {
    set x | x in m.sigma && m.sigma[x] == id && x != id
  }

  /** The survivors among `done` that took over other claims: one for each group that is merged. */
  function Absorbers(m: Merge, done: set<nat>): set<nat> {
    set id | id in done && id in m.sigma && m.sigma[id] == id && Absorbed(m, id) != {}
  }

  /** Survivors survive for themselves, and every claim involved is a row. */
  ghost predicate WellFormed(t: Tables, m: Merge) {
    && m.sigma.Keys <= t.claims.Keys
    && forall x | x in m.sigma :: m.sigma[x] in m.sigma && m.sigma[m.sigma[x]] == m.sigma[x]
  }

  function Summaries(t: Tables, ids: set<nat>): set<nat> {
    set x, entry | x in ids && x in t.claims && entry in t.claims[x].summary :: entry
  }

  function MergedClaim(t: Tables, m: Merge, id: nat): Claim
    requires id in t.claims && id in m.sigma
  {
    var c := t.claims[id];
    if m.sigma[id] != id then
      c.(lifecycle := Superseded, validTo := Some(m.moment),
         events := c.events + [SupersededByMerge(m.moment, m.sigma[id], m.rule)])
    else if Absorbed(m, id) == {} then c
    else
      c.(events := c.events + [MergedDuplicates(m.moment, Absorbed(m, id), m.rule)],
         summary := if m.rule.TokenJaccard? then c.summary + Summaries(t, Absorbed(m, id)) else c.summary)
  }

  function ClaimsAfter(t: Tables, m: Merge, done: set<nat>): map<nat, Claim> {
    map id | id in t.claims :: if id in done && id in m.sigma then MergedClaim(t, m, id) else t.claims[id]
  }

  function MovedEvidence(e: Evidence, m: Merge, done: set<nat>): Evidence {
    if e.owner == m.owner && e.target.ClaimTarget? && Loses(m, done, e.target.id)
    then e.(target := ClaimTarget(m.sigma[e.target.id]), version := e.version + 1)
    else e
  }

  function EvidenceAfter(t: Tables, m: Merge, done: set<nat>): map<nat, Evidence> {
    map e | e in t.evidence :: MovedEvidence(t.evidence[e], m, done)
  }

  function CardsAfter(t: Tables, m: Merge, done: set<nat>): map<nat, Card> {
    map id | id in t.cards && !Loses(m, done, id) :: t.cards[id]
  }

  /** The tables once every claim of the merge has been handled; the inbox is separate. */
  function MergeAll(t: Tables, m: Merge, items: seq<Item>): Tables {
    Tables(ClaimsAfter(t, m, m.sigma.Keys), EvidenceAfter(t, m, m.sigma.Keys), items,
           CardsAfter(t, m, m.sigma.Keys))
  }

  // ---- Conservation -----------------------------------------------------------------

  /** No claim and no evidence row disappears; an evidence row changes exactly if it is the owner's
      and on a claim that lost, and then only in its target and version; and a claim changes only if it lost or absorbed another claim. */
  lemma MergeKeepsEveryRow(t: Tables, m: Merge, items: seq<Item>)
    ensures var after := MergeAll(t, m, items);
            && after.claims.Keys == t.claims.Keys
            && after.evidence.Keys == t.evidence.Keys
            && (forall e | e in t.evidence ::
                  if exists id :: Loses(m, m.sigma.Keys, id) && OnClaim(t.evidence[e], m.owner, id)
                  then after.evidence[e] == t.evidence[e].(target := ClaimTarget(m.sigma[t.evidence[e].target.id]), version := t.evidence[e].version + 1)
                  else after.evidence[e] == t.evidence[e])
            && (forall id | id in t.claims && after.claims[id] != t.claims[id] ::
                  id in m.sigma && (m.sigma[id] != id || Absorbed(m, id) != {}))
  {
  }

  /** The evidence a survivor ends with is exactly the evidence its whole class had. */
  lemma EvidenceLandsOnSurvivor(t: Tables, m: Merge, items: seq<Item>, s: nat)
    requires WellFormed(t, m) && s in m.sigma && m.sigma[s] == s
    ensures EvidenceOf(MergeAll(t, m, items), m.owner, s)
            == set e | e in t.evidence && t.evidence[e].owner == m.owner && t.evidence[e].target.ClaimTarget?
                       && t.evidence[e].target.id in m.sigma && m.sigma[t.evidence[e].target.id] == s
  {
    var after := MergeAll(t, m, items);
    forall e | e in t.evidence
      ensures OnClaim(after.evidence[e], m.owner, s) <==>
              (t.evidence[e].owner == m.owner && t.evidence[e].target.ClaimTarget?
               && t.evidence[e].target.id in m.sigma && m.sigma[t.evidence[e].target.id] == s)
    {
      assert after.evidence[e] == MovedEvidence(t.evidence[e], m, m.sigma.Keys);
    }
  }

  /** A superseded claim keeps no evidence and no retrieval card, ends its validity, and its history
      names the survivor; a survivor keeps its own lifecycle and its card, and if it took over other
      claims its history lists exactly them and, in the sweep, its summary gains theirs. */
  lemma LosersRetireSurvivorsStay(t: Tables, m: Merge, items: seq<Item>, id: nat)
    requires WellFormed(t, m) && id in m.sigma
    ensures var after := MergeAll(t, m, items);
            if m.sigma[id] != id then
              && after.claims[id].lifecycle == Superseded && id !in after.cards
              && EvidenceOf(after, m.owner, id) == {}
              && after.claims[id].validTo == Some(m.moment) && after.claims[id].summary == t.claims[id].summary
              && after.claims[id].events == t.claims[id].events + [SupersededByMerge(m.moment, m.sigma[id], m.rule)]
            else
              && after.claims[id].lifecycle == t.claims[id].lifecycle
              && (id in after.cards <==> id in t.cards) && (id in t.cards ==> after.cards[id] == t.cards[id])
              && after.claims[id].validTo == t.claims[id].validTo
              && var others := set x | x in m.sigma && m.sigma[x] == id && x != id;
              && after.claims[id].events == t.claims[id].events + (if others == {} then [] else [MergedDuplicates(m.moment, others, m.rule)])
              && after.claims[id].summary ==
                 t.claims[id].summary + (set x, entry | x in others && m.rule == TokenJaccard && entry in t.claims[x].summary :: entry)
  {
    var after := MergeAll(t, m, items);
    if m.sigma[id] != id {
      forall e | e in t.evidence ensures !OnClaim(after.evidence[e], m.owner, id) {
        assert after.evidence[e] == MovedEvidence(t.evidence[e], m, m.sigma.Keys);
      }
    }
  }

  /** A claim that the merge does not consider keeps its row, card and evidence, and so does the
      evidence of other owners. */
  lemma OutsideIsUntouched(t: Tables, m: Merge, items: seq<Item>, id: nat)
    requires WellFormed(t, m) && id in t.claims && id !in m.sigma
    ensures var after := MergeAll(t, m, items);
            && id in after.claims && after.claims[id] == t.claims[id] && (id in after.cards <==> id in t.cards)
            && EvidenceOf(after, m.owner, id) == EvidenceOf(t, m.owner, id)
            && forall e | e in t.evidence && t.evidence[e].owner != m.owner :: e in after.evidence && after.evidence[e] == t.evidence[e]
  {
    var after := MergeAll(t, m, items);
    forall e | e in t.evidence ensures OnClaim(after.evidence[e], m.owner, id) <==> OnClaim(t.evidence[e], m.owner, id) {
      assert after.evidence[e] == MovedEvidence(t.evidence[e], m, m.sigma.Keys);
    }
  }

  /** Merging nothing changes nothing. */
  lemma IdentityMerge(t: Tables, m: Merge, items: seq<Item>)
    requires WellFormed(t, m) && forall x | x in m.sigma :: m.sigma[x] == x
    ensures MergeAll(t, m, items) == t.(items := items)
  {
    assert forall id | id in m.sigma :: Absorbed(m, id) == {};
    assert ClaimsAfter(t, m, m.sigma.Keys) == t.claims;
    assert EvidenceAfter(t, m, m.sigma.Keys) == t.evidence;
    assert CardsAfter(t, m, m.sigma.Keys) == t.cards;
  }

  // ---- One step of the handling order -------------------------------------------------

  lemma HandleLoser(t: Tables, m: Merge, done: set<nat>, id: nat)
    requires WellFormed(t, m) && id in m.sigma && m.sigma[id] != id && id !in done && m.sigma[id] !in done
    ensures ClaimsAfter(t, m, done + {id}) == ClaimsAfter(t, m, done)[id := MergedClaim(t, m, id)]
    ensures ClaimsAfter(t, m, done)[id] == t.claims[id]
    ensures CardsAfter(t, m, done + {id}) == CardsAfter(t, m, done) - {id}
    ensures EvidenceAfter(t, m, done + {id}) ==
            MoveRows(EvidenceAfter(t, m, done), m.owner, id, m.sigma[id])
    ensures Losers(m, done + {id}) == Losers(m, done) + {id} && id !in Losers(m, done)
    ensures Absorbers(m, done + {id}) == Absorbers(m, done)
  {
    forall e | e in t.evidence
      ensures MovedEvidence(t.evidence[e], m, done + {id})
              == MoveRow(MovedEvidence(t.evidence[e], m, done), m.owner, id, m.sigma[id])
    {
    }
  }

  lemma HandleSurvivor(t: Tables, m: Merge, done: set<nat>, id: nat)
    requires WellFormed(t, m) && id in m.sigma && m.sigma[id] == id && id !in done
    ensures ClaimsAfter(t, m, done + {id}) == ClaimsAfter(t, m, done)[id := MergedClaim(t, m, id)]
    ensures ClaimsAfter(t, m, done)[id] == t.claims[id]
    ensures CardsAfter(t, m, done + {id}) == CardsAfter(t, m, done)
    ensures EvidenceAfter(t, m, done + {id}) == EvidenceAfter(t, m, done)
    ensures Losers(m, done + {id}) == Losers(m, done)
    ensures Absorbers(m, done + {id}) == Absorbers(m, done) + (if Absorbed(m, id) != {} then {id} else {}) && id !in Absorbers(m, done)
  {
    forall e | e in t.evidence
      ensures MovedEvidence(t.evidence[e], m, done + {id}) == MovedEvidence(t.evidence[e], m, done)
    {
    }
  }

  /** The UPDATE that points one claim's evidence at another claim. */
  function MoveRow(e: Evidence, owner: nat, id: nat, survivor: nat): Evidence {
    if OnClaim(e, owner, id) then e.(target := ClaimTarget(survivor), version := e.version + 1) else e
  }

  function MoveRows(evidence: map<nat, Evidence>, owner: nat, id: nat, survivor: nat): map<nat, Evidence> {
    map e | e in evidence :: MoveRow(evidence[e], owner, id, survivor)
  }
}
