/** The daily duplicate sweep over one owner's live claims: buckets by category and polarity,
    clusters of duplicates merged into their best member, and at most one open review item
    per claim for the pairs that are only suspected. */
module DedupeSweep {
  import opened Options
  import opened ClaimTables
  import opened ClaimClusters
  import opened ClaimMerge

  const MAX_DEDUPE_SCAN := 500

  // ---- What the sweep reads ---------------------------------------------------------

  function LiveIds(t: Tables, owner: nat): set<nat> {
    set id | id in t.claims && t.claims[id].owner == owner && Live(t.claims[id].lifecycle)
  }

  ghost predicate RowsOf(t: Tables, owner: nat, rows: seq<Claim>) {
    && (forall i | 0 <= i < |rows| :: rows[i].id in LiveIds(t, owner) && t.claims[rows[i].id] == rows[i])
    && (forall i, j | 0 <= i < j < |rows| :: rows[i].id != rows[j].id)
  }

  /** A possible answer of the scan query: live rows in any order, cut off at the limit. */
  ghost predicate IsScan(t: Tables, owner: nat, rows: seq<Claim>) {
    && RowsOf(t, owner, rows)
    && |rows| == if |LiveIds(t, owner)| <= MAX_DEDUPE_SCAN then |LiveIds(t, owner)| else MAX_DEDUPE_SCAN
  }

  function Ids(rows: seq<Claim>): set<nat> {
    set i | 0 <= i < |rows| :: rows[i].id
  }

  function Counts(t: Tables, owner: nat, rows: seq<Claim>): map<nat, nat> {
    map id | id in Ids(rows) :: EvidenceCount(t, owner, id)
  }

  lemma {:induction false} IdsSize(rows: seq<Claim>)
    requires forall i, j | 0 <= i < j < |rows| :: rows[i].id != rows[j].id
    ensures |Ids(rows)| == |rows|
  {
    if rows != [] {
      var front, last := rows[..|rows| - 1], rows[|rows| - 1].id;
      IdsSize(front);
      assert Ids(rows) == Ids(front) + {last};
    }
  }

  /** Within the limit the scan reads every live claim. */
  lemma ScanIsComplete(t: Tables, owner: nat, rows: seq<Claim>)
    requires IsScan(t, owner, rows) && |LiveIds(t, owner)| <= MAX_DEDUPE_SCAN
    ensures Ids(rows) == LiveIds(t, owner)
  {
    IdsSize(rows);
    var missing := LiveIds(t, owner) - Ids(rows);
    assert LiveIds(t, owner) == Ids(rows) + missing;
    assert |missing| == 0;
  }

  // ---- Survivors --------------------------------------------------------------------

  ghost predicate IsSurvivor(rows: seq<Claim>, counts: map<nat, nat>, a: Claim, s: Claim) {
    && s in rows && Linked(rows, a, s)
    && forall b | b in rows && Linked(rows, a, b) :: b == s || Outranks(s, b, counts)
  }

  ghost predicate DistinctIds(rows: seq<Claim>) {
    forall i, j | 0 <= i < |rows| && 0 <= j < |rows| && rows[i].id == rows[j].id :: i == j
  }

  ghost predicate BestSoFar(rows: seq<Claim>, counts: map<nat, nat>, a: Claim, k: nat, s: Claim) {
    && k <= |rows| && s in rows && Linked(rows, a, s)
    && forall b | b in rows[..k] && Linked(rows, a, b) :: b == s || Outranks(s, b, counts)
  }

  lemma {:induction false} SurvivorExists(rows: seq<Claim>, counts: map<nat, nat>, a: Claim, k: nat)
    requires a in rows && DistinctIds(rows) && k <= |rows|
    ensures exists s :: BestSoFar(rows, counts, a, k, s)
  {
    if k == 0 {
      LinkedReflexive(rows, a);
      assert BestSoFar(rows, counts, a, k, a);
    } else {
      SurvivorExists(rows, counts, a, k - 1);
      var s: Claim :| BestSoFar(rows, counts, a, k - 1, s);
      var c := rows[k - 1];
      assert rows[..k] == rows[..k - 1] + [c];
      if Linked(rows, a, c) && Outranks(c, s, counts) {
        assert BestSoFar(rows, counts, a, k, c);
      } else {
        assert c.id == s.id ==> c == s;
        assert BestSoFar(rows, counts, a, k, s);
      }
    }
  }

  ghost function Survivor(rows: seq<Claim>, counts: map<nat, nat>, a: Claim): (s: Claim)
    requires a in rows && DistinctIds(rows)
    ensures IsSurvivor(rows, counts, a, s)
  {
    SurvivorExists(rows, counts, a, |rows|);
    var s: Claim :| BestSoFar(rows, counts, a, |rows|, s);
    assert rows[..|rows|] == rows;
    s
  }

  /** The rank leaves no choice: a class has one survivor. */
  lemma SurvivorUnique(rows: seq<Claim>, counts: map<nat, nat>, a: Claim, b: Claim, s: Claim)
    requires a in rows && DistinctIds(rows) && Linked(rows, a, b) && IsSurvivor(rows, counts, b, s)
    ensures Survivor(rows, counts, a) == s
  {
    var other := Survivor(rows, counts, a);
    LinkedTransitive(rows, a, b, s);
    LinkedSymmetric(rows, a, b);
    LinkedTransitive(rows, b, a, other);
  }

  /** The survivor map of a sweep. */
  ghost function Sigma(t: Tables, owner: nat, rows: seq<Claim>): (sigma: map<nat, nat>)
    requires RowsOf(t, owner, rows)
  {
    map id | id in Ids(rows) :: Survivor(rows, Counts(t, owner, rows), t.claims[id]).id
  }

  ghost function SweepMerge(t: Tables, owner: nat, moment: int, rows: seq<Claim>): (m: Merge)
    requires RowsOf(t, owner, rows)
  {
    Merge(owner, moment, TokenJaccard, Sigma(t, owner, rows))
  }

  lemma SigmaAt(t: Tables, owner: nat, rows: seq<Claim>, a: Claim)
    requires RowsOf(t, owner, rows) && a in rows
    ensures a.id in Sigma(t, owner, rows)
    ensures Sigma(t, owner, rows)[a.id] == Survivor(rows, Counts(t, owner, rows), a).id
  {
    var i :| 0 <= i < |rows| && rows[i] == a;
    assert rows[i].id in Ids(rows);
  }

  /** Two scanned claims share a survivor exactly when a chain of duplicates links them. */
  lemma SigmaMatchesLinks(t: Tables, owner: nat, rows: seq<Claim>, a: Claim, b: Claim)
    requires RowsOf(t, owner, rows) && a in rows && b in rows
    ensures a.id in Sigma(t, owner, rows) && b.id in Sigma(t, owner, rows)
    ensures Sigma(t, owner, rows)[a.id] == Sigma(t, owner, rows)[b.id] <==> Linked(rows, a, b)
  {
    var counts := Counts(t, owner, rows);
    SigmaAt(t, owner, rows, a);
    SigmaAt(t, owner, rows, b);
    var s, r := Survivor(rows, counts, a), Survivor(rows, counts, b);
    if Linked(rows, a, b) {
      SurvivorUnique(rows, counts, a, b, r);
    } else if s.id == r.id {
      assert s == r;
      LinkedSymmetric(rows, b, r);
      LinkedTransitive(rows, a, s, b);
    }
  }

  lemma SigmaWellFormed(t: Tables, owner: nat, moment: int, rows: seq<Claim>)
    requires RowsOf(t, owner, rows)
    ensures WellFormed(t, SweepMerge(t, owner, moment, rows))
  {
    var sigma, counts := Sigma(t, owner, rows), Counts(t, owner, rows);
    forall x | x in sigma ensures x in t.claims && sigma[x] in sigma && sigma[sigma[x]] == sigma[x] {
      var a := t.claims[x];
      var s := Survivor(rows, counts, a);
      SigmaAt(t, owner, rows, s);
      LinkedSymmetric(rows, a, s);
      SurvivorUnique(rows, counts, s, a, s);
    }
  }

  // ---- Suspected pairs and the review inbox -------------------------------------------

  predicate CardsClose(cards: map<nat, Card>, a: nat, b: nat) {
    && a in cards && b in cards && cards[a].embedding.Some? && cards[b].embedding.Some?
    && VectorClose(cards[a].embedding.value, cards[b].embedding.value)
  }

  predicate SameBucket(a: Claim, b: Claim) {
    a.category == b.category && a.text.negative == b.text.negative
  }

  /** Two scanned rows the owner should look at: token overlap in the review band, or close
      vectors of rows that no chain of duplicates links. */
  ghost predicate Suspicious(t: Tables, rows: seq<Claim>, a: Claim, b: Claim) {
    && a in rows && b in rows && a.id != b.id && SameBucket(a, b)
    && (DuplicateKind(a.text, b.text).Suspected? || (!Linked(rows, a, b) && CardsClose(t.cards, a.id, b.id)))
  }

  lemma SuspiciousSymmetric(t: Tables, rows: seq<Claim>, a: Claim, b: Claim)
    requires Suspicious(t, rows, a, b)
    ensures Suspicious(t, rows, b, a)
  {
    DuplicateKindSymmetric(a.text, b.text);
    if Linked(rows, b, a) {
      LinkedSymmetric(rows, b, a);
    }
    if CardsClose(t.cards, a.id, b.id) {
      VectorCloseSymmetric(t.cards[a.id].embedding.value, t.cards[b.id].embedding.value);
    }
  }

  /** The one of two rows that sorting by the key puts first. */
  function Preferred(a: Claim, b: Claim, counts: map<nat, nat>): (c: Claim)
    ensures a.id != b.id ==> (c == a && Outranks(a, b, counts)) || (c == b && Outranks(b, a, counts))
  {
    KeyMeansOutranks(b, a, counts);
    if KeyBefore(SurvivorKey(b, counts), SurvivorKey(a, counts)) then b else a
  }

  ghost predicate ItemFor(t: Tables, rows: seq<Claim>, counts: map<nat, nat>, owner: nat, item: Item, a: Claim, b: Claim) {
    && Suspicious(t, rows, a, b)
    && item == Item(owner, true, {a.id, b.id}, true, Preferred(a, b, counts).id)
  }

  /** The inbox grew by open items for suspicious pairs, each pair disjoint from every pair
      that was open before it. */
  ghost predicate InboxGrew(t: Tables, owner: nat, rows: seq<Claim>, items: seq<Item>) {
    && t.items <= items
    && forall k | |t.items| <= k < |items| ::
         && (exists a, b :: ItemFor(t, rows, Counts(t, owner, rows), owner, items[k], a, b))
         && items[k].refs !! ClaimedRefs(items[..k], owner)
  }

  /** No suspicious pair is left without an item that concerns at least one of its claims. */
  ghost predicate AllSuspicionsClaimed(t: Tables, owner: nat, rows: seq<Claim>, items: seq<Item>) {
    forall a, b | Suspicious(t, rows, a, b) ::
      a.id in ClaimedRefs(items, owner) || b.id in ClaimedRefs(items, owner)
  }

  // ---- The whole sweep as a relation on tables ----------------------------------------

  ghost predicate SweepPost(pre: Tables, owner: nat, moment: int, rows: seq<Claim>, post: Tables, merged: nat) {
    && RowsOf(pre, owner, rows)
    && var m := SweepMerge(pre, owner, moment, rows);
    && post == MergeAll(pre, m, post.items)
    && merged == |Losers(m, m.sigma.Keys)|
    && InboxGrew(pre, owner, rows, post.items)
    && AllSuspicionsClaimed(pre, owner, rows, post.items)
  }

  /** A scanned claim that is live after the merge survived, with text and category intact. */
  lemma LiveMeansSurvivor(pre: Tables, owner: nat, moment: int, rows: seq<Claim>, items: seq<Item>, a: Claim)
    requires RowsOf(pre, owner, rows) && a in rows && a.id in pre.claims
    requires Live(MergeAll(pre, SweepMerge(pre, owner, moment, rows), items).claims[a.id].lifecycle)
    ensures a.id in Sigma(pre, owner, rows) && Sigma(pre, owner, rows)[a.id] == a.id
    ensures var c := MergeAll(pre, SweepMerge(pre, owner, moment, rows), items).claims[a.id];
            c.text == a.text && c.category == a.category
  {
    SigmaWellFormed(pre, owner, moment, rows);
    SigmaAt(pre, owner, rows, a);
    LosersRetireSurvivorsStay(pre, SweepMerge(pre, owner, moment, rows), items, a.id);
  }

  /** After a sweep no two scanned claims that are still live are duplicates of each other. */
  lemma NoDuplicatesSurvive(pre: Tables, owner: nat, moment: int, rows: seq<Claim>, post: Tables, merged: nat, a: Claim, b: Claim)
    requires SweepPost(pre, owner, moment, rows, post, merged)
    requires a in rows && b in rows && a.id != b.id && a.id in post.claims && b.id in post.claims
    requires Live(post.claims[a.id].lifecycle) && Live(post.claims[b.id].lifecycle)
    ensures !MergePair(post.claims[a.id], post.claims[b.id])
    ensures !Linked(rows, a, b)
  {
    SurvivorsAreUnlinked(pre, owner, moment, rows, post.items, a, b);
  }

  /** An unresolved merge item of the owner concerns one of the two claims. */
  ghost predicate UnderReview(items: seq<Item>, owner: nat, a: nat, b: nat) {
    exists k :: 0 <= k < |items| && items[k].owner == owner && items[k].mergeCandidate && items[k].open
                && (a in items[k].refs || b in items[k].refs)
  }

  /** What a sweep leaves of two claims of one category and polarity, in terms of their texts: if both
      are still live, their normal forms differ and fewer than three in four of their tokens are
      common; and if one in two is, or their vectors are close, one of them is under review. */
  lemma WhatASweepLeaves(pre: Tables, owner: nat, moment: int, rows: seq<Claim>, post: Tables, merged: nat, a: Claim, b: Claim)
    requires SweepPost(pre, owner, moment, rows, post, merged)
    requires a in rows && b in rows && a.id != b.id && a.id in post.claims && b.id in post.claims
    requires a.category == b.category && a.text.negative == b.text.negative
    requires Live(post.claims[a.id].lifecycle) && Live(post.claims[b.id].lifecycle)
    ensures a.text.normal != b.text.normal
    ensures var common, all := |a.text.tokens * b.text.tokens|, |a.text.tokens + b.text.tokens|;
            a.text.tokens != {} && b.text.tokens != {} ==>
              4 * common < 3 * all && (2 * common >= all ==> UnderReview(post.items, owner, a.id, b.id))
    ensures CardsClose(pre.cards, a.id, b.id) ==> UnderReview(post.items, owner, a.id, b.id)
  {
    hide KeptOver, MergeAll, SweepMerge, InboxGrew, Losers, Linked, UnderReview, ClaimedRefs, RowsOf, CardsClose, Live;
    NoDuplicatesSurvive(pre, owner, moment, rows, post, merged, a, b);
    TextsOfUnlinked(pre, rows, a, b);
    if Suspicious(pre, rows, a, b) {
      ClaimedMeansUnderReview(post.items, owner, a.id, b.id);
    }
  }

  lemma TextsOfUnlinked(t: Tables, rows: seq<Claim>, a: Claim, b: Claim)
    requires a in rows && b in rows && a.id != b.id && a.category == b.category && a.text.negative == b.text.negative
    requires !Linked(rows, a, b)
    ensures a.text.normal != b.text.normal
    ensures var common, all := |a.text.tokens * b.text.tokens|, |a.text.tokens + b.text.tokens|;
            a.text.tokens != {} && b.text.tokens != {} ==> 4 * common < 3 * all && (2 * common >= all ==> Suspicious(t, rows, a, b))
    ensures CardsClose(t.cards, a.id, b.id) ==> Suspicious(t, rows, a, b)
  {
    hide Linked, CardsClose, DuplicateKind;
    DuplicateKindExactly(a.text, b.text);
    if MergePair(a, b) {
      LinkedStep(rows, a, b);
    }
  }

  lemma ClaimedMeansUnderReview(items: seq<Item>, owner: nat, a: nat, b: nat)
    requires a in ClaimedRefs(items, owner) || b in ClaimedRefs(items, owner)
    ensures UnderReview(items, owner, a, b)
  {
    var ref := if a in ClaimedRefs(items, owner) then a else b;
    var k :| 0 <= k < |items| && OpenMerge(items[k], owner) && ref in items[k].refs;
  }

  lemma SurvivorsAreUnlinked(pre: Tables, owner: nat, moment: int, rows: seq<Claim>, items: seq<Item>, a: Claim, b: Claim)
    requires RowsOf(pre, owner, rows) && a in rows && b in rows && a.id != b.id
    requires a.id in pre.claims && b.id in pre.claims
    requires var claims := MergeAll(pre, SweepMerge(pre, owner, moment, rows), items).claims;
             Live(claims[a.id].lifecycle) && Live(claims[b.id].lifecycle)
    ensures var claims := MergeAll(pre, SweepMerge(pre, owner, moment, rows), items).claims;
            !MergePair(claims[a.id], claims[b.id]) && !Linked(rows, a, b)
  {
    LiveMeansSurvivor(pre, owner, moment, rows, items, a);
    LiveMeansSurvivor(pre, owner, moment, rows, items, b);
    SigmaMatchesLinks(pre, owner, rows, a, b);
    if MergePair(a, b) {
      LinkedStep(rows, a, b);
    }
  }

  /** A live claim after the sweep was scanned, survived, and still has its text, category
      and card. */
  lemma LiveAfterSweep(pre: Tables, owner: nat, moment: int, rows: seq<Claim>, post: Tables, merged: nat, id: nat)
    requires SweepPost(pre, owner, moment, rows, post, merged)
    requires Ids(rows) == LiveIds(pre, owner) && id in LiveIds(post, owner)
    ensures id in LiveIds(pre, owner) && pre.claims[id] in rows
    ensures post.claims[id].text == pre.claims[id].text && post.claims[id].category == pre.claims[id].category
    ensures id in post.cards <==> id in pre.cards
    ensures id in post.cards ==> post.cards[id] == pre.cards[id]
    ensures Sigma(pre, owner, rows)[id] == id
  {
    hide InboxGrew, AllSuspicionsClaimed, Linked, IsSurvivor, Losers;
    SigmaWellFormed(pre, owner, moment, rows);
    var m := SweepMerge(pre, owner, moment, rows);
    assert id in m.sigma;
    LosersRetireSurvivorsStay(pre, m, post.items, id);
  }

  /** The fixpoint: with at most the scan limit of live claims, a second sweep straight after
      the first merges nothing, opens nothing and leaves every table as it is. */
  lemma SecondSweepIsIdle(
    s0: Tables, s1: Tables, s2: Tables, owner: nat, moment1: int, moment2: int,
    rows1: seq<Claim>, rows2: seq<Claim>, merged1: nat, merged2: nat)
    requires |LiveIds(s0, owner)| <= MAX_DEDUPE_SCAN
    requires IsScan(s0, owner, rows1) && SweepPost(s0, owner, moment1, rows1, s1, merged1)
    requires IsScan(s1, owner, rows2) && SweepPost(s1, owner, moment2, rows2, s2, merged2)
    ensures s2 == s1 && merged2 == 0
  {
    ScanIsComplete(s0, owner, rows1);
    SecondSweepMergesNothing(s0, s1, owner, moment1, moment2, rows1, rows2, merged1, s2.items);
    SecondSweepOpensNothing(s0, s1, owner, moment1, rows1, rows2, merged1, s2.items);
  }

  lemma SecondSweepMergesNothing(
    s0: Tables, s1: Tables, owner: nat, moment1: int, moment2: int,
    rows1: seq<Claim>, rows2: seq<Claim>, merged1: nat, items: seq<Item>)
    requires Ids(rows1) == LiveIds(s0, owner) && SweepPost(s0, owner, moment1, rows1, s1, merged1)
    requires RowsOf(s1, owner, rows2)
    ensures var m2 := SweepMerge(s1, owner, moment2, rows2);
            MergeAll(s1, m2, items) == s1.(items := items) && Losers(m2, m2.sigma.Keys) == {}
  {
    var m2 := SweepMerge(s1, owner, moment2, rows2);
    SigmaWellFormed(s1, owner, moment2, rows2);
    forall x | x in m2.sigma ensures m2.sigma[x] == x {
      SurvivorsAreAlone(s0, s1, owner, moment1, rows1, rows2, merged1, s1.claims[x]);
    }
    IdentityMerge(s1, m2, items);
  }

  lemma SecondSweepOpensNothing(
    s0: Tables, s1: Tables, owner: nat, moment1: int,
    rows1: seq<Claim>, rows2: seq<Claim>, merged1: nat, items: seq<Item>)
    requires Ids(rows1) == LiveIds(s0, owner) && SweepPost(s0, owner, moment1, rows1, s1, merged1)
    requires RowsOf(s1, owner, rows2) && InboxGrew(s1, owner, rows2, items)
    ensures items == s1.items
  {
    hide MergeAll, RowsOf, Counts, SweepMerge, AllSuspicionsClaimed;
    var k := |s1.items|;
    if |items| > k {
      assert items[..k] == s1.items;
      var a: Claim, b: Claim :| ItemFor(s1, rows2, Counts(s1, owner, rows2), owner, items[k], a, b);
      assert a.id in items[k].refs && b.id in items[k].refs;
      SuspicionWasClaimed(s0, s1, owner, moment1, rows1, rows2, merged1, a, b);
    }
  }

  lemma SurvivorsAreAlone(s0: Tables, s1: Tables, owner: nat, moment1: int, rows1: seq<Claim>, rows2: seq<Claim>, merged1: nat, a: Claim)
    requires Ids(rows1) == LiveIds(s0, owner) && SweepPost(s0, owner, moment1, rows1, s1, merged1)
    requires RowsOf(s1, owner, rows2) && a in rows2
    ensures Survivor(rows2, Counts(s1, owner, rows2), a) == a
  {
    var s := Survivor(rows2, Counts(s1, owner, rows2), a);
    var p: seq<Claim> :| ChainFrom(rows2, a, s, p);
    ChainAfterSweepIsConstant(s0, s1, owner, moment1, rows1, rows2, merged1, p);
  }

  lemma {:induction false} ChainAfterSweepIsConstant(
    s0: Tables, s1: Tables, owner: nat, moment1: int, rows1: seq<Claim>, rows2: seq<Claim>, merged1: nat, p: seq<Claim>)
    requires Ids(rows1) == LiveIds(s0, owner) && SweepPost(s0, owner, moment1, rows1, s1, merged1)
    requires RowsOf(s1, owner, rows2) && Chain(rows2, p)
    ensures p[|p| - 1] == p[0]
  {
    hide SweepPost, LiveIds, Ids, MergePair, RowsOf;
    if |p| > 1 {
      ChainAfterSweepIsConstant(s0, s1, owner, moment1, rows1, rows2, merged1, p[..|p| - 1]);
      assert MergePair(p[|p| - 2], p[|p| - 1]);
      PairAfterSweepIsEqual(s0, s1, owner, moment1, rows1, rows2, merged1, p[|p| - 2], p[|p| - 1]);
    }
  }

  lemma PairAfterSweepIsEqual(
    s0: Tables, s1: Tables, owner: nat, moment1: int, rows1: seq<Claim>, rows2: seq<Claim>, merged1: nat, a: Claim, b: Claim)
    requires Ids(rows1) == LiveIds(s0, owner) && SweepPost(s0, owner, moment1, rows1, s1, merged1)
    requires RowsOf(s1, owner, rows2) && a in rows2 && b in rows2 && MergePair(a, b)
    ensures a == b
  {
    LiveAfterSweep(s0, owner, moment1, rows1, s1, merged1, a.id);
    LiveAfterSweep(s0, owner, moment1, rows1, s1, merged1, b.id);
    if a.id != b.id {
      NoDuplicatesSurvive(s0, owner, moment1, rows1, s1, merged1, s0.claims[a.id], s0.claims[b.id]);
    }
  }

  lemma SuspicionWasClaimed(
    s0: Tables, s1: Tables, owner: nat, moment1: int, rows1: seq<Claim>, rows2: seq<Claim>, merged1: nat, a: Claim, b: Claim)
    requires Ids(rows1) == LiveIds(s0, owner) && SweepPost(s0, owner, moment1, rows1, s1, merged1)
    requires RowsOf(s1, owner, rows2) && Suspicious(s1, rows2, a, b)
    ensures a.id in ClaimedRefs(s1.items, owner) || b.id in ClaimedRefs(s1.items, owner)
  {
    LiveAfterSweep(s0, owner, moment1, rows1, s1, merged1, a.id);
    LiveAfterSweep(s0, owner, moment1, rows1, s1, merged1, b.id);
    var a0, b0 := s0.claims[a.id], s0.claims[b.id];
    SigmaMatchesLinks(s0, owner, rows1, a0, b0);
    assert Suspicious(s0, rows1, a0, b0);
  }

  // ---- What a sweep promises ------------------------------------------------------------

  /** `b` has no better case than `s`: it is established or active only if `s` is; where both are or
      neither is, it has no more evidence rows; and with as many, it is not older, and of two rows of
      the same moment it does not have the smaller id. */
  ghost predicate KeptOver(t: Tables, owner: nat, s: Claim, b: Claim) {
    var firmS, firmB := s.established || s.lifecycle == Active, b.established || b.lifecycle == Active;
    var rowsS := set e | e in t.evidence && t.evidence[e].owner == owner && t.evidence[e].target == ClaimTarget(s.id);
    var rowsB := set e | e in t.evidence && t.evidence[e].owner == owner && t.evidence[e].target == ClaimTarget(b.id);
    && (firmB ==> firmS)
    && (firmS == firmB ==> |rowsB| <= |rowsS|)
    && (firmS == firmB && |rowsB| == |rowsS| ==> s.createdAt <= b.createdAt)
    && (firmS == firmB && |rowsB| == |rowsS| && s.createdAt == b.createdAt ==> s.id <= b.id)
  }

  lemma OutranksMeansKept(t: Tables, owner: nat, rows: seq<Claim>, s: Claim, b: Claim)
    requires s in rows && b in rows && (b == s || Outranks(s, b, Counts(t, owner, rows)))
    ensures KeptOver(t, owner, s, b)
  {
    CountsAre(t, owner, rows, s);
    CountsAre(t, owner, rows, b);
  }

  lemma CountsAre(t: Tables, owner: nat, rows: seq<Claim>, c: Claim)
    requires c in rows
    ensures Supports(c, Counts(t, owner, rows)) ==
            |set e | e in t.evidence && t.evidence[e].owner == owner && t.evidence[e].target == ClaimTarget(c.id)|
  {
    var i :| 0 <= i < |rows| && rows[i] == c;
    assert rows[i].id in Ids(rows);
    assert EvidenceOf(t, owner, c.id) ==
           set e | e in t.evidence && t.evidence[e].owner == owner && t.evidence[e].target == ClaimTarget(c.id);
  }

  /** The promises of one sweep, read off the tables: every scanned claim has one survivor,
      a member of its chain of duplicates over which no other has the better case; its evidence
      ends there; and unless it is itself the survivor it is superseded and loses its card. */
  lemma SweepConserves(pre: Tables, owner: nat, moment: int, rows: seq<Claim>, post: Tables, merged: nat, a: Claim) returns (s: Claim)
    requires SweepPost(pre, owner, moment, rows, post, merged) && a in rows
    ensures s in rows && Linked(rows, a, s)
    ensures forall b | b in rows && Linked(rows, a, b) :: KeptOver(pre, owner, s, b)
    ensures post.claims.Keys == pre.claims.Keys && post.evidence.Keys == pre.evidence.Keys
    ensures EvidenceOf(pre, owner, a.id) <= EvidenceOf(post, owner, s.id)
    ensures a != s ==> a.id in post.claims && post.claims[a.id].lifecycle == Superseded && a.id !in post.cards
    ensures a == s ==> a.id in post.claims && post.claims[a.id].lifecycle == a.lifecycle
  {
    hide KeptOver, MergeAll, Outranks, Counts;
    s := Survivor(rows, Counts(pre, owner, rows), a);
    forall b | b in rows && Linked(rows, a, b) ensures KeptOver(pre, owner, s, b) {
      OutranksMeansKept(pre, owner, rows, s, b);
    }
    MergeConserves(pre, owner, moment, rows, post.items, a);
  }

  lemma MergeConserves(pre: Tables, owner: nat, moment: int, rows: seq<Claim>, items: seq<Item>, a: Claim)
    requires RowsOf(pre, owner, rows) && a in rows
    ensures var after, s := MergeAll(pre, SweepMerge(pre, owner, moment, rows), items), Survivor(rows, Counts(pre, owner, rows), a);
            && after.claims.Keys == pre.claims.Keys && after.evidence.Keys == pre.evidence.Keys
            && a.id in after.claims && EvidenceOf(pre, owner, a.id) <= EvidenceOf(after, owner, s.id)
            && (a != s ==> after.claims[a.id].lifecycle == Superseded && a.id !in after.cards)
            && (a == s ==> after.claims[a.id].lifecycle == a.lifecycle)
  {
    hide Linked, IsSurvivor, MergedClaim, MovedEvidence, Counts, ClaimsAfter, EvidenceAfter, CardsAfter;
    var m, s := SweepMerge(pre, owner, moment, rows), Survivor(rows, Counts(pre, owner, rows), a);
    SigmaWellFormed(pre, owner, moment, rows);
    SigmaAt(pre, owner, rows, a);
    assert m.sigma[a.id] == s.id;
    EvidenceLandsOnSurvivor(pre, m, items, s.id);
    LosersRetireSurvivorsStay(pre, m, items, a.id);
    MergeKeepsEveryRow(pre, m, items);
  }

  /** The pairs of the items a sweep opens are disjoint from each other and from the pairs of
      every unresolved item that was there before. */
  lemma OpenedPairsDisjoint(pre: Tables, owner: nat, moment: int, rows: seq<Claim>, post: Tables, merged: nat, k: nat, l: nat)
    requires SweepPost(pre, owner, moment, rows, post, merged)
    requires l < k && |pre.items| <= k < |post.items| && OpenMerge(post.items[l], owner)
    ensures post.items[l].refs !! post.items[k].refs
  {
    var before := post.items[..k];
    assert before[l] == post.items[l];
    assert post.items[l].refs <= ClaimedRefs(before, owner);
  }

  /** The survivor that an opened item proposes is one of its pair, and the other has no better case. */
  lemma OpenedItemsProposeTheBetter(pre: Tables, owner: nat, moment: int, rows: seq<Claim>, post: Tables, merged: nat, k: nat)
    returns (s: Claim, b: Claim)
    requires SweepPost(pre, owner, moment, rows, post, merged) && |pre.items| <= k < |post.items|
    ensures Suspicious(pre, rows, s, b) && post.items[k] == Item(owner, true, {s.id, b.id}, true, s.id)
    ensures KeptOver(pre, owner, s, b)
  {
    hide KeptOver, MergeAll, Suspicious, ItemFor, Losers, RowsOf, AllSuspicionsClaimed, InboxGrew;
    var x, y := PairOfOpened(pre, owner, rows, post.items, k);
    s, b := ItemProposesTheBetter(pre, owner, rows, post.items[k], x, y);
  }

  lemma PairOfOpened(t: Tables, owner: nat, rows: seq<Claim>, items: seq<Item>, k: nat) returns (x: Claim, y: Claim)
    requires InboxGrew(t, owner, rows, items) && |t.items| <= k < |items|
    ensures ItemFor(t, rows, Counts(t, owner, rows), owner, items[k], x, y)
  {
    hide ItemFor;
    assert items[k].refs !! ClaimedRefs(items[..k], owner);
    x, y :| ItemFor(t, rows, Counts(t, owner, rows), owner, items[k], x, y);
  }

  lemma ItemProposesTheBetter(t: Tables, owner: nat, rows: seq<Claim>, item: Item, x: Claim, y: Claim) returns (s: Claim, b: Claim)
    requires ItemFor(t, rows, Counts(t, owner, rows), owner, item, x, y)
    ensures Suspicious(t, rows, s, b) && item == Item(owner, true, {s.id, b.id}, true, s.id)
    ensures KeptOver(t, owner, s, b)
  {
    hide KeptOver, Counts, Linked, Outranks, CardsClose, SameBucket, DuplicateKind;
    SuspiciousSymmetric(t, rows, x, y);
    s := Preferred(x, y, Counts(t, owner, rows));
    b := if s == x then y else x;
    assert {x.id, y.id} == {s.id, b.id};
    OutranksMeansKept(t, owner, rows, s, b);
  }

  /** A sweep touches only its owner's live claims and their evidence and cards. */
  lemma OnlyTheOwnersLiveClaimsChange(pre: Tables, owner: nat, moment: int, rows: seq<Claim>, post: Tables, merged: nat, id: nat)
    requires SweepPost(pre, owner, moment, rows, post, merged) && id in pre.claims
    requires pre.claims[id].owner != owner || pre.claims[id].lifecycle !in {Candidate, Active, Historical}
    ensures id in post.claims && post.claims[id] == pre.claims[id]
    ensures id in post.cards <==> id in pre.cards
    ensures EvidenceOf(post, owner, id) == EvidenceOf(pre, owner, id)
    ensures forall e | e in pre.evidence && pre.evidence[e].owner != owner :: e in post.evidence && post.evidence[e] == pre.evidence[e]
  {
    hide InboxGrew, AllSuspicionsClaimed, MergeAll, RowsOf, EvidenceOf, WellFormed;
    SigmaWellFormed(pre, owner, moment, rows);
    NotScanned(pre, owner, rows, id);
    OutsideIsUntouched(pre, SweepMerge(pre, owner, moment, rows), post.items, id);
  }

  lemma NotScanned(t: Tables, owner: nat, rows: seq<Claim>, id: nat)
    requires RowsOf(t, owner, rows) && id in t.claims
    requires t.claims[id].owner != owner || t.claims[id].lifecycle !in {Candidate, Active, Historical}
    ensures id !in Sigma(t, owner, rows)
  {
    assert id !in LiveIds(t, owner);
  }
}
