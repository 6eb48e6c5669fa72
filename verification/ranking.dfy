/** Reciprocal rank fusion of the keyword and the semantic list, and the final order of hits. */
module Ranking {

  const RRF_K := 60

  /** What position `p` of a list is worth. */
  function Share(p: nat): (s: real)
    ensures s > 0.0
  {
    1.0 / ((RRF_K + p + 1) as real)
  }

  /** The share of a card in one list. */
  function Contribution(list: seq<nat>, id: nat): real {
    if list == [] then 0.0
    else Contribution(list[..|list| - 1], id) + (if list[|list| - 1] == id then Share(|list| - 1) else 0.0)
  }

  function Score(keyword: seq<nat>, semantic: seq<nat>, id: nat): real {
    Contribution(keyword, id) + Contribution(semantic, id)
  }

  // ---- The fusion loop --------------------------------------------------------------------------

  /** Adds the shares of one list to the scores collected so far. */
  method AddList(list: seq<nat>, before: map<nat, real>) returns (fused: map<nat, real>)
    ensures fused.Keys == before.Keys + set i | 0 <= i < |list| :: list[i]
    ensures forall id | id in fused :: fused[id] == (if id in before then before[id] else 0.0) + Contribution(list, id)
  {
    fused := before;
    for p := 0 to |list|
      invariant fused.Keys == before.Keys + set i | 0 <= i < p :: list[i]
      invariant forall id | id in fused :: fused[id] == (if id in before then before[id] else 0.0) + Contribution(list[..p], id)
    {
      var id := list[p];
      assert list[..p + 1][..p] == list[..p];
      Absent(list[..p], id);
      var known := if id in fused then fused[id] else 0.0;
      fused := fused[id := known + 1.0 / ((RRF_K + p + 1) as real)];
    }
    assert list[..|list|] == list;
  }

  lemma {:induction false} Absent(list: seq<nat>, id: nat)
    ensures id !in list ==> Contribution(list, id) == 0.0
  {
    if list != [] {
      Absent(list[..|list| - 1], id);
    }
  }

  method Fuse(keyword: seq<nat>, semantic: seq<nat>) returns (fused: map<nat, real>)
    ensures forall id :: id in fused <==> id in keyword || id in semantic
    ensures forall id | id in fused :: fused[id] == Score(keyword, semantic, id)
  {
    var first := AddList(keyword, map[]);
    fused := AddList(semantic, first);
    forall id | id in fused ensures fused[id] == Score(keyword, semantic, id) {
      Absent(keyword, id);
    }
  }

  // ---- What a score says ------------------------------------------------------------------------

  ghost predicate Distinct(list: seq<nat>) {
    forall i, j | 0 <= i < j < |list| :: list[i] != list[j]
  }

  lemma {:induction false} ContributionAt(list: seq<nat>, p: nat)
    requires Distinct(list) && p < |list|
    ensures Contribution(list, list[p]) == Share(p)
  {
    var front := list[..|list| - 1];
    if p == |list| - 1 {
      assert list[p] !in front;
      Absent(front, list[p]);
    } else {
      assert front[p] == list[p];
      ContributionAt(front, p);
    }
  }

  lemma ShareFalls(p: nat, q: nat)
    requires p < q
    ensures Share(p) > Share(q)
  {
    var a, b := (RRF_K + p + 1) as real, (RRF_K + q + 1) as real;
    assert a < b;
    assert 1.0 / a > 1.0 / b by {
      assert 1.0 / a - 1.0 / b == (b - a) / (a * b);
    }
  }

  /** Two shares of places below 62 outweigh one share of any place. */
  lemma TwoSharesBeatOne(p: nat, q: nat, r: nat)
    requires p <= 60 && q <= 60
    ensures Share(p) + Share(q) > Share(r)
  {
    if p < 60 {
      ShareFalls(p, 60);
    }
    if q < 60 {
      ShareFalls(q, 60);
    }
    if r > 0 {
      ShareFalls(0, r);
    }
    assert Share(60) == 1.0 / 121.0 && Share(0) == 1.0 / 61.0;
  }

  ghost predicate BothBeatOne(cap: nat) {
    forall k: seq<nat>, s: seq<nat>, a: nat, b: nat |
      && Distinct(k) && Distinct(s) && |k| <= cap && |s| <= cap
      && a in k && a in s && ((b in k && b !in s) || (b !in k && b in s)) ::
      Score(k, s, a) > Score(k, s, b)
  }

  lemma BothBeatsOne(k: seq<nat>, s: seq<nat>, a: nat, b: nat)
    requires Distinct(k) && Distinct(s) && |k| <= 61 && |s| <= 61
    requires a in k && a in s && ((b in k && b !in s) || (b !in k && b in s))
    ensures Score(k, s, a) > Score(k, s, b)
  {
    var p :| 0 <= p < |k| && k[p] == a;
    var q :| 0 <= q < |s| && s[q] == a;
    ContributionAt(k, p);
    ContributionAt(s, q);
    Absent(k, b);
    Absent(s, b);
    if b in k {
      var r :| 0 <= r < |k| && k[r] == b;
      ContributionAt(k, r);
      TwoSharesBeatOne(p, q, r);
    } else {
      var r :| 0 <= r < |s| && s[r] == b;
      ContributionAt(s, r);
      TwoSharesBeatOne(p, q, r);
    }
  }

  /** Being in both lists outranks being in one for every pair of duplicate-free lists exactly
      when the lists are capped at 61 entries; the search caps them at 50. */
  lemma BothBeatOneIffCapped(cap: nat)
    ensures BothBeatOne(cap) <==> cap <= 61
  {
    if cap <= 61 {
      forall k: seq<nat>, s: seq<nat>, a: nat, b: nat |
        && Distinct(k) && Distinct(s) && |k| <= cap && |s| <= cap
        && a in k && a in s && ((b in k && b !in s) || (b !in k && b in s))
        ensures Score(k, s, a) > Score(k, s, b)
      {
        BothBeatsOne(k, s, a, b);
      }
    } else {
      // Card 0 is last in both lists of 62, card 1 first in one of them: a tie.
      var k := seq(62, i => if i == 61 then 0 else i + 1);
      var s := seq(62, i => if i == 61 then 0 else i + 100);
      ContributionAt(k, 61);
      ContributionAt(s, 61);
      ContributionAt(k, 0);
      assert k[61] == 0 && s[61] == 0 && k[0] == 1;
      Absent(s, 1);
      assert Share(61) == 1.0 / 122.0 && Share(0) == 1.0 / 61.0;
      assert Score(k, s, 0) == Score(k, s, 1);
      assert 0 in k && 0 in s && 1 in k && 1 !in s;
    }
  }

  /** A card stands at least as high in a list as another: the other is absent, or comes later. */
  ghost predicate AtLeastAsHigh(list: seq<nat>, a: nat, b: nat) {
    b in list ==> exists p, q :: 0 <= p <= q < |list| && list[p] == a && list[q] == b
  }

  ghost predicate Higher(list: seq<nat>, a: nat, b: nat) {
    a in list && a != b && AtLeastAsHigh(list, a, b)
  }

  lemma ContributionMonotone(list: seq<nat>, a: nat, b: nat)
    requires Distinct(list) && AtLeastAsHigh(list, a, b)
    ensures Contribution(list, a) >= Contribution(list, b)
    ensures Higher(list, a, b) ==> Contribution(list, a) > Contribution(list, b)
  {
    if b in list {
      var p, q :| 0 <= p <= q < |list| && list[p] == a && list[q] == b;
      ContributionAt(list, p);
      ContributionAt(list, q);
      if p < q {
        ShareFalls(p, q);
      }
    } else {
      Absent(list, b);
      Absent(list, a);
      if a in list {
        var p :| 0 <= p < |list| && list[p] == a;
        ContributionAt(list, p);
      }
    }
  }

  /** Dominance: at least as high in both lists and higher in one means a higher score. */
  lemma DominanceWins(k: seq<nat>, s: seq<nat>, a: nat, b: nat)
    requires Distinct(k) && Distinct(s) && AtLeastAsHigh(k, a, b) && AtLeastAsHigh(s, a, b)
    requires Higher(k, a, b) || Higher(s, a, b)
    ensures Score(k, s, a) > Score(k, s, b)
  {
    ContributionMonotone(k, a, b);
    ContributionMonotone(s, a, b);
  }

  // ---- The final order ----------------------------------------------------------------------------

  datatype Candidate = Candidate(id: nat, retired: bool, secret: bool, recent: bool)

  datatype Scored = Scored(id: nat, score: real, recent: bool)

  predicate Eligible(c: Candidate) {
    !c.retired && !c.secret
  }

  /** Score first, then freshness, then id. */
  predicate NotAfter(a: Scored, b: Scored) {
    || a.score > b.score
    || (a.score == b.score && a.recent && !b.recent)
    || (a.score == b.score && a.recent == b.recent && a.id <= b.id)
  }

  ghost predicate InOrder(r: seq<Scored>) {
    forall i, j | 0 <= i < j < |r| :: NotAfter(r[i], r[j])
  }

  method InsertScored(sorted: seq<Scored>, x: Scored) returns (r: seq<Scored>, ghost at: nat)
    requires InOrder(sorted)
    ensures InOrder(r) && at <= |sorted| && r == sorted[..at] + [x] + sorted[at..]
  {
    var i: nat := 0;
    while i < |sorted| && NotAfter(sorted[i], x)
      invariant 0 <= i <= |sorted| && forall k | 0 <= k < i :: NotAfter(sorted[k], x)
    {
      i := i + 1;
    }
    r, at := sorted[..i] + [x] + sorted[i..], i;
    forall k | i <= k < |sorted| ensures NotAfter(x, sorted[k]) {
      assert k == i || NotAfter(sorted[i], sorted[k]);
    }
  }

  /** A card as a ranking shows it: its id, and whether it is fresh. */
  datatype Shown = Shown(id: nat, recent: bool)

  function EligibleCards(candidates: seq<Candidate>): seq<Shown> {
    if candidates == [] then []
    else
      var last := candidates[|candidates| - 1];
      EligibleCards(candidates[..|candidates| - 1]) + (if Eligible(last) then [Shown(last.id, last.recent)] else [])
  }

  function CardsOf(r: seq<Scored>): (cards: seq<Shown>)
    ensures |cards| == |r| && forall i | 0 <= i < |r| :: cards[i] == Shown(r[i].id, r[i].recent)
  {
    seq(|r|, i requires 0 <= i < |r| => Shown(r[i].id, r[i].recent))
  }

  /** Ranks the candidates that pass the hard filters: nothing is added, lost or repeated, and the
      order is by fused score, then freshness, then id. A single candidate needs no fusion. */
  method RankHits(candidates: seq<Candidate>, keyword: seq<nat>, semantic: seq<nat>) returns (ranked: seq<Scored>)
    ensures multiset(CardsOf(ranked)) == multiset(EligibleCards(candidates))
    ensures InOrder(ranked)
    ensures |EligibleCards(candidates)| != 1 ==> forall h | h in ranked :: h.score == Score(keyword, semantic, h.id)
    ensures |EligibleCards(candidates)| == 1 ==> ranked[0].score == 0.0
    ensures forall card :: card in CardsOf(ranked) <==>
              exists c :: c in candidates && c.id == card.id && c.recent == card.recent && !c.retired && !c.secret
    ensures forall i, j | 0 <= i < j < |ranked| ::
              || ranked[i].score > ranked[j].score
              || (ranked[i].score == ranked[j].score
                  && if ranked[i].recent != ranked[j].recent then ranked[i].recent else ranked[i].id <= ranked[j].id)
  {
    hide Score, CardsOf, EligibleCards, NotAfter, Eligible;
    var fused := Fuse(keyword, semantic);
    ranked := [];
    NothingRanked(candidates);
    for i := 0 to |candidates|
      invariant InOrder(ranked) && multiset(CardsOf(ranked)) == multiset(EligibleCards(candidates[..i]))
      invariant forall h | h in ranked :: h.score == Score(keyword, semantic, h.id)
    {
      var c := candidates[i];
      EligibleNext(candidates, i);
      if Eligible(c) {
        NoScore(keyword, semantic, c.id);
        var x := Scored(c.id, if c.id in fused then fused[c.id] else 0.0, c.recent);
        ghost var before := ranked;
        ghost var at;
        ranked, at := InsertScored(ranked, x);
        CardsInserted(before, x, at);
        assert forall h | h in ranked :: h == x || h in before;
      }
    }
    assert candidates[..|candidates|] == candidates;
    CardsSize(ranked, EligibleCards(candidates));
    if |ranked| == 1 {
      OneHit(ranked);
      ranked := [ranked[0].(score := 0.0)];
    }
    RankedMeans(candidates, ranked);
  }

  /** What is shown are the candidates that are neither retired nor secret, in order of score, then fresh
      ones first, then by id. */
  lemma RankedMeans(candidates: seq<Candidate>, ranked: seq<Scored>)
    requires multiset(CardsOf(ranked)) == multiset(EligibleCards(candidates)) && InOrder(ranked)
    ensures forall card :: card in CardsOf(ranked) <==>
              exists c :: c in candidates && c.id == card.id && c.recent == card.recent && !c.retired && !c.secret
    ensures forall i, j | 0 <= i < j < |ranked| ::
              || ranked[i].score > ranked[j].score
              || (ranked[i].score == ranked[j].score
                  && if ranked[i].recent != ranked[j].recent then ranked[i].recent else ranked[i].id <= ranked[j].id)
  {
    hide CardsOf, EligibleCards;
    forall card
      ensures card in CardsOf(ranked) <==> exists c :: c in candidates && c.id == card.id && c.recent == card.recent && !c.retired && !c.secret
    {
      ShownIsEligible(candidates, card);
      assert card in CardsOf(ranked) <==> card in multiset(CardsOf(ranked));
      assert card in EligibleCards(candidates) <==> card in multiset(EligibleCards(candidates));
    }
  }

  lemma {:induction false} ShownIsEligible(candidates: seq<Candidate>, card: Shown)
    ensures card in EligibleCards(candidates) <==>
            exists c :: c in candidates && c.id == card.id && c.recent == card.recent && !c.retired && !c.secret
  {
    if candidates != [] {
      var front, last := candidates[..|candidates| - 1], candidates[|candidates| - 1];
      ShownIsEligible(front, card);
      assert candidates == front + [last];
      if c :| c in front && c.id == card.id && c.recent == card.recent && !c.retired && !c.secret {
        assert c in candidates;
      }
    }
  }

  lemma NothingRanked(candidates: seq<Candidate>)
    ensures CardsOf([]) == [] && EligibleCards(candidates[..0]) == []
  {
  }

  lemma EligibleNext(candidates: seq<Candidate>, i: nat)
    requires i < |candidates|
    ensures EligibleCards(candidates[..i + 1]) == EligibleCards(candidates[..i]) + (if Eligible(candidates[i]) then [Shown(candidates[i].id, candidates[i].recent)] else [])
  {
    assert candidates[..i + 1][..i] == candidates[..i];
  }

  lemma NoScore(keyword: seq<nat>, semantic: seq<nat>, id: nat)
    ensures id !in keyword && id !in semantic ==> Score(keyword, semantic, id) == 0.0
  {
    Absent(keyword, id);
    Absent(semantic, id);
  }

  lemma OneHit(r: seq<Scored>)
    requires |r| == 1
    ensures CardsOf([r[0].(score := 0.0)]) == CardsOf(r)
  {
  }

  lemma CardsSize(r: seq<Scored>, cards: seq<Shown>)
    requires multiset(CardsOf(r)) == multiset(cards)
    ensures |r| == |cards|
  {
    assert |multiset(CardsOf(r))| == |multiset(cards)|;
  }

  lemma CardsInserted(before: seq<Scored>, x: Scored, at: nat)
    requires at <= |before|
    ensures multiset(CardsOf(before[..at] + [x] + before[at..])) == multiset(CardsOf(before)) + multiset{Shown(x.id, x.recent)}
  {
    CardsConcat(before[..at] + [x], before[at..]);
    CardsConcat(before[..at], [x]);
    CardsConcat(before[..at], before[at..]);
    assert before == before[..at] + before[at..];
    assert CardsOf([x]) == [Shown(x.id, x.recent)];
  }

  lemma CardsConcat(a: seq<Scored>, b: seq<Scored>)
    ensures CardsOf(a + b) == CardsOf(a) + CardsOf(b)
  {
  }

  /** In any list in this order, a card in both capped lists stands before every card in one. */
  lemma BothListsFirst(ranked: seq<Scored>, k: seq<nat>, s: seq<nat>, i: nat, j: nat)
    requires InOrder(ranked) && forall h | h in ranked :: h.score == Score(k, s, h.id)
    requires Distinct(k) && Distinct(s) && |k| <= 50 && |s| <= 50 && i < |ranked| && j < |ranked|
    requires ranked[i].id in k && ranked[i].id in s
    requires (ranked[j].id in k && ranked[j].id !in s) || (ranked[j].id !in k && ranked[j].id in s)
    ensures i < j
  {
    BothBeatsOne(k, s, ranked[i].id, ranked[j].id);
    assert ranked[i] in ranked && ranked[j] in ranked;
  }

  /** In any list in this order, a card that is at least as high in both lists as another, and higher
      in one, stands before it. */
  lemma DominantFirst(ranked: seq<Scored>, k: seq<nat>, s: seq<nat>, i: nat, j: nat)
    requires InOrder(ranked) && forall h | h in ranked :: h.score == Score(k, s, h.id)
    requires Distinct(k) && Distinct(s) && i < |ranked| && j < |ranked|
    requires AtLeastAsHigh(k, ranked[i].id, ranked[j].id) && AtLeastAsHigh(s, ranked[i].id, ranked[j].id)
    requires Higher(k, ranked[i].id, ranked[j].id) || Higher(s, ranked[i].id, ranked[j].id)
    ensures i < j
  {
    DominanceWins(k, s, ranked[i].id, ranked[j].id);
    assert ranked[i] in ranked && ranked[j] in ranked;
  }
}
