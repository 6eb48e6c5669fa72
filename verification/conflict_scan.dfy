/** The daily scan for contradicting claims, and the verdicts that close its findings. */
module ConflictScan {

  const MAX_CONFLICT_PAIRS := 200

  /** A claim row as the scan reads it: an empty topic means none, `accepted` is established or an
      active class-A rule, `candidate` a claim still waiting for promotion. */
  datatype Claim = Claim(id: nat, topic: string, negative: bool, accepted: bool, candidate: bool)

  datatype Verdict = Undecided | ResolvedByUser | Tolerated

  datatype Conflict = Conflict(participants: seq<nat>, verdict: Verdict)

  datatype ItemState = Open | Approved | Rejected

  /** `ofConflict` tells conflict items from other review items. */
  datatype Item = Item(ofConflict: bool, refs: seq<nat>, state: ItemState)

  function Pair(refs: seq<nat>): set<nat> {
    set r | r in refs
  }

  function SortedPair(a: nat, b: nat): seq<nat> {
    if a < b then [a, b] else [b, a]
  }

  /** The two claims contradict each other under one topic. */
  predicate Contradicts(candidate: Claim, other: Claim) {
    && candidate.candidate && other.accepted && candidate.topic != "" && candidate.topic == other.topic
    && candidate.negative != other.negative && candidate.id != other.id
  }

  /** What is left to compare for a candidate with a topic. */
  lemma ContradictsWhen(candidate: Claim, other: Claim)
    requires candidate.candidate && candidate.topic != ""
    ensures Contradicts(candidate, other) <==>
            other.accepted && other.topic == candidate.topic && other.id != candidate.id && other.negative != candidate.negative
  {
  }

  predicate OpenConflictItem(i: Item) {
    i.ofConflict && i.state.Open?
  }

  // ---- Invariant ----------------------------------------------------------------------------------

  /** No unordered pair has two conflict rows. */
  ghost predicate PairsOnce(conflicts: seq<Conflict>) {
    forall i, j | 0 <= i < j < |conflicts| :: Pair(conflicts[i].participants) != Pair(conflicts[j].participants)
  }

  ghost predicate HasOpenItem(items: seq<Item>, refs: seq<nat>) {
    exists k :: 0 <= k < |items| && OpenConflictItem(items[k]) && items[k].refs == refs
  }

  /** An undecided conflict is still before the owner. */
  ghost predicate UndecidedAreOpen(conflicts: seq<Conflict>, items: seq<Item>) {
    forall i | 0 <= i < |conflicts| && conflicts[i].verdict.Undecided? :: HasOpenItem(items, conflicts[i].participants)
  }

  ghost predicate Inv(conflicts: seq<Conflict>, items: seq<Item>) {
    PairsOnce(conflicts) && UndecidedAreOpen(conflicts, items)
  }

  /** Pairs that must not be reported again: under an open item, or decided. */
  function KnownPairs(conflicts: seq<Conflict>, items: seq<Item>): set<set<nat>> {
    (set k | 0 <= k < |items| && OpenConflictItem(items[k]) :: Pair(items[k].refs))
    + (set i | 0 <= i < |conflicts| && !conflicts[i].verdict.Undecided? :: Pair(conflicts[i].participants))
  }

  /** Under the invariant the known pairs include the pair of every conflict row there is. */
  lemma EveryConflictIsKnown(conflicts: seq<Conflict>, items: seq<Item>, i: nat)
    requires UndecidedAreOpen(conflicts, items) && i < |conflicts|
    ensures Pair(conflicts[i].participants) in KnownPairs(conflicts, items)
  {
    if conflicts[i].verdict.Undecided? {
      assert HasOpenItem(items, conflicts[i].participants);
    }
  }

  function OpenTopics(items: seq<Item>, rows: seq<Claim>): set<string> {
    set k, c | 0 <= k < |items| && OpenConflictItem(items[k]) && c in rows && c.id in items[k].refs :: c.topic
  }

  // ---- The scan -----------------------------------------------------------------------------------

  /** The conflict row of a scanned candidate and a scanned claim that contradicts it. */
  ghost predicate FoundBy(rows: seq<Claim>, c: Conflict, candidate: Claim) {
    && candidate in rows
    && exists other :: other in rows && Contradicts(candidate, other) && c == Conflict(SortedPair(other.id, candidate.id), Undecided)
  }

  /** What a scan added: one undecided row and one open item per finding, `who` naming the candidate of
      each. All findings of a topic come from one candidate. */
  ghost predicate Findings(rows: seq<Claim>, before: seq<Conflict>, itemsBefore: seq<Item>, conflicts: seq<Conflict>, items: seq<Item>, who: seq<Claim>) {
    && before <= conflicts && itemsBefore <= items
    && |conflicts| == |before| + |who| && |items| == |itemsBefore| + |who|
    && (forall i | 0 <= i < |who| :: FoundBy(rows, conflicts[|before| + i], who[i])
                                    && items[|itemsBefore| + i] == Item(true, conflicts[|before| + i].participants, Open))
    && (forall i, j | 0 <= i < |who| && 0 <= j < |who| && who[i].topic == who[j].topic :: who[i] == who[j])
  }

  /** A row that names the candidate and an accepted claim of the same topic and of the opposite polarity,
      in the order of their ids. */
  ghost predicate NamesOpposites(rows: seq<Claim>, c: Conflict, a: Claim) {
    && a in rows && a.candidate && a.topic != ""
    && exists b :: b in rows && b.accepted && b.topic == a.topic && b.negative != a.negative && b.id != a.id
                   && c.participants == if a.id < b.id then [a.id, b.id] else [b.id, a.id]
  }

  /** Every finding of a scan is such a row; so where all claims agree there is none. */
  lemma FindingsNameOpposites(rows: seq<Claim>, before: seq<Conflict>, itemsBefore: seq<Item>, conflicts: seq<Conflict>, items: seq<Item>, who: seq<Claim>)
    requires Findings(rows, before, itemsBefore, conflicts, items, who)
    ensures forall i | 0 <= i < |who| :: NamesOpposites(rows, conflicts[|before| + i], who[i])
    ensures (forall a, b | a in rows && b in rows :: a.negative == b.negative) ==> who == [] && conflicts == before && items == itemsBefore
  {
    forall i | 0 <= i < |who| ensures NamesOpposites(rows, conflicts[|before| + i], who[i]) {
      assert FoundBy(rows, conflicts[|before| + i], who[i]);
      var o :| o in rows && Contradicts(who[i], o) && conflicts[|before| + i] == Conflict(SortedPair(o.id, who[i].id), Undecided);
    }
    if who != [] {
      assert NamesOpposites(rows, conflicts[|before| + 0], who[0]);
    }
  }

  /** The topic of a claim that an unresolved conflict item refers to. */
  ghost predicate UnderReview(items: seq<Item>, rows: seq<Claim>, topic: string) {
    exists k, c :: 0 <= k < |items| && items[k].ofConflict && items[k].state.Open? && c in rows && c.id in items[k].refs && c.topic == topic
  }

  lemma OpenTopicsAreUnderReview(items: seq<Item>, rows: seq<Claim>, topic: string)
    ensures topic in OpenTopics(items, rows) <==> UnderReview(items, rows, topic)
  {
  }

  lemma CoveredMeans(rows: seq<Claim>, known: set<set<nat>>, c: Claim)
    requires Covered(rows, known, c) && c.candidate && c.topic != ""
    ensures forall o | o in rows && o.accepted && o.topic == c.topic && o.negative != c.negative && o.id != c.id :: {o.id, c.id} in known
  {
  }

  /** The finding in row `n`, with its item in row `m`, was not known when it was made. */
  ghost predicate NewAt(conflicts: seq<Conflict>, items: seq<Item>, n: nat, m: nat) {
    n < |conflicts| && m < |items| && Pair(conflicts[n].participants) !in KnownPairs(conflicts[..n], items[..m])
  }

  /** No finding repeats a pair that was known when it was made. */
  ghost predicate NewPairs(before: seq<Conflict>, itemsBefore: seq<Item>, conflicts: seq<Conflict>, items: seq<Item>) {
    && |before| <= |conflicts| && |items| - |itemsBefore| == |conflicts| - |before|
    && forall n: nat, m: nat | |before| <= n < |conflicts| && m - |itemsBefore| == n - |before| :: NewAt(conflicts, items, n, m)
  }

  lemma NewPairsExtend(before: seq<Conflict>, itemsBefore: seq<Item>, conflicts: seq<Conflict>, items: seq<Item>, refs: seq<nat>)
    requires NewPairs(before, itemsBefore, conflicts, items) && Pair(refs) !in KnownPairs(conflicts, items)
    ensures NewPairs(before, itemsBefore, conflicts + [Conflict(refs, Undecided)], items + [Item(true, refs, Open)])
  {
    hide KnownPairs;
    var c, t := conflicts + [Conflict(refs, Undecided)], items + [Item(true, refs, Open)];
    forall n: nat, m: nat | |before| <= n < |c| && m - |itemsBefore| == n - |before|
      ensures NewAt(c, t, n, m)
    {
      if n < |conflicts| {
        assert NewAt(conflicts, items, n, m);
        assert c[..n] == conflicts[..n] && t[..m] == items[..m];
      } else {
        assert c[..n] == conflicts && t[..m] == items;
      }
    }
  }

  /** Every contradiction of the candidate is known. */
  ghost predicate Covered(rows: seq<Claim>, known: set<set<nat>>, candidate: Claim) {
    forall o | o in rows && Contradicts(candidate, o) :: {o.id, candidate.id} in known
  }

  lemma PairOfSorted(a: nat, b: nat)
    ensures Pair(SortedPair(a, b)) == {a, b}
  {
  }

  /** A row for a pair that is not known keeps the invariant and makes exactly that pair known. */
  lemma ReportKeepsInv(conflicts: seq<Conflict>, items: seq<Item>, refs: seq<nat>)
    requires Inv(conflicts, items) && Pair(refs) !in KnownPairs(conflicts, items)
    ensures Inv(conflicts + [Conflict(refs, Undecided)], items + [Item(true, refs, Open)])
    ensures KnownPairs(conflicts + [Conflict(refs, Undecided)], items + [Item(true, refs, Open)]) == KnownPairs(conflicts, items) + {Pair(refs)}
  {
    var c, t := conflicts + [Conflict(refs, Undecided)], items + [Item(true, refs, Open)];
    forall i | 0 <= i < |conflicts| ensures Pair(conflicts[i].participants) != Pair(refs) {
      EveryConflictIsKnown(conflicts, items, i);
    }
    assert t[|items|] == Item(true, refs, Open);
    forall i | 0 <= i < |c| && c[i].verdict.Undecided? ensures HasOpenItem(t, c[i].participants) {
      if i < |conflicts| {
        assert HasOpenItem(items, conflicts[i].participants);
        var k :| 0 <= k < |items| && OpenConflictItem(items[k]) && items[k].refs == conflicts[i].participants;
        assert t[k] == items[k];
      }
    }
    KnownAppend(conflicts, items, refs);
  }

  lemma KnownAppend(conflicts: seq<Conflict>, items: seq<Item>, refs: seq<nat>)
    ensures KnownPairs(conflicts + [Conflict(refs, Undecided)], items + [Item(true, refs, Open)]) == KnownPairs(conflicts, items) + {Pair(refs)}
  {
    var c, t := conflicts + [Conflict(refs, Undecided)], items + [Item(true, refs, Open)];
    assert forall k | 0 <= k < |items| :: t[k] == items[k];
    assert forall i | 0 <= i < |conflicts| :: c[i] == conflicts[i];
    assert t[|items|] == Item(true, refs, Open) && c[|conflicts|] == Conflict(refs, Undecided);
    forall p ensures p in KnownPairs(c, t) <==> p in KnownPairs(conflicts, items) || p == Pair(refs) {
      if p in KnownPairs(conflicts, items) {
        if k :| 0 <= k < |items| && OpenConflictItem(items[k]) && Pair(items[k].refs) == p {
          assert OpenConflictItem(t[k]) && Pair(t[k].refs) == p;
        } else {
          var i :| 0 <= i < |conflicts| && !conflicts[i].verdict.Undecided? && Pair(conflicts[i].participants) == p;
          assert !c[i].verdict.Undecided? && Pair(c[i].participants) == p;
        }
      }
      if p == Pair(refs) {
        assert OpenConflictItem(t[|items|]) && Pair(t[|items|].refs) == p;
      }
    }
  }

  lemma FindingsExtend(rows: seq<Claim>, before: seq<Conflict>, itemsBefore: seq<Item>, conflicts: seq<Conflict>, items: seq<Item>,
                       who: seq<Claim>, candidate: Claim, other: Claim)
    requires Findings(rows, before, itemsBefore, conflicts, items, who)
    requires candidate in rows && other in rows && Contradicts(candidate, other)
    requires forall b | b in who && b.topic == candidate.topic :: b == candidate
    ensures var refs := SortedPair(other.id, candidate.id);
            Findings(rows, before, itemsBefore, conflicts + [Conflict(refs, Undecided)], items + [Item(true, refs, Open)], who + [candidate])
  {
    var refs := SortedPair(other.id, candidate.id);
    var c, t, b := conflicts + [Conflict(refs, Undecided)], items + [Item(true, refs, Open)], who + [candidate];
    forall i | 0 <= i < |b| ensures FoundBy(rows, c[|before| + i], b[i]) && t[|itemsBefore| + i] == Item(true, c[|before| + i].participants, Open) {
      if i < |who| {
        assert c[|before| + i] == conflicts[|before| + i] && t[|itemsBefore| + i] == items[|itemsBefore| + i];
      }
    }
    forall i, j | 0 <= i < |b| && 0 <= j < |b| && b[i].topic == b[j].topic ensures b[i] == b[j] {
      assert i < |who| ==> b[i] in who;
      assert j < |who| ==> b[j] in who;
    }
  }

  // ---- How much a scan reports ----------------------------------------------------------------------

  ghost predicate DistinctIds(rows: seq<Claim>) {
    forall i, j | 0 <= i < j < |rows| :: rows[i].id != rows[j].id
  }

  /** The claims whose contradiction with the candidate is not known. */
  function Unknown(rows: seq<Claim>, known: set<set<nat>>, candidate: Claim): set<nat> {
    set o | o in rows && Contradicts(candidate, o) && {o.id, candidate.id} !in known :: o.id
  }

  function PairsWith(ids: set<nat>, id: nat): set<set<nat>> {
    set o | o in ids :: {o, id}
  }

  /** A candidate under a topic that is not open, with unknown contradictions. */
  predicate Finds(rows: seq<Claim>, known: set<set<nat>>, open: set<string>, c: Claim) {
    c.candidate && c.topic != "" && c.topic !in open && Unknown(rows, known, c) != {}
  }

  /** The first such candidate of its topic. */
  predicate Leads(rows: seq<Claim>, known: set<set<nat>>, open: set<string>, n: nat)
    requires n < |rows|
  {
    && Finds(rows, known, open, rows[n])
    && forall m | 0 <= m < n && rows[m].topic == rows[n].topic :: !Finds(rows, known, open, rows[m])
  }

  /** The number of items opened for the first `n` rows: leaders report all they have, until the cap
      is reached between two candidates. */
  function Created(rows: seq<Claim>, known: set<set<nat>>, open: set<string>, n: nat): nat
    requires n <= |rows|
  {
    if n == 0 then 0
    else
      var c := Created(rows, known, open, n - 1);
      if c < MAX_CONFLICT_PAIRS && Leads(rows, known, open, n - 1) then c + |Unknown(rows, known, rows[n - 1])| else c
  }

  /** The leader of a topic whose turn came before the cap was reached. */
  predicate Reports(rows: seq<Claim>, known: set<set<nat>>, open: set<string>, n: nat)
    requires n < |rows|
  {
    Leads(rows, known, open, n) && Created(rows, known, open, n) < MAX_CONFLICT_PAIRS
  }

  /** The number of items opened for one topic by the first `n` rows. */
  function ItemsFor(rows: seq<Claim>, known: set<set<nat>>, open: set<string>, topic: string, n: nat): nat
    requires n <= |rows|
  {
    if n == 0 then 0
    else
      ItemsFor(rows, known, open, topic, n - 1)
      + if rows[n - 1].topic == topic && Reports(rows, known, open, n - 1) then |Unknown(rows, known, rows[n - 1])| else 0
  }

  function CountTopic(who: seq<Claim>, topic: string): nat {
    if who == [] then 0
    else CountTopic(who[..|who| - 1], topic) + if who[|who| - 1].topic == topic then 1 else 0
  }

  lemma {:induction false} CountRepeated(who: seq<Claim>, more: seq<Claim>, c: Claim, topic: string)
    requires who <= more && forall i | |who| <= i < |more| :: more[i] == c
    ensures CountTopic(more, topic) == CountTopic(who, topic) + if c.topic == topic then |more| - |who| else 0
    decreases |more|
  {
    if |who| < |more| {
      CountRepeated(who, more[..|more| - 1], c, topic);
    } else {
      assert who == more;
    }
  }

  lemma UnknownNext(rows: seq<Claim>, known: set<set<nat>>, candidate: Claim, k: nat)
    requires k < |rows|
    ensures Unknown(rows[..k + 1], known, candidate) ==
            Unknown(rows[..k], known, candidate)
            + if Contradicts(candidate, rows[k]) && {rows[k].id, candidate.id} !in known then {rows[k].id} else {}
  {
    assert rows[..k + 1] == rows[..k] + [rows[k]];
  }

  /** The pair of another claim with the candidate tells the other claim. */
  lemma PairTells(ids: set<nat>, id: nat, other: nat)
    requires other != id && id !in ids
    ensures {other, id} in PairsWith(ids, id) <==> other in ids
  {
    if {other, id} in PairsWith(ids, id) {
      var o :| o in ids && {o, id} == {other, id};
      assert o in {other, id} && other in {o, id};
    }
  }

  lemma PairsGrow(ids: set<nat>, id: nat, other: nat)
    ensures PairsWith(ids + {other}, id) == PairsWith(ids, id) + {{other, id}}
  {
    forall p ensures p in PairsWith(ids + {other}, id) <==> p in PairsWith(ids, id) + {{other, id}} {
      if p == {other, id} {
        assert other in ids + {other};
      }
    }
  }

  /** One more claim compared: it is new exactly when its pair was not known before the candidate's
      turn and has not come up since. */
  lemma UnknownStep(rows: seq<Claim>, known: set<set<nat>>, candidate: Claim, k: nat, ids: set<nat>)
    requires k < |rows| && ids == Unknown(rows[..k], known, candidate) && candidate.id !in ids
    ensures var other, now := rows[k], known + PairsWith(ids, candidate.id);
            if Contradicts(candidate, other) && {other.id, candidate.id} !in now
            then && Unknown(rows[..k + 1], known, candidate) == ids + {other.id} && other.id !in ids
                 && now + {{other.id, candidate.id}} == known + PairsWith(ids + {other.id}, candidate.id)
            else Unknown(rows[..k + 1], known, candidate) == ids
  {
    hide PairsWith;
    UnknownNext(rows, known, candidate, k);
    var other := rows[k];
    if Contradicts(candidate, other) {
      PairTells(ids, candidate.id, other.id);
      PairsGrow(ids, candidate.id, other.id);
    }
  }

  /** One more finding, with everything that a report keeps. */
  lemma ReportStep(rows: seq<Claim>, before: seq<Conflict>, itemsBefore: seq<Item>, conflicts: seq<Conflict>, items: seq<Item>,
                   who: seq<Claim>, candidate: Claim, other: Claim)
    requires Inv(conflicts, items) && Findings(rows, before, itemsBefore, conflicts, items, who) && NewPairs(before, itemsBefore, conflicts, items)
    requires {other.id, candidate.id} !in KnownPairs(conflicts, items)
    requires candidate in rows && other in rows && Contradicts(candidate, other)
    requires forall b | b in who && b.topic == candidate.topic :: b == candidate
    ensures var refs := SortedPair(other.id, candidate.id);
            var c, t := conflicts + [Conflict(refs, Undecided)], items + [Item(true, refs, Open)];
            && Inv(c, t) && Findings(rows, before, itemsBefore, c, t, who + [candidate]) && NewPairs(before, itemsBefore, c, t)
            && KnownPairs(c, t) == KnownPairs(conflicts, items) + {{other.id, candidate.id}}
  {
    hide KnownPairs, Findings, Inv, NewPairs;
    var refs := SortedPair(other.id, candidate.id);
    PairOfSorted(other.id, candidate.id);
    ReportKeepsInv(conflicts, items, refs);
    NewPairsExtend(before, itemsBefore, conflicts, items, refs);
    FindingsExtend(rows, before, itemsBefore, conflicts, items, who, candidate, other);
  }

  /** What a scan learned concerns only the topics it reported. */
  lemma LearnedByTopic(rows: seq<Claim>, before: seq<Conflict>, itemsBefore: seq<Item>, conflicts: seq<Conflict>, items: seq<Item>,
                       who: seq<Claim>, p: set<nat>)
    requires Findings(rows, before, itemsBefore, conflicts, items, who) && p in KnownPairs(conflicts, items)
    ensures p in KnownPairs(before, itemsBefore) || exists b, o :: b in who && o in rows && o.topic == b.topic && p == {o.id, b.id}
  {
    if k :| 0 <= k < |items| && OpenConflictItem(items[k]) && Pair(items[k].refs) == p {
      if k < |itemsBefore| {
        assert items[k] == itemsBefore[k];
      } else {
        FindingPair(rows, before, itemsBefore, conflicts, items, who, k - |itemsBefore|);
      }
    } else {
      var i :| 0 <= i < |conflicts| && !conflicts[i].verdict.Undecided? && Pair(conflicts[i].participants) == p;
      FindingsAreUndecided(rows, before, itemsBefore, conflicts, items, who);
      assert conflicts[i] == before[i];
    }
  }

  lemma FindingsAreUndecided(rows: seq<Claim>, before: seq<Conflict>, itemsBefore: seq<Item>, conflicts: seq<Conflict>, items: seq<Item>, who: seq<Claim>)
    requires Findings(rows, before, itemsBefore, conflicts, items, who)
    ensures forall i | |before| <= i < |conflicts| :: conflicts[i].verdict.Undecided?
  {
    forall i | |before| <= i < |conflicts| ensures conflicts[i].verdict.Undecided? {
      assert FoundBy(rows, conflicts[|before| + (i - |before|)], who[i - |before|]);
    }
  }

  lemma FindingPair(rows: seq<Claim>, before: seq<Conflict>, itemsBefore: seq<Item>, conflicts: seq<Conflict>, items: seq<Item>,
                    who: seq<Claim>, i: nat)
    requires Findings(rows, before, itemsBefore, conflicts, items, who) && i < |who|
    ensures exists b, o :: b in who && o in rows && o.topic == b.topic && Pair(items[|itemsBefore| + i].refs) == {o.id, b.id}
  {
    assert FoundBy(rows, conflicts[|before| + i], who[i]);
    var o :| o in rows && Contradicts(who[i], o) && conflicts[|before| + i] == Conflict(SortedPair(o.id, who[i].id), Undecided);
    assert items[|itemsBefore| + i].refs == SortedPair(o.id, who[i].id);
    PairOfSorted(o.id, who[i].id);
    assert who[i] in who;
  }

  lemma FindersAreRows(rows: seq<Claim>, before: seq<Conflict>, itemsBefore: seq<Item>, conflicts: seq<Conflict>, items: seq<Item>, who: seq<Claim>)
    requires Findings(rows, before, itemsBefore, conflicts, items, who)
    ensures forall b | b in who :: b in rows
  {
    forall i | 0 <= i < |who| ensures who[i] in rows {
      assert FoundBy(rows, conflicts[|before| + i], who[i]);
    }
  }

  /** So a candidate of a topic that was not reported finds what it would have found at the start. */
  lemma UnknownUnchanged(rows: seq<Claim>, before: seq<Conflict>, itemsBefore: seq<Item>, conflicts: seq<Conflict>, items: seq<Item>,
                         who: seq<Claim>, c: Claim)
    requires Findings(rows, before, itemsBefore, conflicts, items, who) && DistinctIds(rows) && c in rows
    requires KnownPairs(before, itemsBefore) <= KnownPairs(conflicts, items)
    requires forall b | b in who :: b.topic != c.topic
    ensures Unknown(rows, KnownPairs(conflicts, items), c) == Unknown(rows, KnownPairs(before, itemsBefore), c)
  {
    hide KnownPairs, Findings;
    FindersAreRows(rows, before, itemsBefore, conflicts, items, who);
    forall o | o in rows && Contradicts(c, o) && {o.id, c.id} in KnownPairs(conflicts, items)
      ensures {o.id, c.id} in KnownPairs(before, itemsBefore)
    {
      LearnedByTopic(rows, before, itemsBefore, conflicts, items, who, {o.id, c.id});
      forall b, x | b in who && x in rows && x.topic == b.topic ensures {o.id, c.id} != {x.id, b.id} {
        SameRow(rows, c, x);
        SameRow(rows, c, b);
        assert c.id in {o.id, c.id} && c.id !in {x.id, b.id};
      }
    }
  }

  lemma SameRow(rows: seq<Claim>, a: Claim, b: Claim)
    requires DistinctIds(rows) && a in rows && b in rows
    ensures a.id == b.id ==> a == b
  {
  }

  /** Below the cap the findings of the first `n` rows are as many as the functions say. */
  ghost predicate Counted(rows: seq<Claim>, known: set<set<nat>>, open: set<string>, who: seq<Claim>, n: nat)
    requires n <= |rows|
  {
    |who| == Created(rows, known, open, n) && forall t :: CountTopic(who, t) == ItemsFor(rows, known, open, t, n)
  }

  ghost predicate Reported(who: seq<Claim>, topic: string) {
    exists b :: b in who && b.topic == topic
  }

  /** The topics of the findings are those under which one of the first `n` rows finds something. */
  ghost predicate TopicsReported(rows: seq<Claim>, known: set<set<nat>>, open: set<string>, who: seq<Claim>, n: nat)
    requires n <= |rows|
  {
    && (forall m | 0 <= m < n && Finds(rows, known, open, rows[m]) :: Reported(who, rows[m].topic))
    && (forall b | b in who :: exists m :: 0 <= m < n && Finds(rows, known, open, rows[m]) && rows[m].topic == b.topic)
  }

  ghost predicate ScanProgress(rows: seq<Claim>, known: set<set<nat>>, open: set<string>, who: seq<Claim>, n: nat) {
    n <= |rows| && Counted(rows, known, open, who, n) && TopicsReported(rows, known, open, who, n)
  }

  class Scanner {
    var conflicts: seq<Conflict>
    var items: seq<Item>

    ghost predicate Valid()
      reads this
    {
      Inv(conflicts, items)
    }

    constructor ()
      ensures Valid() && conflicts == [] && items == []
    {
      conflicts, items := [], [];
    }

    /** Compares one candidate with every accepted claim of its topic. */
    method ScanCandidate(rows: seq<Claim>, candidate: Claim, known: set<set<nat>>, ghost before: seq<Conflict>, ghost itemsBefore: seq<Item>, ghost who: seq<Claim>)
      returns (nowKnown: set<set<nat>>, found: nat, ghost nowWho: seq<Claim>)
      requires Valid() && Findings(rows, before, itemsBefore, conflicts, items, who) && NewPairs(before, itemsBefore, conflicts, items)
        && KnownPairs(conflicts, items) == known
      requires candidate in rows && candidate.candidate && candidate.topic != ""
      requires forall b | b in who :: b.topic != candidate.topic
      modifies this
      ensures Valid() && Findings(rows, before, itemsBefore, conflicts, items, nowWho) && NewPairs(before, itemsBefore, conflicts, items)
        && KnownPairs(conflicts, items) == nowKnown
      ensures known <= nowKnown && Covered(rows, nowKnown, candidate)
      ensures who <= nowWho && found == |nowWho| - |who| && forall i | |who| <= i < |nowWho| :: nowWho[i] == candidate
      ensures found == |Unknown(rows, known, candidate)|
      ensures forall n | |old(conflicts)| <= n < |conflicts| :: NamesOpposites(rows, conflicts[n], candidate)
      ensures forall o | o in rows && o.accepted && o.topic == candidate.topic && o.negative != candidate.negative && o.id != candidate.id ::
                {o.id, candidate.id} in nowKnown
    {
      hide NamesOpposites, Contradicts, KnownPairs, Findings, Inv, NewPairs, Covered, Unknown, PairsWith, SortedPair;
      nowKnown, found, nowWho := known, 0, who;
      ghost var ids: set<nat> := {};
      NothingUnknown(rows, known, candidate);
      for k := 0 to |rows|
        invariant Valid() && Findings(rows, before, itemsBefore, conflicts, items, nowWho) && NewPairs(before, itemsBefore, conflicts, items)
        invariant KnownPairs(conflicts, items) == nowKnown == known + PairsWith(ids, candidate.id)
        invariant Covered(rows[..k], nowKnown, candidate)
        invariant who <= nowWho && found == |nowWho| - |who| && forall i | |who| <= i < |nowWho| :: nowWho[i] == candidate
        invariant ids == Unknown(rows[..k], known, candidate) && |ids| == found && candidate.id !in ids
      {
        var other := rows[k];
        UnknownStep(rows, known, candidate, k, ids);
        ContradictsWhen(candidate, other);
        if other.accepted && other.topic == candidate.topic && other.id != candidate.id && other.negative != candidate.negative
           && {other.id, candidate.id} !in nowKnown
        {
          var refs, pair := SortedPair(other.id, candidate.id), {other.id, candidate.id};
          assert forall b | b in nowWho && b.topic == candidate.topic :: b == candidate;
          ReportStep(rows, before, itemsBefore, conflicts, items, nowWho, candidate, other);
          StillCovered(rows[..k], nowKnown, nowKnown + {pair}, candidate);
          conflicts := conflicts + [Conflict(refs, Undecided)];
          items := items + [Item(true, refs, Open)];
          ids := ids + {other.id};
          nowKnown, found, nowWho := nowKnown + {pair}, found + 1, nowWho + [candidate];
        }
        CoveredNext(rows, nowKnown, candidate, k);
      }
      assert rows[..|rows|] == rows;
      CandidateMeans(rows, before, itemsBefore, old(conflicts), old(items), who, conflicts, items, nowWho, candidate, nowKnown);
    }

    /** The loop of a scan over the candidates, until the cap. */
    method ScanRows(rows: seq<Claim>) returns (created: nat, ghost who: seq<Claim>)
      requires Valid()
      modifies this
      ensures Valid() && Findings(rows, old(conflicts), old(items), conflicts, items, who) && created == |who|
      ensures NewPairs(old(conflicts), old(items), conflicts, items)
      ensures forall b | b in who :: b.topic !in OpenTopics(old(items), rows) && Covered(rows, KnownPairs(conflicts, items), b)
      ensures created < MAX_CONFLICT_PAIRS ==>
                forall c | c in rows && c.candidate && c.topic != "" ::
                  || c.topic in OpenTopics(old(items), rows)
                  || (exists b :: b in who && b.topic == c.topic)
                  || Covered(rows, KnownPairs(conflicts, items), c)
      ensures DistinctIds(rows) ==>
                var known, open := KnownPairs(old(conflicts), old(items)), OpenTopics(old(items), rows);
                && created == Created(rows, known, open, |rows|)
                && forall t :: CountTopic(who, t) == ItemsFor(rows, known, open, t, |rows|)
    {
      hide KnownPairs, Findings, Inv, OpenTopics, Covered, NewPairs, ScanProgress, Unknown, Created, ItemsFor;
      var known := KnownPairs(conflicts, items);
      var topics := OpenTopics(items, rows);
      ghost var before, itemsBefore, blocked := conflicts, items, topics;
      created, who := 0, [];
      NoFindings(rows, conflicts, items);
      ghost var known1 := known;
      NoProgress(rows, known1, blocked);
      var n := 0;
      while n < |rows| && created < MAX_CONFLICT_PAIRS
        invariant 0 <= n <= |rows| && created == |who|
        invariant Valid() && Findings(rows, before, itemsBefore, conflicts, items, who) && NewPairs(before, itemsBefore, conflicts, items)
        && KnownPairs(conflicts, items) == known
        invariant topics == blocked + set i | 0 <= i < |who| :: who[i].topic
        invariant forall b | b in who :: b.topic !in blocked && Covered(rows, known, b)
        invariant forall c | c in rows[..n] && c.candidate && c.topic != "" && c.topic !in topics :: Covered(rows, known, c)
        invariant known1 == KnownPairs(before, itemsBefore) <= known && (DistinctIds(rows) ==> ScanProgress(rows, known1, blocked, who, n))
      {
        var c := rows[n];
        ghost var whoBefore := who;
        assert rows[..n + 1] == rows[..n] + [c];
        if c.candidate && c.topic != "" && c.topic !in topics {
          ghost var who0, known0 := who, known;
          assert forall b | b in who :: b.topic in topics;
          if DistinctIds(rows) {
            UnknownUnchanged(rows, before, itemsBefore, conflicts, items, who, c);
          }
          var nowKnown, found;
          nowKnown, found, who := ScanCandidate(rows, c, known, before, itemsBefore, who);
          known := nowKnown;
          forall x | Covered(rows, known0, x) ensures Covered(rows, known, x) {
            StillCovered(rows, known0, known, x);
          }
          assert forall b | b in who :: b in who0 || b == c;
          if found > 0 {
            topics := topics + {c.topic};
            assert who[|who0|] == c;
          }
          assert forall i | 0 <= i < |who0| :: who[i] == who0[i];
          created := created + found;
        } else {
          assert c.topic in topics && c.topic !in blocked ==> Reported(who, c.topic);
        }
        if DistinctIds(rows) {
          ProgressStep(rows, known1, blocked, whoBefore, who, n);
        }
        n := n + 1;
      }
      assert n == |rows| ==> rows[..n] == rows;
      if DistinctIds(rows) {
        ProgressEnds(rows, known1, blocked, who, n);
      }
    }

    /** One scan over the owner's claims, in one transaction. Each new row names a candidate and an
        accepted claim of one topic and opposite polarity, under a topic that was not under review; a
        scan over claims of one polarity opens nothing. Unless it stopped at the cap, every
        candidate is under a topic that was open before, shares its topic with the candidate whose
        contradictions were just reported, or has only contradictions that are known. */
    method Scan(rows: seq<Claim>) returns (created: nat, ghost who: seq<Claim>)
      requires Valid()
      modifies this
      ensures Valid() && Findings(rows, old(conflicts), old(items), conflicts, items, who) && created == |who|
      ensures NewPairs(old(conflicts), old(items), conflicts, items)
      ensures forall b | b in who :: b.topic !in OpenTopics(old(items), rows) && Covered(rows, KnownPairs(conflicts, items), b)
      ensures created < MAX_CONFLICT_PAIRS ==>
                forall c | c in rows && c.candidate && c.topic != "" ::
                  || c.topic in OpenTopics(old(items), rows)
                  || (exists b :: b in who && b.topic == c.topic)
                  || Covered(rows, KnownPairs(conflicts, items), c)
      ensures DistinctIds(rows) ==>
                var known, open := KnownPairs(old(conflicts), old(items)), OpenTopics(old(items), rows);
                && created == Created(rows, known, open, |rows|)
                && forall t :: CountTopic(who, t) == ItemsFor(rows, known, open, t, |rows|)
      ensures |conflicts| == |old(conflicts)| + |who|
      ensures forall n | |old(conflicts)| <= n < |conflicts| :: NamesOpposites(rows, conflicts[n], who[n - |old(conflicts)|])
      ensures forall b | b in who :: !UnderReview(old(items), rows, b.topic)
      ensures (forall a, b | a in rows && b in rows :: a.negative == b.negative) ==>
                created == 0 && conflicts == old(conflicts) && items == old(items)
      ensures created < MAX_CONFLICT_PAIRS ==>
                forall c, o | c in rows && c.candidate && c.topic != "" && o in rows && o.accepted && o.topic == c.topic
                              && o.negative != c.negative && o.id != c.id ::
                  UnderReview(old(items), rows, c.topic) || Reported(who, c.topic) || {o.id, c.id} in KnownPairs(conflicts, items)
    {
      hide KnownPairs, Findings, Inv, OpenTopics, Covered, NewPairs, Created, ItemsFor, NamesOpposites, UnderReview, CountTopic;
      created, who := ScanRows(rows);
      ScanMeans(rows, old(conflicts), old(items), conflicts, items, who, KnownPairs(conflicts, items));
    }

    /** The owner's verdict on an open item. False stands for a missing or already resolved item. */
    method Resolve(k: nat, approve: bool) returns (ok: bool)
      requires Valid()
      modifies this
      ensures Valid()
      ensures ok <==> k < |old(items)| && old(items)[k].state.Open?
      ensures !ok ==> conflicts == old(conflicts) && items == old(items)
      ensures ok ==> items == old(items)[k := old(items)[k].(state := if approve then Approved else Rejected)]
      ensures ok ==> conflicts == Decided(old(conflicts), old(items)[k], if approve then ResolvedByUser else Tolerated)
    {
      if k >= |items| || !items[k].state.Open? {
        return false;
      }
      var item := items[k];
      ghost var conflicts0, items0 := conflicts, items;
      var verdict := if approve then ResolvedByUser else Tolerated;
      items := items[k := item.(state := if approve then Approved else Rejected)];
      var open := conflicts;
      for i := 0 to |open|
        invariant |conflicts| == |open| && items == items0[k := item.(state := if approve then Approved else Rejected)]
        invariant forall j | 0 <= j < i :: conflicts[j] == Decided(open, item, verdict)[j]
        invariant forall j | i <= j < |open| :: conflicts[j] == open[j]
      {
        if item.ofConflict && open[i].verdict.Undecided? && multiset(open[i].participants) == multiset(item.refs) {
          conflicts := conflicts[i := open[i].(verdict := verdict)];
        }
      }
      assert conflicts == Decided(open, item, verdict);
      DecisionKeepsInv(conflicts0, items0, k, verdict, if approve then Approved else Rejected);
      return true;
    }
  }

  /** Two lists of refs are equal once sorted exactly when they are equal as multisets. */
  function Decided(conflicts: seq<Conflict>, item: Item, verdict: Verdict): (r: seq<Conflict>)
    ensures |r| == |conflicts|
    ensures forall i | 0 <= i < |conflicts| :: r[i].participants == conflicts[i].participants
    ensures forall i | 0 <= i < |conflicts| ::
              r[i].verdict == if item.ofConflict && conflicts[i].verdict.Undecided? && multiset(conflicts[i].participants) == multiset(item.refs)
                              then verdict else conflicts[i].verdict
  {
    seq(|conflicts|, i requires 0 <= i < |conflicts| =>
      if item.ofConflict && conflicts[i].verdict.Undecided? && multiset(conflicts[i].participants) == multiset(item.refs)
      then conflicts[i].(verdict := verdict) else conflicts[i])
  }

  /** Deciding an item decides the undecided row of its pair, so that none is left without an item. */
  lemma DecisionKeepsInv(conflicts: seq<Conflict>, items: seq<Item>, k: nat, verdict: Verdict, state: ItemState)
    requires Inv(conflicts, items) && k < |items| && items[k].state.Open? && !verdict.Undecided? && !state.Open?
    ensures Inv(Decided(conflicts, items[k], verdict), items[k := items[k].(state := state)])
  {
    var c, t := Decided(conflicts, items[k], verdict), items[k := items[k].(state := state)];
    forall i | 0 <= i < |c| && c[i].verdict.Undecided? ensures HasOpenItem(t, c[i].participants) {
      assert HasOpenItem(items, conflicts[i].participants);
      var l :| 0 <= l < |items| && OpenConflictItem(items[l]) && items[l].refs == conflicts[i].participants;
      assert t[l] == items[l];
    }
  }

  lemma NothingUnknown(rows: seq<Claim>, known: set<set<nat>>, candidate: Claim)
    ensures Unknown(rows[..0], known, candidate) == {} && PairsWith({}, candidate.id) == {} && Covered(rows[..0], known, candidate)
  {
  }

  lemma CoveredNext(rows: seq<Claim>, known: set<set<nat>>, c: Claim, k: nat)
    requires k < |rows| && Covered(rows[..k], known, c)
    ensures !Contradicts(c, rows[k]) || {rows[k].id, c.id} in known ==> Covered(rows[..k + 1], known, c)
  {
    assert rows[..k + 1] == rows[..k] + [rows[k]];
  }

  lemma NoFindings(rows: seq<Claim>, conflicts: seq<Conflict>, items: seq<Item>)
    ensures Findings(rows, conflicts, items, conflicts, items, []) && NewPairs(conflicts, items, conflicts, items)
  {
  }

  lemma LengthOfFindings(rows: seq<Claim>, before: seq<Conflict>, itemsBefore: seq<Item>, conflicts: seq<Conflict>, items: seq<Item>, who: seq<Claim>)
    requires Findings(rows, before, itemsBefore, conflicts, items, who)
    ensures |conflicts| == |before| + |who|
  {
  }

  lemma StillCovered(rows: seq<Claim>, known: set<set<nat>>, more: set<set<nat>>, c: Claim)
    requires Covered(rows, known, c) && known <= more
    ensures Covered(rows, more, c)
  {
  }

  lemma CandidateMeans(rows: seq<Claim>, before: seq<Conflict>, itemsBefore: seq<Item>, conflicts: seq<Conflict>, items: seq<Item>, who: seq<Claim>,
                       nowConflicts: seq<Conflict>, nowItems: seq<Item>, nowWho: seq<Claim>, candidate: Claim, known: set<set<nat>>)
    requires Findings(rows, before, itemsBefore, conflicts, items, who)
    requires Findings(rows, before, itemsBefore, nowConflicts, nowItems, nowWho)
    requires who <= nowWho && forall i | |who| <= i < |nowWho| :: nowWho[i] == candidate
    requires Covered(rows, known, candidate) && candidate.candidate && candidate.topic != ""
    ensures forall n | |conflicts| <= n < |nowConflicts| :: NamesOpposites(rows, nowConflicts[n], candidate)
    ensures forall o | o in rows && o.accepted && o.topic == candidate.topic && o.negative != candidate.negative && o.id != candidate.id ::
              {o.id, candidate.id} in known
  {
    hide NamesOpposites, Findings, Covered;
    CoveredMeans(rows, known, candidate);
    LengthOfFindings(rows, before, itemsBefore, conflicts, items, who);
    LengthOfFindings(rows, before, itemsBefore, nowConflicts, nowItems, nowWho);
    FindingsNameOpposites(rows, before, itemsBefore, nowConflicts, nowItems, nowWho);
    forall n | |conflicts| <= n < |nowConflicts| ensures NamesOpposites(rows, nowConflicts[n], candidate) {
      var i := n - |before|;
      assert nowWho[i] == candidate && nowConflicts[|before| + i] == nowConflicts[n];
    }
  }

  /** What the result of a scan says of the claims themselves. */
  lemma ScanMeans(rows: seq<Claim>, before: seq<Conflict>, itemsBefore: seq<Item>, conflicts: seq<Conflict>, items: seq<Item>, who: seq<Claim>,
                  known: set<set<nat>>)
    requires Findings(rows, before, itemsBefore, conflicts, items, who)
    requires forall b | b in who :: b.topic !in OpenTopics(itemsBefore, rows)
    ensures |conflicts| == |before| + |who|
    ensures forall n | |before| <= n < |conflicts| :: NamesOpposites(rows, conflicts[n], who[n - |before|])
    ensures forall b | b in who :: !UnderReview(itemsBefore, rows, b.topic)
    ensures (forall a, b | a in rows && b in rows :: a.negative == b.negative) ==> who == [] && conflicts == before && items == itemsBefore
    ensures forall c, o | c in rows && c.candidate && c.topic != "" && o in rows && o.accepted && o.topic == c.topic
                          && o.negative != c.negative && o.id != c.id
                          && (c.topic in OpenTopics(itemsBefore, rows) || (exists b :: b in who && b.topic == c.topic) || Covered(rows, known, c)) ::
              UnderReview(itemsBefore, rows, c.topic) || Reported(who, c.topic) || {o.id, c.id} in known
  {
    hide NamesOpposites, OpenTopics, UnderReview, Covered;
    LengthOfFindings(rows, before, itemsBefore, conflicts, items, who);
    FindingsNameOpposites(rows, before, itemsBefore, conflicts, items, who);
    forall n | |before| <= n < |conflicts| ensures NamesOpposites(rows, conflicts[n], who[n - |before|]) {
      assert conflicts[|before| + (n - |before|)] == conflicts[n];
    }
    forall t ensures t in OpenTopics(itemsBefore, rows) <==> UnderReview(itemsBefore, rows, t) {
      OpenTopicsAreUnderReview(itemsBefore, rows, t);
    }
    forall c | Covered(rows, known, c) && c.candidate && c.topic != ""
      ensures forall o | o in rows && o.accepted && o.topic == c.topic && o.negative != c.negative && o.id != c.id :: {o.id, c.id} in known
    {
      CoveredMeans(rows, known, c);
    }
  }

  // ---- One item per topic, two hundred items per scan? ------------------------------------------------

  lemma NoProgress(rows: seq<Claim>, known: set<set<nat>>, open: set<string>)
    ensures ScanProgress(rows, known, open, [], 0)
  {
  }

  /** What a row adds to the findings. */
  ghost predicate RowAdds(rows: seq<Claim>, known: set<set<nat>>, open: set<string>, who: seq<Claim>, more: seq<Claim>, n: nat)
    requires n < |rows|
  {
    var c := rows[n];
    && who <= more && (forall i | |who| <= i < |more| :: more[i] == c)
    && |more| - |who| == if c.candidate && c.topic != "" && c.topic !in open && !Reported(who, c.topic) then |Unknown(rows, known, c)| else 0
  }

  /** One more row below the cap. */
  lemma ProgressStep(rows: seq<Claim>, known: set<set<nat>>, open: set<string>, who: seq<Claim>, more: seq<Claim>, n: nat)
    requires n < |rows| && ScanProgress(rows, known, open, who, n) && |who| < MAX_CONFLICT_PAIRS && RowAdds(rows, known, open, who, more, n)
    ensures ScanProgress(rows, known, open, more, n + 1)
  {
    hide Counted, TopicsReported, RowAdds, Leads;
    LeaderFound(rows, known, open, who, n);
    CountStep(rows, known, open, who, more, n);
    TopicStep(rows, known, open, who, more, n);
  }

  lemma CountStep(rows: seq<Claim>, known: set<set<nat>>, open: set<string>, who: seq<Claim>, more: seq<Claim>, n: nat)
    requires n < |rows| && Counted(rows, known, open, who, n) && |who| < MAX_CONFLICT_PAIRS && RowAdds(rows, known, open, who, more, n)
    requires Leads(rows, known, open, n) <==> Finds(rows, known, open, rows[n]) && !Reported(who, rows[n].topic)
    ensures Counted(rows, known, open, more, n + 1)
  {
    hide Leads, Unknown, Reported;
    forall t ensures CountTopic(more, t) == ItemsFor(rows, known, open, t, n + 1) {
      CountRepeated(who, more, rows[n], t);
    }
  }

  lemma TopicStep(rows: seq<Claim>, known: set<set<nat>>, open: set<string>, who: seq<Claim>, more: seq<Claim>, n: nat)
    requires n < |rows| && TopicsReported(rows, known, open, who, n) && RowAdds(rows, known, open, who, more, n)
    ensures TopicsReported(rows, known, open, more, n + 1)
  {
    hide Unknown;
    assert forall b | b in who :: b in more;
    assert |more| > |who| ==> more[|who|] == rows[n];
    forall b | b in more ensures exists m :: 0 <= m < n + 1 && Finds(rows, known, open, rows[m]) && rows[m].topic == b.topic {
      var i :| 0 <= i < |more| && more[i] == b;
      if i < |who| {
        assert who[i] in who;
        var m :| 0 <= m < n && Finds(rows, known, open, rows[m]) && rows[m].topic == b.topic;
      } else {
        assert Finds(rows, known, open, rows[n]);
      }
    }
    forall m | 0 <= m < n + 1 && Finds(rows, known, open, rows[m]) ensures Reported(more, rows[m].topic) {
      if m < n {
        assert Reported(who, rows[m].topic);
      }
    }
  }

  /** A row leads its topic exactly when it finds something and the topic has not been reported. */
  lemma LeaderFound(rows: seq<Claim>, known: set<set<nat>>, open: set<string>, who: seq<Claim>, n: nat)
    requires n < |rows| && TopicsReported(rows, known, open, who, n)
    ensures Leads(rows, known, open, n) <==> Finds(rows, known, open, rows[n]) && !Reported(who, rows[n].topic)
  {
    hide Finds;
  }

  /** At the cap the scan is over. */
  lemma {:induction false} CapStops(rows: seq<Claim>, known: set<set<nat>>, open: set<string>, n: nat, k: nat, t: string)
    requires n <= k <= |rows| && Created(rows, known, open, n) >= MAX_CONFLICT_PAIRS
    ensures Created(rows, known, open, k) == Created(rows, known, open, n)
    ensures ItemsFor(rows, known, open, t, k) == ItemsFor(rows, known, open, t, n)
  {
    hide Leads;
    if n < k {
      CapStops(rows, known, open, n, k - 1, t);
    }
  }

  lemma ProgressEnds(rows: seq<Claim>, known: set<set<nat>>, open: set<string>, who: seq<Claim>, n: nat)
    requires ScanProgress(rows, known, open, who, n) && (n == |rows| || |who| >= MAX_CONFLICT_PAIRS)
    ensures |who| == Created(rows, known, open, |rows|)
    ensures forall t :: CountTopic(who, t) == ItemsFor(rows, known, open, t, |rows|)
  {
    if n < |rows| {
      hide Created, ItemsFor;
      CapStops(rows, known, open, n, |rows|, "");
      forall t ensures ItemsFor(rows, known, open, t, |rows|) == ItemsFor(rows, known, open, t, n) {
        CapStops(rows, known, open, n, |rows|, t);
      }
    }
  }

  /** All items of a topic are those of its one reporting leader. */
  lemma {:induction false} ItemsOfLeader(rows: seq<Claim>, known: set<set<nat>>, open: set<string>, t: string, n: nat)
    requires n <= |rows|
    ensures forall m | 0 <= m < n && rows[m].topic == t && Reports(rows, known, open, m) ::
              ItemsFor(rows, known, open, t, n) == |Unknown(rows, known, rows[m])|
    ensures (forall m | 0 <= m < n && rows[m].topic == t :: !Reports(rows, known, open, m)) ==> ItemsFor(rows, known, open, t, n) == 0
  {
    hide Unknown, Created;
    if n > 0 {
      ItemsOfLeader(rows, known, open, t, n - 1);
    }
  }

  /** A topic gets at most one item exactly when its leader, if its turn comes, has exactly one
      unknown contradiction. A topic that is open has no leader and gets none. */
  lemma OneItemPerTopicIff(rows: seq<Claim>, known: set<set<nat>>, open: set<string>, t: string)
    ensures ItemsFor(rows, known, open, t, |rows|) <= 1 <==>
            forall m | 0 <= m < |rows| && rows[m].topic == t && Reports(rows, known, open, m) :: |Unknown(rows, known, rows[m])| == 1
    ensures t in open ==> ItemsFor(rows, known, open, t, |rows|) == 0
  {
    hide ItemsFor, Created, Unknown;
    ItemsOfLeader(rows, known, open, t, |rows|);
    forall m | 0 <= m < |rows| && Reports(rows, known, open, m) ensures |Unknown(rows, known, rows[m])| >= 1 {
      assert Finds(rows, known, open, rows[m]);
    }
  }

  /** A scan that reaches the cap ends with the report of one leader whose turn came below it: the
      overrun is at most what that leader has, less one. */
  lemma {:induction false} CapOverrun(rows: seq<Claim>, known: set<set<nat>>, open: set<string>, n: nat)
    requires n <= |rows| && Created(rows, known, open, n) >= MAX_CONFLICT_PAIRS
    ensures exists m :: 0 <= m < n && Reports(rows, known, open, m)
                        && Created(rows, known, open, n) == Created(rows, known, open, m) + |Unknown(rows, known, rows[m])|
                           <= MAX_CONFLICT_PAIRS - 1 + |Unknown(rows, known, rows[m])|
  {
    hide Unknown, Leads;
    if Created(rows, known, open, n - 1) >= MAX_CONFLICT_PAIRS {
      CapOverrun(rows, known, open, n - 1);
    } else {
      assert Reports(rows, known, open, n - 1);
    }
  }

  /** What the leaders among the first `n` rows have in all, cap or no cap. */
  function Total(rows: seq<Claim>, known: set<set<nat>>, open: set<string>, n: nat): nat
    requires n <= |rows|
  {
    if n == 0 then 0
    else Total(rows, known, open, n - 1) + if Leads(rows, known, open, n - 1) then |Unknown(rows, known, rows[n - 1])| else 0
  }

  lemma {:induction false} TotalGrows(rows: seq<Claim>, known: set<set<nat>>, open: set<string>, m: nat, n: nat)
    requires m <= n <= |rows|
    ensures Total(rows, known, open, m) <= Total(rows, known, open, n)
  {
    hide Leads, Unknown;
    if m < n {
      TotalGrows(rows, known, open, m, n - 1);
    }
  }

  /** A prefix at which the total first reaches the cap. */
  ghost predicate Crosses(rows: seq<Claim>, known: set<set<nat>>, open: set<string>, m: nat)
    requires m <= |rows|
  {
    Total(rows, known, open, m) >= MAX_CONFLICT_PAIRS && forall k | 0 <= k < m :: Total(rows, known, open, k) < MAX_CONFLICT_PAIRS
  }

  /** A scan opens all there is, or what there is where the total first reaches the cap. */
  lemma {:induction false} CreatedIsTotalAtCrossing(rows: seq<Claim>, known: set<set<nat>>, open: set<string>, n: nat)
    requires n <= |rows|
    ensures Total(rows, known, open, n) < MAX_CONFLICT_PAIRS ==> Created(rows, known, open, n) == Total(rows, known, open, n)
    ensures Total(rows, known, open, n) >= MAX_CONFLICT_PAIRS ==>
              exists m: nat :: m <= n && Crosses(rows, known, open, m) && Created(rows, known, open, n) == Total(rows, known, open, m)
  {
    hide Leads, Unknown;
    if n > 0 {
      CreatedIsTotalAtCrossing(rows, known, open, n - 1);
      if Total(rows, known, open, n - 1) < MAX_CONFLICT_PAIRS <= Total(rows, known, open, n) {
        forall k | 0 <= k < n ensures Total(rows, known, open, k) < MAX_CONFLICT_PAIRS {
          TotalGrows(rows, known, open, k, n - 1);
        }
        assert Crosses(rows, known, open, n);
      }
    }
  }

  /** A scan opens at most 200 items if and only if there are no more than 200 to open, or the totals
      of the leaders happen to come to exactly 200 at some row. */
  lemma CapHoldsIff(rows: seq<Claim>, known: set<set<nat>>, open: set<string>)
    ensures Created(rows, known, open, |rows|) <= 200 <==>
            || Total(rows, known, open, |rows|) <= 200
            || exists m: nat :: m <= |rows| && Total(rows, known, open, m) == 200
  {
    hide Leads, Unknown, Created, Total;
    var n := |rows|;
    CreatedIsTotalAtCrossing(rows, known, open, n);
    if Total(rows, known, open, n) >= MAX_CONFLICT_PAIRS {
      var m: nat :| m <= n && Crosses(rows, known, open, m) && Created(rows, known, open, n) == Total(rows, known, open, m);
      TotalGrows(rows, known, open, m, n);
      if k: nat :| k <= n && Total(rows, known, open, k) == MAX_CONFLICT_PAIRS {
        TotalGrows(rows, known, open, m, k);
      }
    }
  }

  /** One candidate against `n` accepted claims of its topic. */
  function OneAgainst(n: nat): (rows: seq<Claim>)
    ensures |rows| == n + 1 && rows[0] == Claim(0, "tea", true, false, true)
    ensures forall i | 0 < i <= n :: rows[i] == Claim(i, "tea", false, true, false)
  {
    [Claim(0, "tea", true, false, true)] + seq(n, i requires 0 <= i < n => Claim(i + 1, "tea", false, true, false))
  }

  function UpTo(n: nat): (ids: set<nat>)
    ensures |ids| == n && forall i :: i in ids <==> 0 < i <= n
  {
    if n == 0 then {} else UpTo(n - 1) + {n}
  }

  lemma AllUnknown(n: nat)
    ensures Unknown(OneAgainst(n), {}, OneAgainst(n)[0]) == UpTo(n)
  {
    hide OneAgainst, UpTo;
    var rows := OneAgainst(n);
    forall id | id in UpTo(n) ensures id in Unknown(rows, {}, rows[0]) {
      assert rows[id] in rows && Contradicts(rows[0], rows[id]);
    }
  }

  lemma {:induction false} AllAtOnce(n: nat, k: nat)
    requires 1 <= k <= n + 1 && n > 0
    ensures Created(OneAgainst(n), {}, {}, k) == n && ItemsFor(OneAgainst(n), {}, {}, "tea", k) == n
  {
    hide OneAgainst, UpTo, Unknown;
    var rows := OneAgainst(n);
    AllUnknown(n);
    if k == 1 {
      assert 1 in UpTo(n);
      assert Leads(rows, {}, {}, 0);
      assert Created(rows, {}, {}, 0) == 0 && ItemsFor(rows, {}, {}, "tea", 0) == 0;
    } else {
      AllAtOnce(n, k - 1);
      assert !rows[k - 1].candidate;
    }
  }

  /** The most rows one scan reads. */
  const MAX_PROMOTION_SCAN := 500

  /** Both documented rules fail at once: from an empty inbox, one candidate opens as many items, for
      one topic and in one scan, as it has contradictions, up to the 499 that a scan can read beside
      it; two for two, 201 for 201. */
  lemma OneCandidateOpensAll(n: nat)
    requires n > 0
    ensures n <= 499 <==> |OneAgainst(n)| <= MAX_PROMOTION_SCAN
    ensures var rows := OneAgainst(n);
            DistinctIds(rows) && ItemsFor(rows, {}, {}, "tea", |rows|) == n && Created(rows, {}, {}, |rows|) == n
  {
    hide OneAgainst;
    AllAtOnce(n, n + 1);
  }

  // ---- Runs ---------------------------------------------------------------------------------------

  datatype State = State(conflicts: seq<Conflict>, items: seq<Item>)

  /** A scan over any claims. */
  ghost predicate ScanStep(s: State, t: State, rows: seq<Claim>, who: seq<Claim>) {
    Findings(rows, s.conflicts, s.items, t.conflicts, t.items, who) && NewPairs(s.conflicts, s.items, t.conflicts, t.items)
  }

  predicate ResolveStep(s: State, t: State, k: nat, approve: bool) {
    && k < |s.items| && s.items[k].state.Open?
    && t == State(Decided(s.conflicts, s.items[k], if approve then ResolvedByUser else Tolerated),
                  s.items[k := s.items[k].(state := if approve then Approved else Rejected)])
  }

  /** Any review item added by another path, whatever it refers to. */
  predicate AddStep(s: State, t: State, item: Item) {
    t == State(s.conflicts, s.items + [item])
  }

  ghost predicate Step(s: State, t: State) {
    || (exists rows, who :: ScanStep(s, t, rows, who))
    || (exists k: nat, approve: bool :: ResolveStep(s, t, k, approve))
    || (exists item :: AddStep(s, t, item))
  }

  /** A scan keeps the invariant, finding by finding. */
  lemma {:induction false} ScanKeepsInv(s: State, t: State, rows: seq<Claim>, who: seq<Claim>, n: nat)
    requires Inv(s.conflicts, s.items) && ScanStep(s, t, rows, who) && n <= |who|
    ensures Inv(t.conflicts[..|s.conflicts| + n], t.items[..|s.items| + n])
  {
    hide KnownPairs, Inv;
    var c, i := |s.conflicts| + n, |s.items| + n;
    if n == 0 {
      assert t.conflicts[..c] == s.conflicts && t.items[..i] == s.items;
    } else {
      ScanKeepsInv(s, t, rows, who, n - 1);
      var refs := t.conflicts[c - 1].participants;
      assert FoundBy(rows, t.conflicts[|s.conflicts| + (n - 1)], who[n - 1]);
      assert t.items[|s.items| + (n - 1)] == Item(true, refs, Open);
      assert NewAt(t.conflicts, t.items, c - 1, i - 1);
      ReportKeepsInv(t.conflicts[..c - 1], t.items[..i - 1], refs);
      assert t.conflicts[..c] == t.conflicts[..c - 1] + [Conflict(refs, Undecided)];
      assert t.items[..i] == t.items[..i - 1] + [Item(true, refs, Open)];
    }
  }

  lemma StepKeepsInv(s: State, t: State)
    requires Inv(s.conflicts, s.items) && Step(s, t)
    ensures Inv(t.conflicts, t.items)
  {
    if rows, who :| ScanStep(s, t, rows, who) {
      ScanKeepsInv(s, t, rows, who, |who|);
      assert t.conflicts[..|s.conflicts| + |who|] == t.conflicts && t.items[..|s.items| + |who|] == t.items;
    } else if k: nat, approve: bool :| ResolveStep(s, t, k, approve) {
      DecisionKeepsInv(s.conflicts, s.items, k, if approve then ResolvedByUser else Tolerated, if approve then Approved else Rejected);
    } else {
      var item :| AddStep(s, t, item);
      forall i | 0 <= i < |t.conflicts| && t.conflicts[i].verdict.Undecided? ensures HasOpenItem(t.items, t.conflicts[i].participants) {
        assert HasOpenItem(s.items, s.conflicts[i].participants);
        var k :| 0 <= k < |s.items| && OpenConflictItem(s.items[k]) && s.items[k].refs == s.conflicts[i].participants;
        assert t.items[k] == s.items[k];
      }
    }
  }

  /** In every run of scans, verdicts and other review items, each unordered pair of claims has at
      most one conflict row, and an undecided one is always before the owner. */
  lemma {:induction false} OneConflictPerPairEver(states: seq<State>, k: nat)
    requires states != [] && states[0] == State([], []) && k < |states|
    requires forall i | 0 < i < |states| :: Step(states[i - 1], states[i])
    ensures PairsOnce(states[k].conflicts) && UndecidedAreOpen(states[k].conflicts, states[k].items)
  {
    hide Step;
    if k > 0 {
      OneConflictPerPairEver(states, k - 1);
      StepKeepsInv(states[k - 1], states[k]);
    }
  }
}
