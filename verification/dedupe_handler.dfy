/** The sweep as the worker runs it: one transaction that changes the tables row by row. */
module DedupeHandler {
  import opened Options
  import opened ClaimTables
  import opened ClaimClusters
  import opened ClaimMerge
  import opened DedupeSweep
  import opened DedupeBuckets

  class Session {
    const owner: nat
    const moment: int
    var claims: map<nat, Claim>
    var evidence: map<nat, Evidence>
    var items: seq<Item>
    var cards: map<nat, Card>
    // Pairs and claims that an unresolved merge item already concerns.
    var knownPairs: set<set<nat>>
    var claimedRefs: set<nat>

    constructor (t: Tables, owner: nat, moment: int)
      ensures Snapshot() == t && this.owner == owner && this.moment == moment
    {
      this.owner, this.moment := owner, moment;
      claims, evidence, items, cards := t.claims, t.evidence, t.items, t.cards;
      knownPairs, claimedRefs := {}, {};
    }

    function Snapshot(): Tables
      reads this
    {
      Tables(claims, evidence, items, cards)
    }

    /** The plan of this very transaction. */
    ghost predicate Follows(plan: Plan) {
      plan.Valid() && plan.owner == owner && plan.moment == moment
    }

    /** A merge that belongs to this transaction. */
    ghost predicate Ours(t: Tables, m: Merge, rule: Rule) {
      WellFormed(t, m) && m.owner == owner && m.moment == moment && m.rule == rule
    }

    /** The merges of the claims in `done` have been carried out and no others. */
    ghost predicate Handled(t: Tables, m: Merge, done: set<nat>)
      reads this
    {
      && claims == ClaimsAfter(t, m, done)
      && evidence == EvidenceAfter(t, m, done)
      && cards == CardsAfter(t, m, done)
    }

    ghost predicate InboxValid(plan: Plan)
      reads this
    {
      && InboxGrew(plan.t, plan.owner, plan.rows, items)
      && claimedRefs == ClaimedRefs(items, plan.owner)
      && forall pair | pair in knownPairs :: pair <= claimedRefs
    }

    ghost predicate Concerned(a: Claim, b: Claim)
      reads this
    {
      a.id in claimedRefs || b.id in claimedRefs
    }

    /** Opens one item unless a claim of the pair is already under review. */
    method OpenMergeItem(left: Claim, right: Claim, counts: map<nat, nat>, ghost plan: Plan)
      requires Follows(plan) && InboxValid(plan) && counts == plan.Evidence()
      requires Suspicious(plan.t, plan.rows, left, right)
      modifies this`items, this`knownPairs, this`claimedRefs
      ensures InboxValid(plan) && Concerned(left, right)
      ensures old(claimedRefs) <= claimedRefs
      ensures items == if left.id in old(claimedRefs) || right.id in old(claimedRefs) then old(items)
                       else old(items) + [Item(owner, true, {left.id, right.id}, true, Preferred(left, right, counts).id)]
    {
      hide InboxGrew, Linked, RowsOf, Suspicious;
      var pair := {left.id, right.id};
      if pair in knownPairs || pair * claimedRefs != {} {
        assert left.id in pair;
        return;
      }
      var item := Item(owner, true, pair, true, Preferred(left, right, counts).id);
      InboxAppend(plan, items, item, left, right);
      ClaimedRefsAppend(items, item, owner);
      items := items + [item];
      knownPairs := knownPairs + {pair};
      claimedRefs := claimedRefs + pair;
    }

    /** Retires one duplicate in favour of its survivor. */
    method Supersede(duplicate: Claim, survivor: nat, rule: Rule, ghost t: Tables, ghost m: Merge, ghost done: set<nat>)
      requires Ours(t, m, rule) && Handled(t, m, done)
      requires duplicate.id in m.sigma && t.claims[duplicate.id] == duplicate && m.sigma[duplicate.id] == survivor
      requires duplicate.id != survivor && duplicate.id !in done && survivor !in done
      modifies this`claims, this`evidence, this`cards
      ensures Handled(t, m, done + {duplicate.id})
      ensures |Losers(m, done + {duplicate.id})| == |Losers(m, done)| + 1
      ensures Absorbers(m, done + {duplicate.id}) == Absorbers(m, done)
    {
      HandleLoser(t, m, done, duplicate.id);
      evidence := MoveRows(evidence, owner, duplicate.id, survivor);
      claims := claims[duplicate.id := claims[duplicate.id].(
        lifecycle := Superseded, validTo := Some(moment),
        events := duplicate.events + [SupersededByMerge(moment, survivor, rule)])];
      cards := cards - {duplicate.id};
    }

    /** Records on the survivor what it absorbed. */
    method Absorb(survivor: Claim, merged: set<nat>, summary: set<nat>, rule: Rule, ghost t: Tables, ghost m: Merge, ghost done: set<nat>)
      requires Ours(t, m, rule) && Handled(t, m, done)
      requires survivor.id in m.sigma && t.claims[survivor.id] == survivor && m.sigma[survivor.id] == survivor.id
      requires survivor.id !in done && merged != {} && merged == Absorbed(m, survivor.id)
      requires summary == if rule.TokenJaccard? then survivor.summary + Summaries(t, merged) else survivor.summary
      modifies this`claims
      ensures Handled(t, m, done + {survivor.id})
      ensures Losers(m, done + {survivor.id}) == Losers(m, done)
      ensures |Absorbers(m, done + {survivor.id})| == |Absorbers(m, done)| + 1
    {
      HandleSurvivor(t, m, done, survivor.id);
      claims := claims[survivor.id := claims[survivor.id].(
        summary := summary, events := survivor.events + [MergedDuplicates(moment, merged, rule)])];
    }

    /** Supersedes every member but the survivor, collecting what the survivor takes over. */
    method SupersedeAll(members: seq<Claim>, survivor: Claim, ghost counts: map<nat, nat>, ghost t: Tables, ghost m: Merge, ghost done: set<nat>)
      returns (merged: set<nat>, summary: set<nat>)
      requires Ours(t, m, TokenJaccard) && Handled(t, m, done)
      requires WholeClass(t, m, counts, members, survivor) && Ids(members) !! done
      modifies this`claims, this`evidence, this`cards
      ensures merged == SupersededSoFar(members, survivor, |members|) && Handled(t, m, done + merged)
      ensures summary == survivor.summary + Summaries(t, merged)
      ensures |Losers(m, done + merged)| == |Losers(m, done)| + |merged| && Absorbers(m, done + merged) == Absorbers(m, done)
    {
      hide ClaimsAfter, EvidenceAfter, CardsAfter, Losers, Absorbers, WholeClass, SupersededSoFar, Summaries, Ids;
      merged, summary := {}, survivor.summary;
      FirstMember(t, members, survivor, done);
      for i := 0 to |members|
        invariant merged == SupersededSoFar(members, survivor, i) && Handled(t, m, done + merged)
        invariant summary == survivor.summary + Summaries(t, merged)
        invariant |Losers(m, done + merged)| == |Losers(m, done)| + |merged| && Absorbers(m, done + merged) == Absorbers(m, done)
      {
        var duplicate := members[i];
        NextMember(t, m, counts, members, survivor, done, i);
        if duplicate.id != survivor.id {
          Supersede(duplicate, survivor.id, TokenJaccard, t, m, done + merged);
          merged, summary := merged + {duplicate.id}, summary + duplicate.summary;
        }
      }
    }

    /** Folds one class into its best member. */
    method MergeMembers(members: seq<Claim>, counts: map<nat, nat>, ghost t: Tables, ghost m: Merge, ghost done: set<nat>, ghost s: Claim)
      returns (superseded: nat)
      requires Ours(t, m, TokenJaccard) && Handled(t, m, done)
      requires |members| >= 2 && WholeClass(t, m, counts, members, s) && Ids(members) !! done
      modifies this`claims, this`evidence, this`cards
      ensures Handled(t, m, done + Ids(members))
      ensures |Losers(m, done + Ids(members))| == |Losers(m, done)| + superseded
      ensures |Absorbers(m, done + Ids(members))| == |Absorbers(m, done)| + 1
    {
      hide Absorbers;
      var survivor := BestMember(members, counts);
      assert survivor == s;
      var merged, summary := SupersedeAll(members, survivor, counts, t, m, done);
      ClassIsAbsorbed(t, m, counts, members, s, done);
      Absorb(survivor, merged, summary, TokenJaccard, t, m, done + merged);
      superseded := |merged|;
    }

    /** One comparison by text: duplicates join one class, a suspected pair gets an item. */
    method CompareTextPair(group: seq<Claim>, left: nat, right: nat, counts: map<nat, nat>, parent: array<nat>,
                           ghost plan: Plan, ghost key: BucketKey, ghost rep: seq<nat>, ghost height: seq<nat>)
      returns (ghost newRep: seq<nat>, ghost newHeight: seq<nat>)
      requires Follows(plan) && InboxValid(plan) && counts == plan.Evidence()
      requires group == Bucket(plan.rows, key) && DistinctIds(group) && left < right < |group| == parent.Length
      requires Forest(parent[..], rep, height) && Sound(group, rep)
      requires Merged(group, rep, left, right) && TextsConcerned(group, claimedRefs, left, right)
      modifies this`items, this`knownPairs, this`claimedRefs, parent
      ensures InboxValid(plan) && old(claimedRefs) <= claimedRefs
      ensures Forest(parent[..], newRep, newHeight) && Sound(group, newRep)
      ensures Merged(group, newRep, left, right + 1) && TextsConcerned(group, claimedRefs, left, right + 1)
    {
      hide InboxGrew, Forest, Sound, Merged, TextsConcerned, Linked, RowsOf;
      newRep, newHeight := rep, height;
      ghost var refs := claimedRefs;
      var kind := DuplicateKind(group[left].text, group[right].text);
      SameGroup(plan.rows, key, left, right);
      if kind.Duplicate? {
        RelabelSound(group, rep, left, right);
        newRep, newHeight := Union(parent, left, right, rep, height);
      } else if kind.Suspected? {
        OpenMergeItem(group[left], group[right], counts, plan);
      }
      NextPair(group, rep, newRep, refs, claimedRefs, left, right);
    }

    /** Compares every pair of a bucket by text. */
    method CompareTexts(group: seq<Claim>, counts: map<nat, nat>, ghost plan: Plan, ghost key: BucketKey)
      returns (parent: array<nat>, ghost rep: seq<nat>, ghost height: seq<nat>)
      requires Follows(plan) && InboxValid(plan) && counts == plan.Evidence()
      requires group == Bucket(plan.rows, key) && DistinctIds(group)
      modifies this`items, this`knownPairs, this`claimedRefs
      ensures InboxValid(plan) && old(claimedRefs) <= claimedRefs
      ensures fresh(parent) && parent.Length == |group|
      ensures Forest(parent[..], rep, height) && Partition(group, rep)
      ensures TextsConcerned(group, claimedRefs, |group|, 0)
    {
      hide *;
      parent := new nat[|group|](i => i);
      rep, height := seq(|group|, i => i), seq(|group|, i => 0);
      SingletonsSound(group, parent[..], rep, height, claimedRefs);
      for left := 0 to |group|
        invariant InboxValid(plan) && old(claimedRefs) <= claimedRefs
        invariant Forest(parent[..], rep, height) && Sound(group, rep)
        invariant Merged(group, rep, left, 0) && TextsConcerned(group, claimedRefs, left, 0)
      {
        StartRow(group, rep, claimedRefs, left);
        for right := left + 1 to |group|
          invariant InboxValid(plan) && old(claimedRefs) <= claimedRefs
          invariant Forest(parent[..], rep, height) && Sound(group, rep)
          invariant Merged(group, rep, left, right) && TextsConcerned(group, claimedRefs, left, right)
        {
          rep, height := CompareTextPair(group, left, right, counts, parent, plan, key, rep, height);
        }
        EndRow(group, rep, claimedRefs, left);
      }
      AllPairsCompared(group, rep);
    }

    /** One comparison by stored vector, for rows that are not duplicates of each other. */
    method CompareVectorPair(group: seq<Claim>, left: nat, right: nat, counts: map<nat, nat>, vectors: map<nat, seq<real>>,
                             parent: array<nat>, ghost plan: Plan, ghost key: BucketKey, ghost rep: seq<nat>, ghost height: seq<nat>)
      requires Follows(plan) && InboxValid(plan) && counts == plan.Evidence()
      requires group == Bucket(plan.rows, key) && DistinctIds(group) && left < right < |group| == parent.Length
      requires Forest(parent[..], rep, height) && Partition(group, rep)
      requires vectors == VectorsOf(plan.t.cards, Ids(group))
      requires VectorsConcerned(group, rep, plan.t.cards, claimedRefs, left, right)
      modifies this`items, this`knownPairs, this`claimedRefs, parent
      ensures InboxValid(plan) && old(claimedRefs) <= claimedRefs
      ensures Forest(parent[..], rep, height)
      ensures VectorsConcerned(group, rep, plan.t.cards, claimedRefs, left, right + 1)
    {
      hide InboxGrew, Forest, VectorsConcerned, Linked, RowsOf, Bucket;
      var l, r := group[left], group[right];
      assert l.id in Ids(group) && r.id in Ids(group);
      ghost var refs := claimedRefs;
      var leftRoot := Find(parent, left, rep, height);
      var rightRoot := Find(parent, right, rep, height);
      if leftRoot != rightRoot && l.id in vectors && r.id in vectors && VectorClose(vectors[l.id], vectors[r.id]) {
        UnlinkedIsSuspicious(plan, key, rep, left, right);
        OpenMergeItem(l, r, counts, plan);
      }
      NextVectorPair(group, rep, plan.t.cards, refs, claimedRefs, left, right);
    }

    /** Compares the stored vectors of every pair of a bucket. */
    method CompareVectors(group: seq<Claim>, counts: map<nat, nat>, parent: array<nat>, ghost plan: Plan, ghost key: BucketKey,
                          ghost rep: seq<nat>, ghost height: seq<nat>)
      requires Follows(plan) && InboxValid(plan) && counts == plan.Evidence()
      requires group == Bucket(plan.rows, key) && DistinctIds(group) && parent.Length == |group|
      requires Forest(parent[..], rep, height) && Partition(group, rep)
      requires SameCards(cards, plan.t.cards, Ids(group))
      modifies this`items, this`knownPairs, this`claimedRefs, parent
      ensures InboxValid(plan) && old(claimedRefs) <= claimedRefs
      ensures Forest(parent[..], rep, height)
      ensures VectorsConcerned(group, rep, plan.t.cards, claimedRefs, |group|, 0)
    {
      hide *;
      var vectors := VectorsOf(cards, Ids(group));
      SameVectors(cards, plan.t.cards, Ids(group));
      NoVectorPair(group, rep, plan.t.cards, claimedRefs);
      for left := 0 to |group|
        invariant InboxValid(plan) && old(claimedRefs) <= claimedRefs
        invariant Forest(parent[..], rep, height)
        invariant VectorsConcerned(group, rep, plan.t.cards, claimedRefs, left, 0)
      {
        StartVectorRow(group, rep, plan.t.cards, claimedRefs, left);
        for right := left + 1 to |group|
          invariant InboxValid(plan) && old(claimedRefs) <= claimedRefs
          invariant Forest(parent[..], rep, height)
          invariant VectorsConcerned(group, rep, plan.t.cards, claimedRefs, left, right)
        {
          CompareVectorPair(group, left, right, counts, vectors, parent, plan, key, rep, height);
        }
        EndVectorRow(group, rep, plan.t.cards, claimedRefs, left);
      }
    }

    /** Merges every class of a bucket that has more than one member. */
    method MergeClasses(group: seq<Claim>, classes: map<nat, seq<Claim>>, order: seq<nat>, counts: map<nat, nat>,
                        ghost plan: Plan, ghost key: BucketKey, ghost rep: seq<nat>, ghost done: set<nat>)
      returns (merged: nat, groups: nat)
      requires Follows(plan) && counts == plan.Evidence() && Handled(plan.t, plan.Goal(), done)
      requires group == Bucket(plan.rows, key) && DistinctIds(group) && Partition(group, rep)
      requires Collected(group, rep, order, classes) && Ids(group) !! done
      modifies this`claims, this`evidence, this`cards
      ensures Handled(plan.t, plan.Goal(), done + Ids(group))
      ensures |Losers(plan.Goal(), done + Ids(group))| == |Losers(plan.Goal(), done)| + merged
      ensures |Absorbers(plan.Goal(), done + Ids(group))| == |Absorbers(plan.Goal(), done)| + groups
    {
      hide Bucket, DistinctIds, Partition, Collected, ClassIds, Losers, Absorbers, Linked, RowsOf, WholeClass, WellFormed;
      hide ClaimsAfter, EvidenceAfter, CardsAfter, SweepMerge, Counts, Ids;
      merged, groups := 0, 0;
      ghost var m := plan.Goal();
      StartClasses(group, rep, order, classes, done);
      PlanIsOurs(plan);
      for k := 0 to |order|
        invariant Handled(plan.t, m, done + ClassIds(group, rep, order, k))
        invariant |Losers(m, done + ClassIds(group, rep, order, k))| == |Losers(m, done)| + merged
        invariant |Absorbers(m, done + ClassIds(group, rep, order, k))| == |Absorbers(m, done)| + groups
      {
        InOrder(group, rep, order, classes, k);
        var members := classes[order[k]];
        ghost var before := done + ClassIds(group, rep, order, k);
        ghost var s := ClassHasSurvivor(plan, key, rep, order, classes, k, done);
        if |members| >= 2 {
          var superseded := MergeMembers(members, counts, plan.t, m, before, s);
          merged, groups := merged + superseded, groups + 1;
        } else {
          LoneMember(plan.t, m, counts, members, s, before);
        }
      }
      EndClasses(group, rep, order, classes);
    }

    /** Sorts the rows of a bucket by root, in order of first appearance. */
    method CollectClasses(group: seq<Claim>, parent: array<nat>, ghost rep: seq<nat>, ghost height: seq<nat>)
      returns (order: seq<nat>, classes: map<nat, seq<Claim>>)
      requires DistinctIds(group) && parent.Length == |group| == |rep| && Forest(parent[..], rep, height)
      modifies parent
      ensures Collected(group, rep, order, classes)
    {
      hide Forest;
      order, classes := [], map[];
      for i := 0 to |group|
        invariant Forest(parent[..], rep, height) && |rep| == |group|
        invariant Collected(group[..i], rep[..i], order, classes)
        invariant forall r | r in classes :: r in order
      {
        var root := Find(parent, i, rep, height);
        ghost var order0, classes0 := order, classes;
        if root in classes {
          classes := classes[root := classes[root] + [group[i]]];
        } else {
          order, classes := order + [root], classes[root := [group[i]]];
        }
        CollectRow(group, rep, i, order0, classes0, order, classes);
      }
      assert group[..|group|] == group && rep[..|group|] == rep;
    }

    /** One bucket: compare texts, compare vectors, merge the classes. */
    method SweepBucket(group: seq<Claim>, counts: map<nat, nat>, ghost plan: Plan, ghost key: BucketKey, ghost done: set<nat>)
      returns (merged: nat, groups: nat)
      requires Follows(plan) && InboxValid(plan) && counts == plan.Evidence() && Handled(plan.t, plan.Goal(), done)
      requires group == Bucket(plan.rows, key) && Ids(group) !! done
      modifies this
      ensures InboxValid(plan) && old(claimedRefs) <= claimedRefs
      ensures Handled(plan.t, plan.Goal(), done + Ids(group))
      ensures |Losers(plan.Goal(), done + Ids(group))| == |Losers(plan.Goal(), done)| + merged
      ensures |Absorbers(plan.Goal(), done + Ids(group))| == |Absorbers(plan.Goal(), done)| + groups
      ensures BucketConcerned(plan, key, claimedRefs)
    {
      hide Bucket, DistinctIds, Collected, Losers, Absorbers, Linked, RowsOf, InboxGrew;
      hide TextsConcerned, VectorsConcerned, BucketConcerned, SameCards, Forest, SweepMerge, Counts, Ids;
      PlanDistinct(plan);
      BucketDistinct(plan.rows, key);
      var parent, rep, height := CompareTexts(group, counts, plan, key);
      CardsStillThere(plan, done, Ids(group), cards);
      ghost var textRefs := claimedRefs;
      CompareVectors(group, counts, parent, plan, key, rep, height);
      PairsConcerned(plan, key, rep, textRefs, claimedRefs);
      var order, classes := CollectClasses(group, parent, rep, height);
      merged, groups := MergeClasses(group, classes, order, counts, plan, key, rep, done);
    }

    /** The whole sweep in one transaction. */
    method Sweep(rows: seq<Claim>) returns (merged: nat, groups: nat, suspected: nat)
      requires IsScan(Snapshot(), owner, rows)
      modifies this
      ensures SweepPost(old(Snapshot()), owner, moment, rows, Snapshot(), merged)
      ensures RowsOf(old(Snapshot()), owner, rows)
      ensures var m := SweepMerge(old(Snapshot()), owner, moment, rows); groups == |Absorbers(m, m.sigma.Keys)|
      ensures |items| == |old(items)| + suspected
    {
      hide Bucket, RowsOf, InboxGrew, Losers, Absorbers, ClaimsAfter, EvidenceAfter, CardsAfter, SweepMerge, Ids;
      hide BucketConcerned, Buckets, DoneIds, AllSuspicionsClaimed;
      var counts, before := Counts(Snapshot(), owner, rows), |items|;
      ghost var plan := Plan(Snapshot(), owner, moment, rows);
      var order, buckets := SplitBuckets(rows);
      knownPairs := set i | 0 <= i < |items| && OpenMerge(items[i], owner) :: items[i].refs;
      claimedRefs := ClaimedRefs(items, owner);
      InboxStart(plan);
      PlanDistinct(plan);
      merged, groups := 0, 0;
      NothingHandled(plan.t, plan.Goal(), rows, order);
      for k := 0 to |order|
        invariant InboxValid(plan) && Handled(plan.t, plan.Goal(), DoneIds(rows, order, k))
        invariant |Losers(plan.Goal(), DoneIds(rows, order, k))| == merged && |Absorbers(plan.Goal(), DoneIds(rows, order, k))| == groups
        invariant forall l | 0 <= l < k :: BucketConcerned(plan, order[l], claimedRefs)
      {
        NextBucket(rows, order, buckets, k);
        var group := buckets[order[k]];
        ghost var refs, done := claimedRefs, DoneIds(rows, order, k);
        if |group| >= 2 {
          var more, classes := SweepBucket(group, counts, plan, order[k], done);
          merged, groups := merged + more, groups + classes;
        } else {
          LoneBucket(plan, order[k], done, claimedRefs);
        }
        forall l | 0 <= l < k ensures BucketConcerned(plan, order[l], claimedRefs) {
          StillConcerned(plan, order[l], refs, claimedRefs);
        }
      }
      AllBucketsDone(plan, order, buckets, claimedRefs, items);
      InboxOnlyGrew(plan, items);
      suspected := |items| - before;
    }
  }
}
