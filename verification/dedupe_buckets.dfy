/** Buckets, classes and the order in which the sweep visits them. */
module DedupeBuckets {
  import opened Options
  import opened ClaimTables
  import opened ClaimClusters
  import opened ClaimMerge
  import opened DedupeSweep

  type BucketKey = (string, bool)

  function KeyOf(c: Claim): BucketKey {
    (c.category, c.text.negative)
  }

  /** The rows of one bucket in scan order. */
  function Bucket(rows: seq<Claim>, key: BucketKey): (group: seq<Claim>)
    ensures forall c :: c in group <==> c in rows && KeyOf(c) == key
  {
    if rows == [] then []
    else
      var last := rows[|rows| - 1];
      Bucket(rows[..|rows| - 1], key) + (if KeyOf(last) == key then [last] else [])
  }

  lemma {:induction false} BucketDistinct(rows: seq<Claim>, key: BucketKey)
    requires DistinctIds(rows)
    ensures DistinctIds(Bucket(rows, key))
  {
    if rows != [] {
      var front, last := rows[..|rows| - 1], rows[|rows| - 1];
      BucketDistinct(front, key);
      assert forall c | c in Bucket(front, key) :: c in front;
      assert forall c | c in front :: c.id != last.id;
    }
  }

  /** Links inside a bucket are the links among all scanned rows. */
  lemma BucketLinks(rows: seq<Claim>, key: BucketKey, a: Claim, b: Claim)
    requires a in Bucket(rows, key)
    ensures Linked(Bucket(rows, key), a, b) <==> Linked(rows, a, b)
  {
    var group := Bucket(rows, key);
    if Linked(group, a, b) {
      var p: seq<Claim> :| ChainFrom(group, a, b, p);
      assert ChainFrom(rows, a, b, p);
    }
    if Linked(rows, a, b) {
      var p: seq<Claim> :| ChainFrom(rows, a, b, p);
      forall k | 0 <= k < |p| ensures p[k] in group {
        ChainStaysInBucket(rows, p, k);
      }
      assert ChainFrom(group, a, b, p);
    }
  }

  lemma {:induction false} ClaimedRefsAppend(items: seq<Item>, item: Item, owner: nat)
    ensures ClaimedRefs(items + [item], owner)
            == ClaimedRefs(items, owner) + (if OpenMerge(item, owner) then item.refs else {})
  {
    var both := items + [item];
    assert forall i | 0 <= i < |items| :: both[i] == items[i];
    assert both[|items|] == item;
  }

  /** What a sweep starts from and is heading for. */
  datatype Plan = Plan(t: Tables, owner: nat, moment: int, rows: seq<Claim>) {
    ghost predicate Valid() {
      RowsOf(t, owner, rows)
    }
    ghost function Goal(): Merge
      requires Valid()
    {
      SweepMerge(t, owner, moment, rows)
    }
    ghost function Evidence(): map<nat, nat> {
      Counts(t, owner, rows)
    }
  }

  /** The whole class of survivor `s` under the merge `m`, `s` being its best member. */
  ghost predicate WholeClass(t: Tables, m: Merge, counts: map<nat, nat>, members: seq<Claim>, s: Claim) {
    && DistinctIds(members) && s in members && s.id in m.sigma && m.sigma[s.id] == s.id
    && (forall c | c in members :: c.id in t.claims && t.claims[c.id] == c && c.id in m.sigma && m.sigma[c.id] == s.id)
    && (forall id | id in m.sigma && m.sigma[id] == s.id :: id in Ids(members))
    && (forall c | c in members :: c == s || Outranks(s, c, counts))
  }

  // ---- Buckets ------------------------------------------------------------------------

  /** `order` lists every bucket key once and `buckets` holds the rows of each. */
  ghost predicate Buckets(rows: seq<Claim>, order: seq<BucketKey>, buckets: map<BucketKey, seq<Claim>>) {
    && (forall k, l | 0 <= k < l < |order| :: order[k] != order[l])
    && (forall key :: key in order <==> key in buckets)
    && (forall key | key in buckets :: buckets[key] == Bucket(rows, key) != [])
    && (forall c | c in rows :: KeyOf(c) in order)
  }

  method SplitBuckets(rows: seq<Claim>) returns (order: seq<BucketKey>, buckets: map<BucketKey, seq<Claim>>)
    ensures Buckets(rows, order, buckets)
  {
    order, buckets := [], map[];
    for i := 0 to |rows|
      invariant Buckets(rows[..i], order, buckets)
    {
      var key := KeyOf(rows[i]);
      ghost var order0, buckets0 := order, buckets;
      if key in buckets {
        buckets := buckets[key := buckets[key] + [rows[i]]];
      } else {
        order, buckets := order + [key], buckets[key := [rows[i]]];
      }
      SplitRow(rows, i, order0, buckets0, order, buckets);
    }
    assert rows[..|rows|] == rows;
  }

  lemma SplitRow(rows: seq<Claim>, i: nat, order: seq<BucketKey>, buckets: map<BucketKey, seq<Claim>>,
                 newOrder: seq<BucketKey>, newBuckets: map<BucketKey, seq<Claim>>)
    requires i < |rows| && Buckets(rows[..i], order, buckets)
    requires var key := KeyOf(rows[i]);
             if key in buckets then newOrder == order && newBuckets == buckets[key := buckets[key] + [rows[i]]]
             else newOrder == order + [key] && newBuckets == buckets[key := [rows[i]]]
    ensures Buckets(rows[..i + 1], newOrder, newBuckets)
  {
    hide Bucket;
    var key, front, more := KeyOf(rows[i]), rows[..i], rows[..i + 1];
    forall other ensures Bucket(more, other) == Bucket(front, other) + (if other == key then [rows[i]] else []) {
      BucketStep(rows, i, other);
    }
    if key !in buckets {
      assert Bucket(front, key) == [] by {
        NoRows(front, key);
      }
    }
    assert more == front + [rows[i]];
  }

  lemma BucketStep(rows: seq<Claim>, i: nat, key: BucketKey)
    requires i < |rows|
    ensures Bucket(rows[..i + 1], key) == Bucket(rows[..i], key) + (if KeyOf(rows[i]) == key then [rows[i]] else [])
  {
    assert rows[..i + 1][..i] == rows[..i];
  }

  lemma {:induction false} NoRows(rows: seq<Claim>, key: BucketKey)
    requires forall c | c in rows :: KeyOf(c) != key
    ensures Bucket(rows, key) == []
  {
    if rows != [] {
      NoRows(rows[..|rows| - 1], key);
    }
  }

  ghost function DoneIds(rows: seq<Claim>, order: seq<BucketKey>, k: nat): set<nat>
    requires k <= |order|
  {
    set i | 0 <= i < |rows| && KeyOf(rows[i]) in order[..k] :: rows[i].id
  }

  lemma NextBucket(rows: seq<Claim>, order: seq<BucketKey>, buckets: map<BucketKey, seq<Claim>>, k: nat)
    requires Buckets(rows, order, buckets) && k < |order| && DistinctIds(rows)
    ensures order[k] in buckets && buckets[order[k]] == Bucket(rows, order[k]) != []
    ensures Ids(Bucket(rows, order[k])) !! DoneIds(rows, order, k)
    ensures DoneIds(rows, order, k) + Ids(Bucket(rows, order[k])) == DoneIds(rows, order, k + 1)
  {
    var key, group := order[k], Bucket(rows, order[k]);
    assert order[..k + 1] == order[..k] + [key] && key !in order[..k];
    forall id | id in Ids(group) ensures exists i :: 0 <= i < |rows| && rows[i].id == id && KeyOf(rows[i]) == key {
      var j :| 0 <= j < |group| && group[j].id == id;
      assert group[j] in rows;
    }
    forall i | 0 <= i < |rows| && KeyOf(rows[i]) == key ensures rows[i].id in Ids(group) {
      assert rows[i] in group;
    }
  }

  lemma InboxStart(plan: Plan)
    ensures InboxGrew(plan.t, plan.owner, plan.rows, plan.t.items)
    ensures forall i | 0 <= i < |plan.t.items| && OpenMerge(plan.t.items[i], plan.owner) ::
              plan.t.items[i].refs <= ClaimedRefs(plan.t.items, plan.owner)
  {
  }

  lemma InboxOnlyGrew(plan: Plan, items: seq<Item>)
    requires InboxGrew(plan.t, plan.owner, plan.rows, items)
    ensures |plan.t.items| <= |items|
  {
  }

  lemma NothingHandled(t: Tables, m: Merge, rows: seq<Claim>, order: seq<BucketKey>)
    ensures DoneIds(rows, order, 0) == {} && Losers(m, {}) == {} && Absorbers(m, {}) == {}
    ensures ClaimsAfter(t, m, {}) == t.claims && EvidenceAfter(t, m, {}) == t.evidence && CardsAfter(t, m, {}) == t.cards
  {
  }

  lemma StillConcerned(plan: Plan, key: BucketKey, refs: set<nat>, more: set<nat>)
    requires BucketConcerned(plan, key, refs) && refs <= more
    ensures BucketConcerned(plan, key, more)
  {
  }

  /** A bucket with one row has nothing to compare and nothing to merge. */
  lemma LoneBucket(plan: Plan, key: BucketKey, done: set<nat>, refs: set<nat>)
    requires plan.Valid() && |Bucket(plan.rows, key)| == 1 && Ids(Bucket(plan.rows, key)) !! done
    ensures BucketConcerned(plan, key, refs)
    ensures var ids, m := Ids(Bucket(plan.rows, key)), plan.Goal();
            && ClaimsAfter(plan.t, m, done + ids) == ClaimsAfter(plan.t, m, done)
            && EvidenceAfter(plan.t, m, done + ids) == EvidenceAfter(plan.t, m, done)
            && CardsAfter(plan.t, m, done + ids) == CardsAfter(plan.t, m, done)
            && Losers(m, done + ids) == Losers(m, done) && Absorbers(m, done + ids) == Absorbers(m, done)
  {
    var group := Bucket(plan.rows, key);
    LinkedReflexive(group, group[0]);
    var s := ClassIsWhole(plan, key, [0], 0, group);
    PlanIsOurs(plan);
    LoneMember(plan.t, plan.Goal(), plan.Evidence(), group, s, done);
    assert forall a, b | a in group && Suspicious(plan.t, plan.rows, a, b) :: b in group;
  }

  lemma AllBucketsDone(plan: Plan, order: seq<BucketKey>, buckets: map<BucketKey, seq<Claim>>, refs: set<nat>, items: seq<Item>)
    requires plan.Valid() && Buckets(plan.rows, order, buckets)
    requires refs == ClaimedRefs(items, plan.owner)
    requires forall l | 0 <= l < |order| :: BucketConcerned(plan, order[l], refs)
    ensures DoneIds(plan.rows, order, |order|) == plan.Goal().sigma.Keys
    ensures AllSuspicionsClaimed(plan.t, plan.owner, plan.rows, items)
  {
    assert order[..|order|] == order;
    forall a, b | Suspicious(plan.t, plan.rows, a, b) ensures a.id in refs || b.id in refs {
      var l :| 0 <= l < |order| && order[l] == KeyOf(a);
      assert a in Bucket(plan.rows, order[l]);
    }
  }

  /** No suspicious pair of the bucket is left without a claim under review. */
  ghost predicate BucketConcerned(plan: Plan, key: BucketKey, refs: set<nat>) {
    forall a, b | a in Bucket(plan.rows, key) && Suspicious(plan.t, plan.rows, a, b) :: a.id in refs || b.id in refs
  }

  lemma PlanDistinct(plan: Plan)
    requires plan.Valid()
    ensures DistinctIds(plan.rows)
  {
  }

  lemma CardsStillThere(plan: Plan, done: set<nat>, ids: set<nat>, cards: map<nat, Card>)
    requires plan.Valid() && ids !! done && cards == CardsAfter(plan.t, plan.Goal(), done)
    ensures SameCards(cards, plan.t.cards, ids)
  {
  }

  lemma PairsConcerned(plan: Plan, key: BucketKey, rep: seq<nat>, textRefs: set<nat>, refs: set<nat>)
    requires var group := Bucket(plan.rows, key);
             && DistinctIds(group) && Partition(group, rep) && textRefs <= refs
             && TextsConcerned(group, textRefs, |group|, 0)
             && VectorsConcerned(group, rep, plan.t.cards, refs, |group|, 0)
    ensures BucketConcerned(plan, key, refs)
  {
    var group := Bucket(plan.rows, key);
    forall a, b | a in group && Suspicious(plan.t, plan.rows, a, b) ensures a.id in refs || b.id in refs {
      assert b in group;
      var i :| 0 <= i < |group| && group[i] == a;
      var j :| 0 <= j < |group| && group[j] == b;
      SuspiciousSymmetric(plan.t, plan.rows, a, b);
      BucketLinks(plan.rows, key, a, b);
      BucketLinks(plan.rows, key, b, a);
      if i < j {
        assert Compared(|group|, 0, i, j);
      } else {
        assert Compared(|group|, 0, j, i);
      }
    }
  }

  lemma CollectRow(group: seq<Claim>, rep: seq<nat>, i: nat, order: seq<nat>, classes: map<nat, seq<Claim>>,
                   newOrder: seq<nat>, newClasses: map<nat, seq<Claim>>)
    requires DistinctIds(group) && |rep| == |group| && i < |group|
    requires Collected(group[..i], rep[..i], order, classes) && forall r | r in classes :: r in order
    requires if rep[i] in classes then newOrder == order && newClasses == classes[rep[i] := classes[rep[i]] + [group[i]]]
             else newOrder == order + [rep[i]] && newClasses == classes[rep[i] := [group[i]]]
    ensures Collected(group[..i + 1], rep[..i + 1], newOrder, newClasses)
    ensures forall r | r in newClasses :: r in newOrder
  {
    var g, p := group[..i], rep[..i];
    var g', p' := group[..i + 1], rep[..i + 1];
    assert g' == g + [group[i]] && p' == p + [rep[i]];
    forall r | r in newOrder ensures r in newClasses && ClassRows(g', p', r, newClasses[r]) {
      if r != rep[i] {
        assert ClassRows(g, p, r, classes[r]);
        OtherClassKept(group, rep, i, r, classes[r]);
      } else if r in classes {
        assert ClassRows(g, p, r, classes[r]);
        ClassGrows(group, rep, i, classes[r]);
      } else {
        assert r !in order;
        assert g'[i] == group[i] && p'[i] == r;
      }
    }
  }

  lemma OtherClassKept(group: seq<Claim>, rep: seq<nat>, i: nat, r: nat, members: seq<Claim>)
    requires |rep| == |group| && i < |group| && r != rep[i] && ClassRows(group[..i], rep[..i], r, members)
    ensures ClassRows(group[..i + 1], rep[..i + 1], r, members)
  {
    var g', p' := group[..i + 1], rep[..i + 1];
    forall c | c in members ensures exists j :: 0 <= j < |g'| && g'[j] == c && p'[j] == r {
      var j :| 0 <= j < i && group[..i][j] == c && rep[..i][j] == r;
      assert g'[j] == c && p'[j] == r;
    }
    forall j | 0 <= j < |g'| && p'[j] == r ensures g'[j] in members {
      assert group[..i][j] == g'[j] && rep[..i][j] == r;
    }
  }

  lemma ClassGrows(group: seq<Claim>, rep: seq<nat>, i: nat, members: seq<Claim>)
    requires DistinctIds(group) && |rep| == |group| && i < |group| && ClassRows(group[..i], rep[..i], rep[i], members)
    ensures ClassRows(group[..i + 1], rep[..i + 1], rep[i], members + [group[i]])
  {
    var g', p', r, more := group[..i + 1], rep[..i + 1], rep[i], members + [group[i]];
    forall c | c in members ensures c.id != group[i].id && exists j :: 0 <= j < |g'| && g'[j] == c && p'[j] == r {
      var j :| 0 <= j < i && group[..i][j] == c && rep[..i][j] == r;
      assert g'[j] == c && p'[j] == r;
    }
    assert g'[i] == group[i] && p'[i] == r;
    forall j | 0 <= j < |g'| && p'[j] == r ensures g'[j] in more {
      if j < i {
        assert group[..i][j] == g'[j] && rep[..i][j] == r;
      }
    }
  }

  // ---- Classes of a bucket ------------------------------------------------------------

  /** `order` lists the roots once each and `classes` holds the rows of every root. */
  ghost predicate Collected(group: seq<Claim>, rep: seq<nat>, order: seq<nat>, classes: map<nat, seq<Claim>>) {
    && |rep| == |group|
    && (forall k, l | 0 <= k < l < |order| :: order[k] != order[l])
    && (forall r | r in order :: r in classes && ClassRows(group, rep, r, classes[r]))
    && (forall i | 0 <= i < |group| :: rep[i] in order)
  }

  ghost predicate ClassRows(group: seq<Claim>, rep: seq<nat>, root: nat, members: seq<Claim>)
    requires |rep| == |group|
  {
    && members != [] && DistinctIds(members)
    && (forall c | c in members :: exists i :: 0 <= i < |group| && group[i] == c && rep[i] == root)
    && (forall i | 0 <= i < |group| && rep[i] == root :: group[i] in members)
  }

  /** Ids of the rows whose class is among the first `k`. */
  ghost function ClassIds(group: seq<Claim>, rep: seq<nat>, order: seq<nat>, k: nat): set<nat>
    requires |rep| == |group| && k <= |order|
  {
    set i | 0 <= i < |group| && rep[i] in order[..k] :: group[i].id
  }

  lemma StartClasses(group: seq<Claim>, rep: seq<nat>, order: seq<nat>, classes: map<nat, seq<Claim>>, done: set<nat>)
    requires Collected(group, rep, order, classes)
    ensures |rep| == |group| && done + ClassIds(group, rep, order, 0) == done
  {
  }

  lemma EndClasses(group: seq<Claim>, rep: seq<nat>, order: seq<nat>, classes: map<nat, seq<Claim>>)
    requires Collected(group, rep, order, classes)
    ensures |rep| == |group| && ClassIds(group, rep, order, |order|) == Ids(group)
  {
    assert order[..|order|] == order;
  }

  lemma InOrder(group: seq<Claim>, rep: seq<nat>, order: seq<nat>, classes: map<nat, seq<Claim>>, k: nat)
    requires Collected(group, rep, order, classes) && k < |order|
    ensures order[k] in classes
  {
  }

  lemma PlanIsOurs(plan: Plan)
    requires plan.Valid()
    ensures WellFormed(plan.t, plan.Goal()) && plan.Goal().owner == plan.owner
    ensures plan.Goal().moment == plan.moment && plan.Goal().rule == TokenJaccard
  {
    SigmaWellFormed(plan.t, plan.owner, plan.moment, plan.rows);
  }

  lemma ClassIdsExtend(group: seq<Claim>, rep: seq<nat>, order: seq<nat>, classes: map<nat, seq<Claim>>, k: nat)
    requires DistinctIds(group) && Collected(group, rep, order, classes) && k < |order|
    ensures ClassIds(group, rep, order, k + 1) == ClassIds(group, rep, order, k) + Ids(classes[order[k]])
    ensures Ids(classes[order[k]]) !! ClassIds(group, rep, order, k)
    ensures Ids(classes[order[k]]) <= Ids(group)
  {
    var r, members := order[k], classes[order[k]];
    assert ClassRows(group, rep, r, members);
    assert order[..k + 1] == order[..k] + [r];
    assert r !in order[..k];
    forall id | id in Ids(members) ensures exists i :: 0 <= i < |group| && group[i].id == id && rep[i] == r {
      var j :| 0 <= j < |members| && members[j].id == id;
      assert members[j] in members;
    }
    forall i | 0 <= i < |group| && rep[i] == r ensures group[i].id in Ids(members) {
      assert group[i] in members;
    }
  }

  /** The rows of one root are exactly the claims of one survivor. */
  lemma ClassIsWhole(plan: Plan, key: BucketKey, rep: seq<nat>, root: nat, members: seq<Claim>) returns (s: Claim)
    requires plan.Valid() && DistinctIds(Bucket(plan.rows, key)) && Partition(Bucket(plan.rows, key), rep)
    requires ClassRows(Bucket(plan.rows, key), rep, root, members)
    ensures WholeClass(plan.t, plan.Goal(), plan.Evidence(), members, s)
  {
    var group, counts, sigma := Bucket(plan.rows, key), plan.Evidence(), plan.Goal().sigma;
    var a := members[0];
    assert a in members && a in group && a in plan.rows;
    s := Survivor(plan.rows, counts, a);
    forall c | c in plan.rows && Linked(plan.rows, a, c) ensures c in members {
      LinkedSameBucket(plan.rows, a, c);
      LinkedInClass(plan, key, rep, root, members, a, c);
    }
    SigmaAt(plan.t, plan.owner, plan.rows, a);
    forall c | c in members
      ensures c in plan.rows && c.id in sigma && sigma[c.id] == s.id && (c == s || Outranks(s, c, counts))
    {
      LinkedInClass(plan, key, rep, root, members, a, c);
      SigmaMatchesLinks(plan.t, plan.owner, plan.rows, a, c);
    }
    forall id | id in sigma && sigma[id] == s.id ensures id in Ids(members) {
      var c := plan.t.claims[id];
      SigmaMatchesLinks(plan.t, plan.owner, plan.rows, a, c);
      var j :| 0 <= j < |members| && members[j] == c;
    }
  }

  lemma LinkedInClass(plan: Plan, key: BucketKey, rep: seq<nat>, root: nat, members: seq<Claim>, a: Claim, c: Claim)
    requires plan.Valid() && Partition(Bucket(plan.rows, key), rep)
    requires ClassRows(Bucket(plan.rows, key), rep, root, members)
    requires a in members && c in Bucket(plan.rows, key) + members
    ensures c in plan.rows && (Linked(plan.rows, a, c) <==> c in members)
  {
    var group := Bucket(plan.rows, key);
    BucketLinks(plan.rows, key, a, c);
    var i :| 0 <= i < |group| && group[i] == a && rep[i] == root;
    var j :| 0 <= j < |group| && group[j] == c && (c in members ==> rep[j] == root);
  }

  lemma ClassHasSurvivor(plan: Plan, key: BucketKey, rep: seq<nat>, order: seq<nat>, classes: map<nat, seq<Claim>>, k: nat, done: set<nat>)
    returns (s: Claim)
    requires plan.Valid() && DistinctIds(Bucket(plan.rows, key)) && Partition(Bucket(plan.rows, key), rep)
    requires Collected(Bucket(plan.rows, key), rep, order, classes) && k < |order|
    requires Ids(Bucket(plan.rows, key)) !! done
    ensures WholeClass(plan.t, plan.Goal(), plan.Evidence(), classes[order[k]], s)
    ensures var group, members := Bucket(plan.rows, key), classes[order[k]];
            && members != []
            && Ids(members) !! done + ClassIds(group, rep, order, k)
            && done + ClassIds(group, rep, order, k) + Ids(members) == done + ClassIds(group, rep, order, k + 1)
  {
    var group, members := Bucket(plan.rows, key), classes[order[k]];
    ClassIdsExtend(group, rep, order, classes, k);
    assert order[k] in order;
    s := ClassIsWhole(plan, key, rep, order[k], members);
  }

  /** A claim without duplicates needs no change. */
  lemma LoneMember(t: Tables, m: Merge, counts: map<nat, nat>, members: seq<Claim>, s: Claim, done: set<nat>)
    requires WellFormed(t, m) && WholeClass(t, m, counts, members, s) && |members| == 1 && Ids(members) !! done
    ensures ClaimsAfter(t, m, done + Ids(members)) == ClaimsAfter(t, m, done)
    ensures EvidenceAfter(t, m, done + Ids(members)) == EvidenceAfter(t, m, done)
    ensures CardsAfter(t, m, done + Ids(members)) == CardsAfter(t, m, done)
    ensures Losers(m, done + Ids(members)) == Losers(m, done) && Absorbers(m, done + Ids(members)) == Absorbers(m, done)
  {
    assert members[0] == s && s.id in Ids(members);
    assert Ids(members) == {s.id};
    HandleSurvivor(t, m, done, s.id);
    assert Absorbed(m, s.id) == {};
  }

  /** The members already superseded after `i` iterations. */
  function SupersededSoFar(members: seq<Claim>, s: Claim, i: nat): set<nat>
    requires i <= |members|
  {
    Ids(members[..i]) - {s.id}
  }

  lemma FirstMember(t: Tables, members: seq<Claim>, s: Claim, done: set<nat>)
    ensures SupersededSoFar(members, s, 0) == {} && done + {} == done && Summaries(t, {}) == {}
  {
  }

  lemma MemberStep(members: seq<Claim>, s: Claim, i: nat, done: set<nat>)
    requires DistinctIds(members) && s in members && Ids(members) !! done && i < |members|
    ensures var id, before, after := members[i].id, SupersededSoFar(members, s, i), SupersededSoFar(members, s, i + 1);
            && s.id !in done + before
            && if id == s.id then after == before
               else id !in done + before && after == before + {id} && |after| == |before| + 1 && done + before + {id} == done + after
  {
    IdsExtend(members, i);
    assert members[i] in members;
  }

  lemma NextMember(t: Tables, m: Merge, counts: map<nat, nat>, members: seq<Claim>, s: Claim, done: set<nat>, i: nat)
    requires WholeClass(t, m, counts, members, s) && Ids(members) !! done && i < |members|
    ensures var c, before, after := members[i], SupersededSoFar(members, s, i), SupersededSoFar(members, s, i + 1);
            && c.id in m.sigma && m.sigma[c.id] == s.id && c.id in t.claims && t.claims[c.id] == c
            && s.id !in done + before
            && if c.id == s.id then after == before
               else
                 && c.id !in done + before && after == before + {c.id} && |after| == |before| + 1
                 && done + before + {c.id} == done + after
                 && Summaries(t, after) == Summaries(t, before) + c.summary
  {
    hide Summaries, Outranks, SupersededSoFar, Ids;
    assert members[i] in members;
    MemberStep(members, s, i, done);
    SummariesAdd(t, SupersededSoFar(members, s, i), members[i].id);
  }

  lemma InboxAppend(plan: Plan, items: seq<Item>, item: Item, a: Claim, b: Claim)
    requires plan.Valid() && InboxGrew(plan.t, plan.owner, plan.rows, items)
    requires ItemFor(plan.t, plan.rows, plan.Evidence(), plan.owner, item, a, b)
    requires item.refs !! ClaimedRefs(items, plan.owner)
    ensures InboxGrew(plan.t, plan.owner, plan.rows, items + [item])
  {
    hide ItemFor, Counts, RowsOf;
    var both := items + [item];
    forall k | |plan.t.items| <= k < |both|
      ensures (exists x, y :: ItemFor(plan.t, plan.rows, plan.Evidence(), plan.owner, both[k], x, y))
              && both[k].refs !! ClaimedRefs(both[..k], plan.owner)
    {
      if k < |items| {
        assert both[k] == items[k] && both[..k] == items[..k];
        var x, y :| ItemFor(plan.t, plan.rows, plan.Evidence(), plan.owner, items[k], x, y);
        assert ItemFor(plan.t, plan.rows, plan.Evidence(), plan.owner, both[k], x, y);
      } else {
        assert both[..k] == items && both[k] == item;
        assert ItemFor(plan.t, plan.rows, plan.Evidence(), plan.owner, both[k], a, b);
      }
    }
  }

  method BestMember(members: seq<Claim>, counts: map<nat, nat>) returns (survivor: Claim)
    requires members != [] && DistinctIds(members)
    ensures survivor in members
    ensures forall c | c in members :: c == survivor || Outranks(survivor, c, counts)
  {
    survivor := members[0];
    for i := 1 to |members|
      invariant survivor in members[..i]
      invariant forall j | 0 <= j < i :: members[j] == survivor || Outranks(survivor, members[j], counts)
    {
      KeyMeansOutranks(members[i], survivor, counts);
      if KeyBefore(SurvivorKey(members[i], counts), SurvivorKey(survivor, counts)) {
        survivor := members[i];
      }
    }
  }

  lemma SummariesAdd(t: Tables, ids: set<nat>, id: nat)
    requires id in t.claims
    ensures Summaries(t, ids + {id}) == Summaries(t, ids) + t.claims[id].summary
  {
  }

  lemma IdsExtend(members: seq<Claim>, i: nat)
    requires i < |members| && DistinctIds(members)
    ensures Ids(members[..i + 1]) == Ids(members[..i]) + {members[i].id}
    ensures members[i].id !in Ids(members[..i]) && members[i].id in Ids(members)
  {
    assert members[..i + 1] == members[..i] + [members[i]];
  }

  lemma ClassIsAbsorbed(t: Tables, m: Merge, counts: map<nat, nat>, members: seq<Claim>, s: Claim, done: set<nat>)
    requires |members| >= 2 && WholeClass(t, m, counts, members, s) && Ids(members) !! done
    ensures var merged := SupersededSoFar(members, s, |members|);
            && merged == Absorbed(m, s.id) && merged != {} && |merged| == |members| - 1
            && s.id !in done + merged && done + merged + {s.id} == done + Ids(members)
  {
    hide Outranks, Summaries;
    assert members[..|members|] == members;
    var other := if members[0].id == s.id then members[1] else members[0];
    assert members[0].id != members[1].id;
    assert s.id in Ids(members) && other.id in Ids(members);
    assert other.id in SupersededSoFar(members, s, |members|);
    IdsSize(members);
  }

  // ---- Bookkeeping of the pair loops --------------------------------------------------

  /** Every compared pair in the review band has a claim under review. */
  ghost predicate TextsConcerned(group: seq<Claim>, refs: set<nat>, left: nat, right: nat) {
    forall i: nat, j: nat | i < |group| && j < |group| && Compared(left, right, i, j)
                            && DuplicateKind(group[i].text, group[j].text).Suspected? ::
      group[i].id in refs || group[j].id in refs
  }

  ghost predicate VectorsConcerned(group: seq<Claim>, rep: seq<nat>, cards: map<nat, Card>, refs: set<nat>, left: nat, right: nat) {
    && |rep| == |group|
    && forall i: nat, j: nat | i < |group| && j < |group| && Compared(left, right, i, j)
                               && rep[i] != rep[j] && CardsClose(cards, group[i].id, group[j].id) ::
         group[i].id in refs || group[j].id in refs
  }

  lemma SingletonsSound(group: seq<Claim>, parent: seq<nat>, rep: seq<nat>, height: seq<nat>, refs: set<nat>)
    requires |parent| == |rep| == |height| == |group|
    requires forall i | 0 <= i < |group| :: parent[i] == i && rep[i] == i
    ensures Forest(parent, rep, height) && Sound(group, rep)
    ensures Merged(group, rep, 0, 0) && TextsConcerned(group, refs, 0, 0)
  {
    forall i, j | 0 <= i < |group| && 0 <= j < |group| && rep[i] == rep[j]
      ensures Linked(group, group[i], group[j])
    {
      LinkedReflexive(group, group[i]);
    }
  }

  lemma StartRow(group: seq<Claim>, rep: seq<nat>, refs: set<nat>, left: nat)
    requires Merged(group, rep, left, 0) && TextsConcerned(group, refs, left, 0)
    ensures Merged(group, rep, left, left + 1) && TextsConcerned(group, refs, left, left + 1)
  {
    assert forall i: nat, j: nat :: Compared(left, left + 1, i, j) ==> Compared(left, 0, i, j);
  }

  lemma EndRow(group: seq<Claim>, rep: seq<nat>, refs: set<nat>, left: nat)
    requires left < |group|
    requires Merged(group, rep, left, |group|) && TextsConcerned(group, refs, left, |group|)
    ensures Merged(group, rep, left + 1, 0) && TextsConcerned(group, refs, left + 1, 0)
  {
    assert forall i: nat, j: nat | j < |group| :: Compared(left + 1, 0, i, j) ==> Compared(left, |group|, i, j);
  }

  lemma NextPair(group: seq<Claim>, rep: seq<nat>, newRep: seq<nat>, refs: set<nat>, newRefs: set<nat>, left: nat, right: nat)
    requires left < right < |group|
    requires Merged(group, rep, left, right) && TextsConcerned(group, refs, left, right) && refs <= newRefs
    requires newRep == rep || (|newRep| == |rep| && newRep == Relabel(rep, rep[left], rep[right]))
    requires MergePair(group[left], group[right]) ==> newRep == Relabel(rep, rep[left], rep[right])
    requires DuplicateKind(group[left].text, group[right].text).Suspected? ==> group[left].id in newRefs || group[right].id in newRefs
    ensures Merged(group, newRep, left, right + 1) && TextsConcerned(group, newRefs, left, right + 1)
  {
    forall i: nat, j: nat | i < |group| && j < |group| && Compared(left, right + 1, i, j)
      ensures MergePair(group[i], group[j]) ==> newRep[i] == newRep[j]
      ensures DuplicateKind(group[i].text, group[j].text).Suspected? ==> group[i].id in newRefs || group[j].id in newRefs
    {
      assert Compared(left, right, i, j) || (i == left && j == right);
    }
  }

  lemma AllPairsCompared(group: seq<Claim>, rep: seq<nat>)
    requires DistinctIds(group) && Sound(group, rep) && Merged(group, rep, |group|, 0)
    ensures Partition(group, rep)
  {
    SoundAndMergedIsPartition(group, rep);
  }

  lemma NoVectorPair(group: seq<Claim>, rep: seq<nat>, cards: map<nat, Card>, refs: set<nat>)
    requires Partition(group, rep)
    ensures VectorsConcerned(group, rep, cards, refs, 0, 0)
  {
    assert forall i: nat, j: nat :: !Compared(0, 0, i, j);
  }

  lemma StartVectorRow(group: seq<Claim>, rep: seq<nat>, cards: map<nat, Card>, refs: set<nat>, left: nat)
    requires VectorsConcerned(group, rep, cards, refs, left, 0)
    ensures VectorsConcerned(group, rep, cards, refs, left, left + 1)
  {
    assert forall i: nat, j: nat :: Compared(left, left + 1, i, j) ==> Compared(left, 0, i, j);
  }

  lemma EndVectorRow(group: seq<Claim>, rep: seq<nat>, cards: map<nat, Card>, refs: set<nat>, left: nat)
    requires left < |group| && VectorsConcerned(group, rep, cards, refs, left, |group|)
    ensures VectorsConcerned(group, rep, cards, refs, left + 1, 0)
  {
    assert forall i: nat, j: nat | j < |group| :: Compared(left + 1, 0, i, j) ==> Compared(left, |group|, i, j);
  }

  lemma NextVectorPair(group: seq<Claim>, rep: seq<nat>, cards: map<nat, Card>, refs: set<nat>, newRefs: set<nat>, left: nat, right: nat)
    requires left < right < |group| == |rep| && refs <= newRefs
    requires VectorsConcerned(group, rep, cards, refs, left, right)
    requires rep[left] != rep[right] && CardsClose(cards, group[left].id, group[right].id) ==>
               group[left].id in newRefs || group[right].id in newRefs
    ensures VectorsConcerned(group, rep, cards, newRefs, left, right + 1)
  {
    assert forall i: nat, j: nat :: Compared(left, right + 1, i, j) ==> Compared(left, right, i, j) || (i == left && j == right);
  }

  /** Two rows of one bucket, seen from the scanned rows. */
  lemma SameGroup(rows: seq<Claim>, key: BucketKey, left: nat, right: nat)
    requires DistinctIds(Bucket(rows, key)) && left < right < |Bucket(rows, key)|
    ensures var a, b := Bucket(rows, key)[left], Bucket(rows, key)[right];
            a in rows && b in rows && a.id != b.id && SameBucket(a, b)
  {
    assert Bucket(rows, key)[left] in Bucket(rows, key) && Bucket(rows, key)[right] in Bucket(rows, key);
  }

  lemma SameVectors(cards: map<nat, Card>, other: map<nat, Card>, ids: set<nat>)
    requires SameCards(cards, other, ids)
    ensures VectorsOf(cards, ids) == VectorsOf(other, ids)
  {
  }

  predicate SameCards(cards: map<nat, Card>, other: map<nat, Card>, ids: set<nat>) {
    forall id | id in ids :: (id in cards <==> id in other) && (id in cards ==> cards[id] == other[id])
  }

  /** The stored vectors of some claims. */
  function VectorsOf(cards: map<nat, Card>, ids: set<nat>): map<nat, seq<real>> {
    map id | id in ids && id in cards && cards[id].embedding.Some? :: cards[id].embedding.value
  }

  lemma UnlinkedIsSuspicious(plan: Plan, key: BucketKey, rep: seq<nat>, left: nat, right: nat)
    requires plan.Valid()
    requires var group := Bucket(plan.rows, key);
             && DistinctIds(group) && Partition(group, rep) && left < right < |group| && rep[left] != rep[right]
             && CardsClose(plan.t.cards, group[left].id, group[right].id)
    ensures var group := Bucket(plan.rows, key);
            Suspicious(plan.t, plan.rows, group[left], group[right])
  {
    var group := Bucket(plan.rows, key);
    assert group[left] in group && group[right] in group;
    BucketLinks(plan.rows, key, group[left], group[right]);
  }
}
