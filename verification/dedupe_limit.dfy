/** The scan limit of the duplicate sweep is also the limit of its fixpoint. */
module DedupeLimit {
  import opened Options
  import opened ClaimTables
  import opened ClaimClusters
  import opened ClaimMerge
  import opened DedupeSweep

  /** Two sweeps, the second straight after the first. */
  ghost predicate TwoSweeps(s0: Tables, s1: Tables, s2: Tables, owner: nat, moment1: int, moment2: int,
                            rows1: seq<Claim>, rows2: seq<Claim>, merged1: nat, merged2: nat) {
    && IsScan(s0, owner, rows1) && SweepPost(s0, owner, moment1, rows1, s1, merged1)
    && IsScan(s1, owner, rows2) && SweepPost(s1, owner, moment2, rows2, s2, merged2)
  }

  /** With at most `n` live claims the second sweep never does anything. */
  ghost predicate IdleUpTo(n: nat) {
    forall s0, s1, s2, owner, moment1, moment2, rows1, rows2, merged1, merged2 |
      TwoSweeps(s0, s1, s2, owner, moment1, moment2, rows1, rows2, merged1, merged2) && |LiveIds(s0, owner)| <= n ::
      s2 == s1 && merged2 == 0
  }

  // ---- One claim too many -----------------------------------------------------------------------

  function Letters(n: nat): (s: string)
    ensures |s| == n
  {
    seq(n, _ => 'a')
  }

  /** Claims of one wording, each in a category of its own, except that claim 500 shares that of
      claim 0. */
  function Twin(i: nat): Claim {
    Claim(i, 0, Letters(if i == 500 then 0 else i), Text(false, "tea", {}), Candidate, false, 0, None, {}, [])
  }

  predicate IsTwin(c: Claim) {
    c.id <= 500 && c == Twin(c.id)
  }

  function Crowd(): Tables {
    Tables(map i: nat | i <= 500 :: Twin(i), map[], [], map[])
  }

  lemma TwinsMergeIff(a: Claim, b: Claim)
    requires IsTwin(a) && IsTwin(b)
    ensures MergePair(a, b) <==> a == b || (a.id == 0 && b.id == 500) || (a.id == 500 && b.id == 0)
    ensures !DuplicateKind(a.text, b.text).Suspected?
  {
    assert a.category == b.category ==> |a.category| == |b.category|;
  }

  function UpTo(n: nat): (ids: set<nat>)
    ensures |ids| == n && forall i: nat :: i in ids <==> i < n
  {
    if n == 0 then {} else UpTo(n - 1) + {n - 1}
  }

  lemma CrowdIsLive()
    ensures |LiveIds(Crowd(), 0)| == 501
  {
    assert LiveIds(Crowd(), 0) == UpTo(501);
  }

  /** The first scan misses claim 500, the second claim 1. */
  function FirstScan(): (rows: seq<Claim>)
    ensures |rows| == 500 && forall i | 0 <= i < 500 :: rows[i] == Twin(i)
  {
    seq(500, i requires 0 <= i < 500 => Twin(i))
  }

  function SecondScan(): (rows: seq<Claim>)
    ensures |rows| == 500 && forall i | 0 <= i < 500 :: rows[i] == Twin(if i == 0 then 0 else i + 1)
  {
    seq(500, i requires 0 <= i < 500 => Twin(if i == 0 then 0 else i + 1))
  }

  lemma BothAreScans()
    ensures IsScan(Crowd(), 0, FirstScan()) && IsScan(Crowd(), 0, SecondScan())
  {
    CrowdIsLive();
  }

  lemma NothingSuspicious(rows: seq<Claim>)
    requires forall i | 0 <= i < |rows| :: IsTwin(rows[i])
    ensures InboxGrew(Crowd(), 0, rows, []) && AllSuspicionsClaimed(Crowd(), 0, rows, [])
  {
    forall a, b | a in rows && b in rows ensures !Suspicious(Crowd(), rows, a, b) {
      TwinsMergeIff(a, b);
    }
  }

  /** No claim of these rows is a duplicate of another. */
  ghost predicate AllApart(rows: seq<Claim>) {
    forall a, b | a in rows && b in rows && MergePair(a, b) :: a == b
  }

  lemma {:induction false} ChainStays(rows: seq<Claim>, p: seq<Claim>)
    requires AllApart(rows) && Chain(rows, p)
    ensures p[|p| - 1] == p[0]
  {
    if |p| > 1 {
      var front := p[..|p| - 1];
      assert Chain(rows, front);
      ChainStays(rows, front);
      assert MergePair(p[|p| - 2], p[|p| - 1]);
    }
  }

  /** Then a survivor stands only for itself. */
  lemma LonelySurvivor(rows: seq<Claim>, a: Claim, s: Claim)
    requires AllApart(rows) && Linked(rows, a, s)
    ensures s == a
  {
    hide AllApart;
    var p :| ChainFrom(rows, a, s, p);
    ChainStays(rows, p);
  }

  /** In the first scan no two claims are duplicates, so that the sweep changes nothing. */
  lemma FirstSweepIsIdle()
    ensures SweepPost(Crowd(), 0, 0, FirstScan(), Crowd(), 0)
  {
    var t, rows := Crowd(), FirstScan();
    BothAreScans();
    NothingSuspicious(rows);
    forall a, b | a in rows && b in rows && MergePair(a, b) ensures a == b {
      TwinsMergeIff(a, b);
    }
    var m := SweepMerge(t, 0, 0, rows);
    SigmaWellFormed(t, 0, 0, rows);
    forall x | x in m.sigma ensures m.sigma[x] == x {
      var a := rows[x];
      SigmaAt(t, 0, rows, a);
      LonelySurvivor(rows, a, Survivor(rows, Counts(t, 0, rows), a));
    }
    IdentityMerge(t, m, []);
    assert Losers(m, m.sigma.Keys) == {};
  }

  /** In the second scan the two duplicates meet, and one of them is merged. */
  lemma SecondSweepMerges() returns (s2: Tables, merged: nat)
    ensures SweepPost(Crowd(), 0, 0, SecondScan(), s2, merged) && merged > 0
  {
    hide MergeAll, Counts;
    var t, rows := Crowd(), SecondScan();
    BothAreScans();
    NothingSuspicious(rows);
    var m := SweepMerge(t, 0, 0, rows);
    s2, merged := MergeAll(t, m, []), |Losers(m, m.sigma.Keys)|;
    MergeAllItems(t, m);
    var a, b := Twin(0), Twin(500);
    assert rows[0] == a && rows[499] == b;
    TwinsMergeIff(a, b);
    LinkedStep(rows, a, b);
    SigmaMatchesLinks(t, 0, rows, a, b);
    assert (0 in Losers(m, m.sigma.Keys)) || (500 in Losers(m, m.sigma.Keys));
  }

  lemma MergeAllItems(t: Tables, m: Merge)
    ensures MergeAll(t, m, []).items == []
  {
  }

  /** The sharp bound: a second sweep straight after the first is idle for all tables with at most `n`
      live claims if and only if `n` is at most the scan limit. */
  lemma IdleIffWithinScan(n: nat)
    ensures IdleUpTo(n) <==> n <= MAX_DEDUPE_SCAN
  {
    hide IsScan, SweepPost, LiveIds;
    if n <= MAX_DEDUPE_SCAN {
      forall s0, s1, s2, owner, moment1, moment2, rows1, rows2, merged1, merged2 |
        TwoSweeps(s0, s1, s2, owner, moment1, moment2, rows1, rows2, merged1, merged2) && |LiveIds(s0, owner)| <= n
        ensures s2 == s1 && merged2 == 0
      {
        SecondSweepIsIdle(s0, s1, s2, owner, moment1, moment2, rows1, rows2, merged1, merged2);
      }
    } else {
      BothAreScans();
      CrowdIsLive();
      FirstSweepIsIdle();
      var s2, merged := SecondSweepMerges();
      assert TwoSweeps(Crowd(), Crowd(), s2, 0, 0, 0, FirstScan(), SecondScan(), 0, merged);
    }
  }
}
