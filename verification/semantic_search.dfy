/** The semantic candidate list of a search: focused chunks and whole-card vectors merged into
    one list of the nearest cards. */
module SemanticSearch {
  import opened Options
  import opened SetSizes

  const CANDIDATES := 50

  /** A card and its distance from the query. Ties are broken by id. */
  datatype Hit = Hit(id: nat, distance: real)

  predicate Before(a: Hit, b: Hit) {
    a.distance < b.distance || (a.distance == b.distance && a.id < b.id)
  }

  lemma BeforeIsTotal(a: Hit, b: Hit)
    ensures a.id != b.id ==> Before(a, b) || Before(b, a)
  {
  }

  lemma BeforeIsTransitive(a: Hit, b: Hit, c: Hit)
    ensures Before(a, b) && Before(b, c) ==> Before(a, c)
  {
  }

  function Elements(r: seq<Hit>): set<Hit> {
    set h | h in r
  }

  ghost predicate Sorted(r: seq<Hit>) {
    forall i, j | 0 <= i < j < |r| :: Before(r[i], r[j])
  }

  /** `r` lists the hits of `s`, nearest first. */
  ghost predicate Ranking(s: set<Hit>, r: seq<Hit>) {
    Sorted(r) && forall h :: h in r <==> h in s
  }

  function Top(r: seq<Hit>, n: nat): seq<Hit> {
    if |r| <= n then r else r[..n]
  }

  ghost function Closer(s: set<Hit>, h: Hit): set<Hit> {
    set x | x in s && Before(x, h)
  }

  // ---- Positions in a ranking -----------------------------------------------------------------

  lemma {:induction false} PrefixSize(r: seq<Hit>, i: nat)
    requires Sorted(r) && i <= |r|
    ensures |Elements(r[..i])| == i
  {
    hide Elements, Before;
    if i == 0 {
      assert Elements(r[..0]) == {} by { NoElements(); }
    } else {
      PrefixSize(r, i - 1);
      assert r[..i] == r[..i - 1] + [r[i - 1]];
      LastIsNew(r, i - 1);
      ElementsAppend(r[..i - 1], r[i - 1]);
    }
  }

  lemma NoElements()
    ensures Elements([]) == {}
  {
  }

  lemma LastIsNew(r: seq<Hit>, i: nat)
    requires Sorted(r) && i < |r|
    ensures r[i] !in r[..i]
  {
    forall k | 0 <= k < i ensures r[k] != r[i] {
      assert Before(r[k], r[i]);
    }
  }

  lemma ElementsAppend(r: seq<Hit>, h: Hit)
    requires h !in r
    ensures |Elements(r + [h])| == |Elements(r)| + 1
  {
    assert Elements(r + [h]) == Elements(r) + {h};
  }

  lemma BeforeIsEarlier(r: seq<Hit>, k: nat, i: nat)
    requires Sorted(r) && k < |r| && i < |r| && Before(r[k], r[i])
    ensures k < i
  {
  }

  lemma InTop(r: seq<Hit>, n: nat, i: nat)
    requires i < |r|
    ensures i < n ==> r[i] in Top(r, n)
  {
    if i < n {
      assert Top(r, n)[i] == r[i];
    }
  }

  /** The position of a hit is the number of closer hits. */
  lemma PositionIsCloserCount(s: set<Hit>, r: seq<Hit>, i: nat)
    requires Ranking(s, r) && i < |r|
    ensures |Closer(s, r[i])| == i && Closer(s, r[i]) == Elements(r[..i])
  {
    forall h ensures h in Closer(s, r[i]) <==> h in r[..i] {
      if h in Closer(s, r[i]) {
        var k :| 0 <= k < |r| && r[k] == h;
        BeforeIsEarlier(r, k, i);
        assert r[..i][k] == h;
      }
      if h in r[..i] {
        var k :| 0 <= k < i && r[..i][k] == h;
        assert Before(r[k], r[i]);
      }
    }
    assert Closer(s, r[i]) == Elements(r[..i]);
    PrefixSize(r, i);
  }

  lemma RankingSize(s: set<Hit>, r: seq<Hit>)
    requires Ranking(s, r)
    ensures |r| == |s|
  {
    PrefixSize(r, |r|);
    assert r[..|r|] == r;
    assert s == Elements(r);
  }

  /** A hit with fewer closer hits than there are places is found at exactly that place. */
  lemma PlacedByCount(s: set<Hit>, r: seq<Hit>, h: Hit)
    requires Ranking(s, r) && h in s
    ensures |Closer(s, h)| < |r| && r[|Closer(s, h)|] == h
  {
    var k :| 0 <= k < |r| && r[k] == h;
    PositionIsCloserCount(s, r, k);
  }

  // ---- Dropping candidates --------------------------------------------------------------------

  /** Dropping candidates loses nothing among the first n exactly when every dropped one has n
      kept ones before it. */
  ghost predicate SafeDrop(all: set<Hit>, kept: set<Hit>, n: nat) {
    forall d | d in all - kept :: |Closer(kept, d)| >= n
  }

  /** Nothing dropped safely is among the first n. */
  lemma FirstOnesKept(all: set<Hit>, kept: set<Hit>, n: nat, full: seq<Hit>, i: nat)
    requires kept <= all && Ranking(all, full) && SafeDrop(all, kept, n) && i < n && i < |full|
    ensures full[i] in kept
  {
    PositionIsCloserCount(all, full, i);
    assert full[i] in all;
    SubsetSize(Closer(kept, full[i]), Closer(all, full[i]));
  }

  lemma SamePlace(all: set<Hit>, kept: set<Hit>, n: nat, full: seq<Hit>, part: seq<Hit>, i: nat)
    requires kept <= all && Ranking(all, full) && Ranking(kept, part) && SafeDrop(all, kept, n) && i < n && i < |full|
    ensures i < |part| && part[i] == full[i]
  {
    hide SafeDrop;
    PositionIsCloserCount(all, full, i);
    forall h | h in Closer(all, full[i]) ensures h in kept {
      var k :| 0 <= k < i && full[..i][k] == h;
      FirstOnesKept(all, kept, n, full, k);
    }
    assert Closer(kept, full[i]) == Closer(all, full[i]);
    FirstOnesKept(all, kept, n, full, i);
    PlacedByCount(kept, part, full[i]);
  }

  /** A safe drop leaves as many places filled among the first n. */
  lemma EnoughKept(all: set<Hit>, kept: set<Hit>, n: nat, full: seq<Hit>, part: seq<Hit>)
    requires kept <= all && Ranking(all, full) && Ranking(kept, part) && SafeDrop(all, kept, n)
    ensures |part| <= |full| && (|part| == |full| || |part| >= n)
  {
    hide Ranking, Before;
    RankingSize(all, full);
    RankingSize(kept, part);
    SubsetSize(kept, all);
    if all - kept != {} {
      var d :| d in all - kept;
      SubsetSize(Closer(kept, d), kept);
    } else {
      assert all == kept + (all - kept);
    }
  }

  lemma TopUnchangedIfSafe(all: set<Hit>, kept: set<Hit>, n: nat, full: seq<Hit>, part: seq<Hit>)
    requires kept <= all && Ranking(all, full) && Ranking(kept, part) && SafeDrop(all, kept, n)
    ensures Top(part, n) == Top(full, n)
  {
    hide Ranking, SafeDrop, Closer;
    EnoughKept(all, kept, n, full, part);
    forall i | 0 <= i < |Top(full, n)| ensures i < |part| && part[i] == full[i] {
      SamePlace(all, kept, n, full, part, i);
    }
  }

  lemma {:induction false} FirstDropped(all: set<Hit>, kept: set<Hit>, full: seq<Hit>, i: nat) returns (k: nat)
    requires kept <= all && Ranking(all, full) && i < |full| && full[i] !in kept
    ensures k <= i && full[k] !in kept && forall l | 0 <= l < k :: full[l] in kept
  {
    if l :| 0 <= l < i && full[l] !in kept {
      k := FirstDropped(all, kept, full, l);
    } else {
      k := i;
    }
  }

  lemma TopChangesIfUnsafe(all: set<Hit>, kept: set<Hit>, n: nat, full: seq<Hit>, part: seq<Hit>)
    requires kept <= all && Ranking(all, full) && Ranking(kept, part) && !SafeDrop(all, kept, n)
    ensures Top(part, n) != Top(full, n)
  {
    var d :| d in all - kept && |Closer(kept, d)| < n;
    var i :| 0 <= i < |full| && full[i] == d;
    var k := FirstDropped(all, kept, full, i);
    PositionIsCloserCount(all, full, k);
    assert Closer(all, full[k]) <= Closer(kept, d) by {
      forall h | h in Closer(all, full[k]) ensures h in Closer(kept, d) {
        var l :| 0 <= l < k && full[..k][l] == h;
        assert full[l] in kept;
        assert k == i || Before(full[k], full[i]);
      }
    }
    SubsetSize(Closer(all, full[k]), Closer(kept, d));
    assert k < n && full[k] == Top(full, n)[k];
    assert k < |Top(part, n)| ==> Top(part, n)[k] in part;
  }

  /** Exactly when a cut-off of the candidates does not show in the first n. */
  lemma TopUnchangedIffSafe(all: set<Hit>, kept: set<Hit>, n: nat, full: seq<Hit>, part: seq<Hit>)
    requires kept <= all && Ranking(all, full) && Ranking(kept, part)
    ensures Top(part, n) == Top(full, n) <==> SafeDrop(all, kept, n)
  {
    if SafeDrop(all, kept, n) {
      TopUnchangedIfSafe(all, kept, n, full, part);
    } else {
      TopChangesIfUnsafe(all, kept, n, full, part);
    }
  }

  // ---- The two queries --------------------------------------------------------------------------

  /** An eligible card as the query sees it: the distance of its whole vector, and those of its
      chunks. */
  datatype Scored = Scored(whole: Option<real>, chunks: seq<real>)

  /** No card carries both a whole vector and chunks. */
  ghost predicate Disjoint(cards: map<nat, Scored>) {
    forall id | id in cards :: cards[id].whole.None? || cards[id].chunks == []
  }

  function Nearest(distances: seq<real>): (d: real)
    requires distances != []
    ensures d in distances && forall i | 0 <= i < |distances| :: d <= distances[i]
  {
    var n := |distances| - 1;
    if n == 0 then distances[0]
    else
      var rest := Nearest(distances[..n]);
      assert distances == distances[..n] + [distances[n]];
      if distances[n] < rest then distances[n] else rest
  }

  ghost function ChunkHits(cards: map<nat, Scored>): set<Hit> {
    set id | id in cards && cards[id].chunks != [] :: Hit(id, Nearest(cards[id].chunks))
  }

  ghost function WholeHits(cards: map<nat, Scored>): set<Hit> {
    set id | id in cards && cards[id].whole.Some? :: Hit(id, cards[id].whole.value)
  }

  /** The chunk query: the nearest chunk of each card, cut off after 50 cards in order of id. */
  ghost predicate ChunkAnswer(cards: map<nat, Scored>, rows: seq<Hit>) {
    && (forall h | h in rows :: h in ChunkHits(cards))
    && (forall i, j | 0 <= i < j < |rows| :: rows[i].id < rows[j].id)
    && |rows| <= CANDIDATES && (|rows| == CANDIDATES || forall h | h in ChunkHits(cards) :: h in rows)
    && (forall h, r | h in ChunkHits(cards) && h !in rows && r in rows :: r.id < h.id)
  }

  /** The whole-vector query: the 50 nearest cards. */
  ghost predicate WholeAnswer(cards: map<nat, Scored>, rows: seq<Hit>) {
    exists r :: Ranking(WholeHits(cards), r) && rows == Top(r, CANDIDATES)
  }

  // ---- The merge ------------------------------------------------------------------------------------

  /** The smallest distance seen for each card. */
  ghost predicate Best(rows: seq<Hit>, best: map<nat, real>) {
    && (forall h | h in rows :: h.id in best && best[h.id] <= h.distance)
    && (forall id | id in best :: Hit(id, best[id]) in rows)
  }

  method BestPerCard(candidates: seq<Hit>) returns (best: map<nat, real>)
    ensures Best(candidates, best)
  {
    best := map[];
    for i := 0 to |candidates|
      invariant Best(candidates[..i], best)
    {
      var row := candidates[i];
      assert candidates[..i + 1] == candidates[..i] + [row];
      if row.id !in best || row.distance < best[row.id] {
        best := best[row.id := row.distance];
      }
    }
    assert candidates[..|candidates|] == candidates;
  }

  /** Inserts a hit into a sorted list. */
  method Insert(sorted: seq<Hit>, h: Hit) returns (r: seq<Hit>)
    requires Sorted(sorted) && forall x | x in sorted :: x.id != h.id
    ensures Sorted(r) && forall x :: x in r <==> x in sorted || x == h
  {
    var i := 0;
    while i < |sorted| && Before(sorted[i], h)
      invariant 0 <= i <= |sorted| && forall k | 0 <= k < i :: Before(sorted[k], h)
    {
      i := i + 1;
    }
    r := sorted[..i] + [h] + sorted[i..];
    SortedInsert(sorted, i, h);
  }

  lemma MembersInsert(sorted: seq<Hit>, i: nat, h: Hit)
    requires i <= |sorted|
    ensures forall x :: x in sorted[..i] + [h] + sorted[i..] <==> x in sorted || x == h
  {
    assert sorted == sorted[..i] + sorted[i..];
  }

  lemma SortedInsert(sorted: seq<Hit>, i: nat, h: Hit)
    requires Sorted(sorted) && i <= |sorted| && forall x | x in sorted :: x.id != h.id
    requires (forall k | 0 <= k < i :: Before(sorted[k], h)) && (i < |sorted| ==> !Before(sorted[i], h))
    ensures var r := sorted[..i] + [h] + sorted[i..];
            Sorted(r) && forall x :: x in r <==> x in sorted || x == h
  {
    hide Before;
    var r := sorted[..i] + [h] + sorted[i..];
    MembersInsert(sorted, i, h);
    forall k | i <= k < |sorted| ensures Before(h, sorted[k]) {
      assert sorted[i] in sorted;
      BeforeIsTotal(h, sorted[i]);
      BeforeIsTransitive(h, sorted[i], sorted[k]);
    }
    forall m, n | 0 <= m < n < |r| ensures Before(r[m], r[n]) {
      assert r[m] == (if m < i then sorted[m] else if m == i then h else sorted[m - 1]);
      assert r[n] == (if n < i then sorted[n] else if n == i then h else sorted[n - 1]);
    }
  }

  /** The merged semantic list: the best distance per card, nearest first, at most 50. */
  method SemanticList(chunkRows: seq<Hit>, wholeRows: seq<Hit>) returns (list: seq<Hit>, ghost ranking: seq<Hit>, ghost best: map<nat, real>)
    ensures Best(chunkRows + wholeRows, best)
    ensures Ranking(set id | id in best :: Hit(id, best[id]), ranking)
    ensures list == Top(ranking, CANDIDATES)
  {
    var found := BestPerCard(chunkRows + wholeRows);
    best := found;
    var pending := found.Keys;
    var sorted: seq<Hit> := [];
    while pending != {}
      invariant pending <= found.Keys && Sorted(sorted)
      invariant forall h :: h in sorted <==> h.id in found && h.id !in pending && h.distance == found[h.id]
      decreases |pending|
    {
      var id :| id in pending;
      sorted := Insert(sorted, Hit(id, found[id]));
      pending := pending - {id};
    }
    ranking := sorted;
    list := Top(sorted, CANDIDATES);
  }

  /** With one kind of vector per card the merge keeps every candidate as it is. */
  lemma BestIsUnion(cards: map<nat, Scored>, chunkRows: seq<Hit>, wholeRows: seq<Hit>, best: map<nat, real>)
    requires Disjoint(cards) && Best(chunkRows + wholeRows, best)
    requires forall h | h in chunkRows :: h in ChunkHits(cards)
    requires forall h | h in wholeRows :: h in WholeHits(cards)
    ensures (set id | id in best :: Hit(id, best[id])) == Elements(chunkRows + wholeRows)
  {
    var rows := chunkRows + wholeRows;
    forall h | h in rows ensures h.id in best && best[h.id] == h.distance {
      var other := Hit(h.id, best[h.id]);
      assert other in rows;
      assert h in ChunkHits(cards) || h in WholeHits(cards);
      assert other in ChunkHits(cards) || other in WholeHits(cards);
    }
    forall h | h in rows ensures h in set id | id in best :: Hit(id, best[id]) {
      assert h == Hit(h.id, best[h.id]);
    }
  }

  /** Cards that the whole-vector query cut off are safe: fifty others precede each of them. */
  lemma WholeCutIsSafe(cards: map<nat, Scored>, rows: seq<Hit>, d: Hit)
    requires WholeAnswer(cards, rows) && d in WholeHits(cards) && d !in rows
    ensures |Closer(Elements(rows), d)| >= CANDIDATES
  {
    var all := WholeHits(cards);
    var r :| Ranking(all, r) && rows == Top(r, CANDIDATES);
    var i :| 0 <= i < |r| && r[i] == d;
    InTop(r, CANDIDATES, i);
    var kept := Elements(rows);
    assert rows == r[..CANDIDATES];
    PrefixSize(r, CANDIDATES);
    forall h | h in rows ensures Before(h, d) {
      var k :| 0 <= k < CANDIDATES && rows[k] == h;
      assert Before(r[k], r[i]);
    }
    assert Closer(kept, d) == kept;
  }

  /** One search: the answers of the two queries, the best distances, the merged candidates in
      order, and the whole eligible set in order. */
  datatype Search = Search(chunkRows: seq<Hit>, wholeRows: seq<Hit>, best: map<nat, real>, ranking: seq<Hit>, full: seq<Hit>)

  ghost predicate SearchOf(cards: map<nat, Scored>, q: Search) {
    && Disjoint(cards) && ChunkAnswer(cards, q.chunkRows) && WholeAnswer(cards, q.wholeRows)
    && Best(q.chunkRows + q.wholeRows, q.best) && Ranking(set id | id in q.best :: Hit(id, q.best[id]), q.ranking)
    && Ranking(ChunkHits(cards) + WholeHits(cards), q.full)
  }

  /** The merged list is the true one. */
  predicate Exact(q: Search) {
    Top(q.ranking, CANDIDATES) == Top(q.full, CANDIDATES)
  }

  /** The merged list is the 50 nearest eligible cards, each at the distance of its nearest chunk
      or of its vector, exactly when every chunked card that the id-ordered cut-off dropped has 50
      kept candidates before it. */
  lemma SemanticListExact(cards: map<nat, Scored>, q: Search)
    requires SearchOf(cards, q)
    ensures Exact(q) <==>
            forall d | d in ChunkHits(cards) && d !in q.chunkRows :: |Closer(Elements(q.chunkRows + q.wholeRows), d)| >= CANDIDATES
  {
    var all, kept := ChunkHits(cards) + WholeHits(cards), Elements(q.chunkRows + q.wholeRows);
    WholeRowsAreHits(cards, q.wholeRows);
    BestIsUnion(cards, q.chunkRows, q.wholeRows, q.best);
    assert kept <= all;
    forall d | d in all - kept && d !in ChunkHits(cards) ensures |Closer(kept, d)| >= CANDIDATES {
      WholeCutIsSafe(cards, q.wholeRows, d);
      SubsetSize(Closer(Elements(q.wholeRows), d), Closer(kept, d));
    }
    forall d | d in ChunkHits(cards) && d !in q.chunkRows ensures d in all - kept {
      assert d in kept ==> d in q.wholeRows;
    }
    TopUnchangedIffSafe(all, kept, CANDIDATES, q.full, q.ranking);
  }

  lemma WholeRowsAreHits(cards: map<nat, Scored>, rows: seq<Hit>)
    requires WholeAnswer(cards, rows)
    ensures forall h | h in rows :: h in WholeHits(cards)
  {
    var r :| Ranking(WholeHits(cards), r) && rows == Top(r, CANDIDATES);
    forall h | h in rows ensures h in r {
    }
  }

  lemma {:induction false} RowsSize(rows: seq<Hit>)
    requires forall i, j | 0 <= i < j < |rows| :: rows[i].id < rows[j].id
    ensures |Elements(rows)| == |rows|
  {
    if rows != [] {
      var front, last := rows[..|rows| - 1], rows[|rows| - 1];
      RowsSize(front);
      assert Elements(rows) == Elements(front) + {last};
      assert last !in front;
    }
  }

  /** Up to 50 chunked cards the cut-off drops none. */
  lemma FewAreAllKept(cards: map<nat, Scored>, rows: seq<Hit>)
    requires ChunkAnswer(cards, rows) && |ChunkHits(cards)| <= CANDIDATES
    ensures forall d | d in ChunkHits(cards) :: d in rows
  {
    RowsSize(rows);
    if |rows| == CANDIDATES {
      SubsetSize(Elements(rows), ChunkHits(cards));
      SubsetEqual(Elements(rows), ChunkHits(cards));
    }
    assert forall d | d in Elements(rows) :: d in rows;
  }

  /** With at most 50 chunked cards eligible the list is exact. */
  lemma SemanticListExactWhenFewChunked(cards: map<nat, Scored>, q: Search)
    requires SearchOf(cards, q) && |ChunkHits(cards)| <= CANDIDATES
    ensures Exact(q)
  {
    hide WholeAnswer, Best, Ranking, Exact, ChunkHits, Disjoint, ChunkAnswer;
    FewAreAllKept(cards, q.chunkRows);
    SemanticListExact(cards, q);
  }

  // ---- The cut-off by id loses a card ---------------------------------------------------------------

  /** Chunked cards whose distance falls from one to nothing as the id grows to 50. */
  function Falling(i: nat): Hit {
    Hit(i, 1.0 - i as real / 50.0)
  }

  function Rising(n: nat): (r: seq<Hit>)
    ensures |r| == n && forall i | 0 <= i < n :: r[i] == Falling(i)
  {
    seq(n, i requires 0 <= i < n => Falling(i))
  }

  function Ordered(n: nat): (r: seq<Hit>)
    ensures |r| == n && forall i | 0 <= i < n :: r[i] == Falling(n - 1 - i)
  {
    seq(n, i requires 0 <= i < n => Falling(n - 1 - i))
  }

  lemma OrderedIsRanking(n: nat)
    ensures Sorted(Ordered(n)) && forall h :: h in Ordered(n) <==> h in Rising(n)
  {
    forall h | h in Rising(n) ensures h in Ordered(n) {
      var i :| 0 <= i < n && Rising(n)[i] == h;
      assert Ordered(n)[n - 1 - i] == h;
    }
  }

  function ManyCards(): map<nat, Scored> {
    map i: nat | i < 51 :: Scored(None, [Falling(i).distance])
  }

  lemma ManyHits()
    ensures ChunkHits(ManyCards()) == Elements(Rising(51)) && WholeHits(ManyCards()) == {}
  {
    forall h ensures h in ChunkHits(ManyCards()) <==> h in Elements(Rising(51)) {
      if h in ChunkHits(ManyCards()) {
        assert Rising(51)[h.id] == h;
      }
      if h in Elements(Rising(51)) {
        var i :| 0 <= i < 51 && Rising(51)[i] == h;
        assert ManyCards()[i].chunks == [h.distance];
        assert Nearest([h.distance]) in [h.distance];
      }
    }
  }

  lemma ManyAnswer()
    ensures ChunkAnswer(ManyCards(), Rising(50)) && WholeAnswer(ManyCards(), [])
  {
    ManyHits();
    forall h | h in Rising(50) ensures h in ChunkHits(ManyCards()) {
      assert Rising(51)[h.id] == h;
    }
    assert Ranking(WholeHits(ManyCards()), []) && Top([], CANDIDATES) == [];
  }

  /** A search over 51 chunked cards, the last of them nearest. */
  function ManySearch(): Search {
    Search(Rising(50), [], map i: nat | i < 50 :: Falling(i).distance, Ordered(50), Ordered(51))
  }

  lemma ManyBest()
    ensures Best(Rising(50), ManySearch().best)
    ensures (set id | id in ManySearch().best :: Hit(id, ManySearch().best[id])) == Elements(Rising(50))
  {
    var best := ManySearch().best;
    assert forall i: nat | i < 50 :: Rising(50)[i] == Hit(i, best[i]);
    forall h | h in Rising(50) ensures h.id in best && best[h.id] == h.distance {
    }
    forall h ensures h in Rising(50) <==> h in set id | id in best :: Hit(id, best[id]) {
      if h in Rising(50) {
        assert h == Hit(h.id, best[h.id]);
      }
    }
  }

  lemma ManyRanked(n: nat)
    ensures Ranking(Elements(Rising(n)), Ordered(n))
  {
    hide Sorted;
    OrderedIsRanking(n);
    assert forall h :: h in Elements(Rising(n)) <==> h in Rising(n);
  }

  lemma ManySearchIsOne()
    ensures SearchOf(ManyCards(), ManySearch())
  {
    hide ChunkAnswer, WholeAnswer, ChunkHits, WholeHits, Ranking, Best, Rising, Ordered;
    ManyHits();
    ManyAnswer();
    ManyBest();
    ManyRanked(50);
    ManyRanked(51);
    assert Rising(50) + [] == Rising(50);
    assert ChunkHits(ManyCards()) + WholeHits(ManyCards()) == Elements(Rising(51));
  }

  /** The nearest of 51 chunked cards is lost when it has the largest id. */
  lemma NearestCardIsLost()
    ensures SearchOf(ManyCards(), ManySearch()) && |ChunkHits(ManyCards())| == 51
    ensures ManySearch().full[0] == Hit(50, 0.0) && Hit(50, 0.0) !in ManySearch().ranking
    ensures !Exact(ManySearch())
  {
    hide SearchOf, ChunkHits;
    ManySearchIsOne();
    ManyHits();
    RowsSize(Rising(51));
    var q := ManySearch();
    assert Top(q.full, CANDIDATES)[0] == Hit(50, 0.0) && Top(q.ranking, CANDIDATES)[0] == Hit(49, 0.02);
  }

  /** Every search over at most `n` chunked cards is exact. */
  ghost predicate ExactUpTo(n: nat) {
    forall cards, q | SearchOf(cards, q) && |ChunkHits(cards)| <= n :: Exact(q)
  }

  /** The sharp bound of the id-ordered limit. */
  lemma ExactIffFewChunked(n: nat)
    ensures ExactUpTo(n) <==> n <= CANDIDATES
  {
    hide SearchOf, Exact;
    if n <= CANDIDATES {
      forall cards, q | SearchOf(cards, q) && |ChunkHits(cards)| <= n ensures Exact(q) {
        SemanticListExactWhenFewChunked(cards, q);
      }
    } else {
      NearestCardIsLost();
    }
  }
}
