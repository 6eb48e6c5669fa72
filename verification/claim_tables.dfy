/** Rows of the self-claim tables that the duplicate sweep and the owner-approved merge
    read and write, and the textual likeness rule that both rely on.

    A claim id is a natural number: a canonical UUID string is fixed-width lower-case
    hexadecimal, so its text order is the numeric order used here. */
module ClaimTables {
  import opened Options
  import opened SetSizes

  // ---- Likeness of claim texts ------------------------------------------------------

  /** A claim text after tokenisation, normalisation and polarity detection. */
  datatype Text = Text(negative: bool, normal: string, tokens: set<string>)

  datatype Kind = Duplicate | Suspected | Distinct

  const MERGE_SIMILARITY := 0.75
  const REVIEW_SIMILARITY := 0.5

  /** Jaccard overlap of two token sets; zero when either side has no token. */
  function Similarity(a: Text, b: Text): (s: real)
    ensures 0.0 <= s <= 1.0
  {
    if a.tokens == {} || b.tokens == {} then 0.0
    else
      var common, all := a.tokens * b.tokens, a.tokens + b.tokens;
      SubsetSize(common, all);
      SubsetSize(a.tokens, all);
      FractionBound(|common|, |all|);
      (|common| as real) / (|all| as real)
  }

  lemma FractionBound(part: nat, whole: nat)
    requires part <= whole && whole > 0
    ensures 0.0 <= (part as real) / (whole as real) <= 1.0
  {
    var p, w := part as real, whole as real;
    assert p / w * w == p;
    AboveOneGrows(p / w, w);
  }

  lemma AboveOneGrows(q: real, w: real)
    requires w > 0.0
    ensures q > 1.0 ==> q * w > w
  {
    if q > 1.0 {
      assert (q - 1.0) * w > 0.0;
    }
  }

  function DuplicateKind(a: Text, b: Text): Kind {
    if a.negative != b.negative then Distinct
    else if a.normal == b.normal then Duplicate
    else if Similarity(a, b) >= MERGE_SIMILARITY then Duplicate
    else if Similarity(a, b) >= REVIEW_SIMILARITY then Suspected
    else Distinct
  }

  /** The rule does not depend on which of the two rows the scan met first. */
  lemma DuplicateKindSymmetric(a: Text, b: Text)
    ensures DuplicateKind(a, b) == DuplicateKind(b, a)
  {
    assert a.tokens * b.tokens == b.tokens * a.tokens;
    assert a.tokens + b.tokens == b.tokens + a.tokens;
  }

  /** The rule in whole numbers: texts of one polarity are duplicates if their normal forms are equal or
      at least three in four of all their tokens are common; otherwise they are suspected if at least
      one in two is. A text without tokens is like another only by its normal form. */
  lemma DuplicateKindExactly(a: Text, b: Text)
    ensures var common, all := |a.tokens * b.tokens|, |a.tokens + b.tokens|;
            var alike := a.negative == b.negative && (a.normal == b.normal || (a.tokens != {} && b.tokens != {} && 4 * common >= 3 * all));
            && (DuplicateKind(a, b).Duplicate? <==> alike)
            && (DuplicateKind(a, b).Suspected? <==>
                  !alike && a.negative == b.negative && a.tokens != {} && b.tokens != {} && 2 * common >= all)
  {
    var common, all := |a.tokens * b.tokens|, |a.tokens + b.tokens|;
    if a.tokens != {} && b.tokens != {} {
      SubsetSize(a.tokens, a.tokens + b.tokens);
      AtLeast(common, all, 3, 4);
      AtLeast(common, all, 1, 2);
    }
  }

  /** A fraction reaches p / q exactly if q times its part reaches p times its whole. */
  lemma AtLeast(part: nat, whole: nat, p: nat, q: nat)
    requires whole > 0 && q > 0
    ensures (part as real) / (whole as real) >= (p as real) / (q as real) <==> q * part >= p * whole
  {
    var x, w, y, v := part as real, whole as real, p as real, q as real;
    assert x / w * w == x && y / v * v == y;
    assert (q * part) as real == v * x && (p * whole) as real == y * w;
    Scaled(x / w, y / v, w * v);
    assert x / w * (w * v) == x / w * w * v && y / v * (w * v) == y / v * v * w;
  }

  lemma Scaled(a: real, b: real, k: real)
    requires k > 0.0
    ensures a >= b <==> a * k >= b * k
  {
    if a >= b {
      assert (a - b) * k >= 0.0;
    } else {
      assert (b - a) * k > 0.0;
    }
  }

  // ---- Likeness of stored vectors ---------------------------------------------------

  function Dot(a: seq<real>, b: seq<real>): real
    requires |a| == |b|
  {
    if a == [] then 0.0 else a[0] * b[0] + Dot(a[1..], b[1..])
  }

  lemma {:induction false} DotSymmetric(a: seq<real>, b: seq<real>)
    requires |a| == |b|
    ensures Dot(a, b) == Dot(b, a)
  {
    if a != [] {
      DotSymmetric(a[1..], b[1..]);
    }
  }

  /** Cosine at least 0.85, with the square roots multiplied out: the dot product is not
      negative and its square reaches 0.85 * 0.85 of the product of the squared norms. */
  predicate VectorClose(a: seq<real>, b: seq<real>) {
    && a != [] && |a| == |b|
    && Dot(a, a) != 0.0 && Dot(b, b) != 0.0
    && Dot(a, b) >= 0.0
    && Dot(a, b) * Dot(a, b) >= 0.7225 * (Dot(a, a) * Dot(b, b))
  }

  lemma VectorCloseSymmetric(a: seq<real>, b: seq<real>)
    ensures VectorClose(a, b) == VectorClose(b, a)
  {
    if |a| == |b| {
      DotSymmetric(a, b);
    }
  }

  /** The dot product adds up coordinate by coordinate. */
  lemma {:induction false} DotAppend(a: seq<real>, b: seq<real>, x: real, y: real)
    requires |a| == |b|
    ensures Dot(a + [x], b + [y]) == Dot(a, b) + x * y
  {
    if a == [] {
      assert a + [x] == [x] && b + [y] == [y];
    } else {
      DotAppend(a[1..], b[1..], x, y);
      assert (a + [x])[1..] == a[1..] + [x] && (b + [y])[1..] == b[1..] + [y];
    }
  }

  lemma {:induction false} NormNotNegative(a: seq<real>)
    ensures Dot(a, a) >= 0.0
  {
    if a != [] {
      NormNotNegative(a[1..]);
      assert a[0] * a[0] >= 0.0;
    }
  }

  /** Every vector but a null one is close to itself; orthogonal vectors, and vectors that point
      against each other, are not close. */
  lemma ClosenessOfDirections(a: seq<real>, b: seq<real>)
    requires |a| == |b|
    ensures VectorClose(a, a) <==> Dot(a, a) > 0.0
    ensures Dot(a, b) <= 0.0 ==> !VectorClose(a, b)
  {
    NormNotNegative(a);
    NormNotNegative(b);
    var n, m := Dot(a, a), Dot(b, b);
    if n > 0.0 {
      assert a != [];
      assert n * n >= 0.0;
    }
    if n > 0.0 && m > 0.0 {
      assert n * m > 0.0;
    }
  }

  // ---- Rows -------------------------------------------------------------------------

  datatype Lifecycle = Candidate | Active | Historical | Superseded | Established | Expired | Deleted

  predicate Live(state: Lifecycle) {
    state.Candidate? || state.Active? || state.Historical?
  }

  datatype Rule = TokenJaccard | OwnerApproved

  datatype Event =
    | SupersededByMerge(at: int, survivor: nat, rule: Rule)
    | MergedDuplicates(at: int, merged: set<nat>, rule: Rule)

  datatype Claim = Claim(
    id: nat, owner: nat, category: string, text: Text, lifecycle: Lifecycle, established: bool,
    createdAt: int, validTo: Option<int>, summary: set<nat>, events: seq<Event>)

  datatype Target = ClaimTarget(id: nat) | OtherTarget(kind: string, id: nat)

  datatype Evidence = Evidence(owner: nat, target: Target, version: nat)

  /** `open` stands for the states open and deferred. */
  datatype Item = Item(owner: nat, mergeCandidate: bool, refs: set<nat>, open: bool, survivor: nat)

  datatype Card = Card(embedding: Option<seq<real>>)

  /** The four tables a merge touches; `cards` holds the retrieval card of each claim and
      `items` the review inbox in insertion order. */
  datatype Tables = Tables(
    claims: map<nat, Claim>, evidence: map<nat, Evidence>, items: seq<Item>, cards: map<nat, Card>)

  /** Every row is stored under its own id. */
  ghost predicate Keyed(t: Tables) {
    forall id | id in t.claims :: t.claims[id].id == id
  }

  predicate OnClaim(e: Evidence, owner: nat, id: nat) {
    e.owner == owner && e.target == ClaimTarget(id)
  }

  function EvidenceOf(t: Tables, owner: nat, id: nat): set<nat> {
    set e | e in t.evidence && OnClaim(t.evidence[e], owner, id)
  }

  function EvidenceCount(t: Tables, owner: nat, id: nat): nat {
    |EvidenceOf(t, owner, id)|
  }

  /** Refs that an unresolved merge item of the owner already claims. */
  function ClaimedRefs(items: seq<Item>, owner: nat): set<nat> {
    set i, ref | 0 <= i < |items| && OpenMerge(items[i], owner) && ref in items[i].refs :: ref
  }

  predicate OpenMerge(item: Item, owner: nat) {
    item.owner == owner && item.mergeCandidate && item.open
  }

  // ---- The survivor order -----------------------------------------------------------

  function Supports(c: Claim, counts: map<nat, nat>): nat {
    if c.id in counts then counts[c.id] else 0
  }

  /** `a` is kept rather than `b`: established or active first, then more evidence, then
      older, then smaller id. */
  predicate Outranks(a: Claim, b: Claim, counts: map<nat, nat>) {
    var firmA, firmB := a.established || a.lifecycle.Active?, b.established || b.lifecycle.Active?;
    if firmA != firmB then firmA
    else if Supports(a, counts) != Supports(b, counts) then Supports(a, counts) > Supports(b, counts)
    else if a.createdAt != b.createdAt then a.createdAt < b.createdAt
    else a.id < b.id
  }

  /** The sort key of a row, as the sweep computes it. */
  function SurvivorKey(c: Claim, counts: map<nat, nat>): (int, int, int, int) {
    var supports: int := Supports(c, counts);
    (if c.established || c.lifecycle.Active? then 0 else 1, -supports, c.createdAt, c.id)
  }

  /** The order of tuples, component by component. */
  predicate KeyBefore(x: (int, int, int, int), y: (int, int, int, int)) {
    || x.0 < y.0
    || (x.0 == y.0 && x.1 < y.1)
    || (x.0 == y.0 && x.1 == y.1 && x.2 < y.2)
    || (x.0 == y.0 && x.1 == y.1 && x.2 == y.2 && x.3 < y.3)
  }

  /** Sorting by the key puts the row to keep first. */
  lemma KeyMeansOutranks(a: Claim, b: Claim, counts: map<nat, nat>)
    ensures KeyBefore(SurvivorKey(a, counts), SurvivorKey(b, counts)) <==> Outranks(a, b, counts)
  {
  }
}
