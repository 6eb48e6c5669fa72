/** The stored retrieval cards and the replacement of a card by a new one. */
module SearchCards {
  import opened Options
  import opened SemanticSearch

  /** A card of one target for one vector model; its chunks live in a table of their own. */
  datatype Card = Card(target: nat, version: Option<string>, vector: Option<seq<real>>)

  predicate Same(card: Card, target: nat, version: Option<string>) {
    card.target == target && card.version == version
  }

  /** The cards other than those of one target for one model version. */
  function Others(cards: map<nat, Card>, target: nat, version: Option<string>): map<nat, Card> {
    map id | id in cards && !Same(cards[id], target, version) :: cards[id]
  }

  /** Chunks belong to existing cards, a card has a vector or chunks but not both, and a target
      has one card per model version. */
  ghost predicate Consistent(cards: map<nat, Card>, chunks: map<nat, seq<seq<real>>>, nextId: nat) {
    && (forall id | id in cards :: id < nextId)
    && (forall id | id in chunks :: id in cards && chunks[id] != [] && cards[id].vector.None?)
    && (forall i, j | i in cards && j in cards && Same(cards[i], cards[j].target, cards[j].version) :: i == j)
  }

  class CardStore {
    var cards: map<nat, Card>
    var chunks: map<nat, seq<seq<real>>>
    var nextId: nat

    ghost predicate Valid()
      reads this
    {
      Consistent(cards, chunks, nextId)
    }

    constructor ()
      ensures Valid() && cards == map[] && chunks == map[]
    {
      cards, chunks, nextId := map[], map[], 0;
    }

    /** Replaces the card of a target for a model version. None is the refusal of a card whose
        sensitivity is unknown, whose vectors have no model, that has vector and chunks, or that has
        chunks when there is no table for them. */
    method Index(target: nat, admissible: bool, version: Option<string>, vector: Option<seq<real>>, pieces: seq<seq<real>>, chunkTable: bool)
      returns (entry: Option<nat>)
      requires Valid()
      modifies this
      ensures Valid()
      ensures entry.None? <==>
                !admissible || (version.None? && (vector.Some? || pieces != [])) || (vector.Some? && pieces != []) || (pieces != [] && !chunkTable)
      ensures entry.None? ==> cards == old(cards) && chunks == old(chunks)
      ensures entry.Some? ==>
                && entry.value !in old(cards)
                && cards == Others(old(cards), target, version)[entry.value := Card(target, version, vector)]
                && chunks == WithChunks(Cascade(old(chunks), Others(old(cards), target, version)), entry.value, pieces)
      ensures entry.Some? ==>
                && entry.value in cards && cards[entry.value] == Card(target, version, vector)
                && (entry.value in chunks <==> pieces != []) && (pieces != [] ==> chunks[entry.value] == pieces)
      ensures entry.Some? ==>
                forall id | id in old(cards) ::
                  if old(cards)[id].target == target && old(cards)[id].version == version then id !in cards && id !in chunks
                  else && id in cards && cards[id] == old(cards)[id] && (id in chunks <==> id in old(chunks))
                       && (id in chunks ==> chunks[id] == old(chunks)[id])
    {
      hide Others, Cascade;
      if !admissible || (vector.Some? && version.None?) {
        return None;
      }
      if pieces != [] && (!chunkTable || version.None? || vector.Some?) {
        return None;
      }
      var id := nextId;
      IndexStaysConsistent(cards, chunks, nextId, Card(target, version, vector), pieces);
      // Deleting the stale cards cascades to their chunks.
      cards := Others(cards, target, version);
      chunks := Cascade(chunks, cards);
      cards := cards[id := Card(target, version, vector)];
      if pieces != [] {
        chunks := chunks[id := pieces];
      }
      nextId := nextId + 1;
      ReplacedExactly(old(cards), old(chunks), id, Card(target, version, vector), pieces);
      return Some(id);
    }
  }

  /** The chunks whose card is still there. */
  function Cascade(chunks: map<nat, seq<seq<real>>>, cards: map<nat, Card>): map<nat, seq<seq<real>>> {
    map e | e in chunks && e in cards :: chunks[e]
  }

  function WithChunks(chunks: map<nat, seq<seq<real>>>, id: nat, pieces: seq<seq<real>>): map<nat, seq<seq<real>>> {
    if pieces == [] then chunks else chunks[id := pieces]
  }

  /** The cards of the target for the version are gone with their chunks, and all others are as they were. */
  lemma ReplacedExactly(cards: map<nat, Card>, chunks: map<nat, seq<seq<real>>>, entry: nat, card: Card, pieces: seq<seq<real>>)
    requires entry !in cards && forall id | id in chunks :: id in cards
    ensures var others := Others(cards, card.target, card.version);
            var after := WithChunks(Cascade(chunks, others), entry, pieces);
            && (entry in after <==> pieces != []) && (pieces != [] ==> after[entry] == pieces)
            && forall id | id in cards ::
                 if cards[id].target == card.target && cards[id].version == card.version then id !in others && id !in after
                 else && id in others && others[id] == cards[id] && (id in after <==> id in chunks)
                      && (id in after ==> after[id] == chunks[id])
  {
  }

  lemma IndexStaysConsistent(cards: map<nat, Card>, chunks: map<nat, seq<seq<real>>>, nextId: nat, card: Card, pieces: seq<seq<real>>)
    requires Consistent(cards, chunks, nextId) && (pieces != [] ==> card.vector.None?)
    ensures var others := Others(cards, card.target, card.version);
            Consistent(others[nextId := card], WithChunks(Cascade(chunks, others), nextId, pieces), nextId + 1)
  {
  }

  function Distances(vectors: seq<seq<real>>, distance: seq<real> -> real): seq<real> {
    seq(|vectors|, i requires 0 <= i < |vectors| => distance(vectors[i]))
  }

  /** The cards of one model version as a query with the given distance sees them. */
  function View(cards: map<nat, Card>, chunks: map<nat, seq<seq<real>>>, version: string, distance: seq<real> -> real): map<nat, SemanticSearch.Scored> {
    map id | id in cards && cards[id].version == Some(version) ::
      SemanticSearch.Scored.Scored(
        if cards[id].vector.Some? then Some(distance(cards[id].vector.value)) else None,
        if id in chunks then Distances(chunks[id], distance) else [])
  }

  /** What the merge of the two semantic queries rests on. */
  lemma ViewIsDisjoint(cards: map<nat, Card>, chunks: map<nat, seq<seq<real>>>, nextId: nat, version: string, distance: seq<real> -> real)
    requires Consistent(cards, chunks, nextId)
    ensures Disjoint(View(cards, chunks, version, distance))
  {
  }

  /** The distance of a stored card from the query: that of its vector or of its nearest chunk. */
  ghost predicate At(cards: map<nat, Card>, chunks: map<nat, seq<seq<real>>>, distance: seq<real> -> real, h: Hit) {
    h.id in cards
    && if cards[h.id].vector.Some? then h.distance == distance(cards[h.id].vector.value)
       else && h.id in chunks && (exists i :: 0 <= i < |chunks[h.id]| && h.distance == distance(chunks[h.id][i]))
            && forall i | 0 <= i < |chunks[h.id]| :: h.distance <= distance(chunks[h.id][i])
  }

  lemma {:induction false} HitsSize(hits: set<Hit>, ids: set<nat>)
    requires forall h | h in hits :: h.id in ids
    requires forall h, k | h in hits && k in hits && h.id == k.id :: h == k
    ensures |hits| <= |ids|
    decreases |hits|
  {
    if hits != {} {
      var h :| h in hits;
      HitsSize(hits - {h}, ids - {h.id});
    }
  }

  /** The least of the chunk distances is the one distance that occurs and that none is below. */
  lemma NearestChunk(vectors: seq<seq<real>>, distance: seq<real> -> real, d: real)
    requires vectors != []
    ensures d == Nearest(Distances(vectors, distance)) <==>
            (exists i :: 0 <= i < |vectors| && d == distance(vectors[i])) && forall i | 0 <= i < |vectors| :: d <= distance(vectors[i])
  {
    var ds := Distances(vectors, distance);
    assert forall i | 0 <= i < |ds| :: ds[i] == distance(vectors[i]);
    var k :| 0 <= k < |ds| && ds[k] == Nearest(ds);
    assert Nearest(ds) == distance(vectors[k]);
    if i :| 0 <= i < |vectors| && d == distance(vectors[i]) {
      assert ds[i] == d;
    }
  }

  /** What a query sees of the stored cards: every card of its model version that has a vector or chunks,
      at its distance, and no other. */
  lemma ViewShowsStoredCards(cards: map<nat, Card>, chunks: map<nat, seq<seq<real>>>, nextId: nat, version: string, distance: seq<real> -> real, h: Hit)
    requires Consistent(cards, chunks, nextId)
    ensures var view := View(cards, chunks, version, distance);
            h in ChunkHits(view) + WholeHits(view) <==>
            h.id in cards && cards[h.id].version == Some(version) && At(cards, chunks, distance, h)
  {
    hide Distances, Nearest;
    var view := View(cards, chunks, version, distance);
    if h.id in view && h.id in chunks {
      NearestChunk(chunks[h.id], distance, h.distance);
      SameLength(chunks[h.id], distance);
    }
    assert h in ChunkHits(view) <==> h.id in view && view[h.id].chunks != [] && h.distance == Nearest(view[h.id].chunks);
    assert h in WholeHits(view) <==> h.id in view && view[h.id].whole == Some(h.distance);
  }

  lemma SameLength(vectors: seq<seq<real>>, distance: seq<real> -> real)
    ensures |Distances(vectors, distance)| == |vectors|
  {
  }

  /** The cards of a model version that have chunks. */
  function Chunked(cards: map<nat, Card>, chunks: map<nat, seq<seq<real>>>, version: string): set<nat> {
    set id | id in chunks && id in cards && cards[id].version == Some(version)
  }

  lemma FewChunkHits(cards: map<nat, Card>, chunks: map<nat, seq<seq<real>>>, version: string, distance: seq<real> -> real)
    ensures |ChunkHits(View(cards, chunks, version, distance))| <= |Chunked(cards, chunks, version)|
  {
    HitsSize(ChunkHits(View(cards, chunks, version, distance)), Chunked(cards, chunks, version));
  }

  /** End to end: for any store and query with at most fifty chunked cards of the model version, the
      merged list is the first fifty, by distance and id, of all cards of that version that have a
      vector or chunks. */
  lemma StoredSearchIsExact(cards: map<nat, Card>, chunks: map<nat, seq<seq<real>>>, nextId: nat, version: string, distance: seq<real> -> real, q: Search)
    requires Consistent(cards, chunks, nextId) && SearchOf(View(cards, chunks, version, distance), q)
    requires |Chunked(cards, chunks, version)| <= 50
    ensures Top(q.ranking, 50) == Top(q.full, 50)
    ensures forall h :: h in q.full <==> h.id in cards && cards[h.id].version == Some(version) && At(cards, chunks, distance, h)
    ensures forall i, j | 0 <= i < j < |q.full| ::
              q.full[i].distance < q.full[j].distance || (q.full[i].distance == q.full[j].distance && q.full[i].id < q.full[j].id)
  {
    hide At, View, ChunkHits, WholeHits, ChunkAnswer, WholeAnswer, Best, Consistent;
    var view := View(cards, chunks, version, distance);
    FewChunkHits(cards, chunks, version, distance);
    SemanticListExactWhenFewChunked(view, q);
    forall h ensures h in q.full <==> h.id in cards && cards[h.id].version == Some(version) && At(cards, chunks, distance, h) {
      ViewShowsStoredCards(cards, chunks, nextId, version, distance, h);
    }
  }
}
